/**
 * `df_from_quotes`: the quotes of one ticker as a column-oriented table,
 * either all seven columns in their fixed order or the requested ones in
 * request order, unknown names skipped.
 */
module QuoteTable {
  import opened Wrappers
  import opened DataFrame

  type I64 = x: int | -0x8000_0000_0000_0000 <= x < 0x8000_0000_0000_0000
  type U64 = x: int | 0 <= x < 0x1_0000_0000_0000_0000

  /** One sample from the quote provider; prices stay opaque. */
  datatype Quote = Quote(timestamp: I64, open: F64, high: F64, low: F64, close: F64, volume: U64, adjclose: F64)

  /** The column names the builder recognises. */
  datatype ColumnKind = Date | Open | High | Low | Close | Volume | AdjClose

  function KindName(k: ColumnKind): string {
    match k
    case Date => "date"
    case Open => "open"
    case High => "high"
    case Low => "low"
    case Close => "close"
    case Volume => "volume"
    case AdjClose => "adjclose"
  }

  const DEFAULT_KINDS: seq<ColumnKind> := [Date, Open, High, Low, Close, Volume, AdjClose]
  const DEFAULT_NAMES: seq<string> := ["date", "open", "high", "low", "close", "volume", "adjclose"]

  /** The string `match` of the builder: a recognised name gives its kind, anything else nothing. */
  function ParseColumn(name: string): (r: Option<ColumnKind>)
    ensures r.Some? ==> KindName(r.value) == name
    ensures forall k :: KindName(k) == name ==> r == Some(k)
    ensures r.Some? <==> name in DEFAULT_NAMES
  {
    match name
    case "date" => Some(Date)
    case "open" => Some(Open)
    case "high" => Some(High)
    case "low" => Some(Low)
    case "close" => Some(Close)
    case "volume" => Some(Volume)
    case "adjclose" => Some(AdjClose)
    case _ => None
  }

  /**
   * The cell a quote contributes to a column. The date column carries
   * the raw `timestamp`, reinterpreted as milliseconds by the cast to
   * `Datetime(Milliseconds)`.
   */
  function CellOf(q: Quote, k: ColumnKind): Value {
    match k
    case Date => DateMs(q.timestamp)
    case Open => Float(q.open)
    case High => Float(q.high)
    case Low => Float(q.low)
    case Close => Float(q.close)
    case Volume => UInt(q.volume)
    case AdjClose => Float(q.adjclose)
  }

  /** `quotes.iter().map(|q| ..).collect()`: one cell per quote, in quote order. */
  function ColumnValues(quotes: seq<Quote>, k: ColumnKind): (r: seq<Value>)
    ensures |r| == |quotes|
    ensures forall i :: 0 <= i < |quotes| ==> r[i] == CellOf(quotes[i], k)
  {
    if quotes == [] then [] else [CellOf(quotes[0], k)] + ColumnValues(quotes[1..], k)
  }

  function ColumnOf(quotes: seq<Quote>, k: ColumnKind): Column {
    Column(KindName(k), ColumnValues(quotes, k))
  }

  /** The columns for a list of kinds, in that order. */
  function Build(quotes: seq<Quote>, kinds: seq<ColumnKind>): (t: Table)
    ensures |t| == |kinds| && forall j :: 0 <= j < |kinds| ==> t[j] == ColumnOf(quotes, kinds[j])
    decreases |kinds|
  {
    if kinds == [] then [] else Build(quotes, kinds[..|kinds| - 1]) + [ColumnOf(quotes, kinds[|kinds| - 1])]
  }

  /** The kinds of the recognised names, in request order. */
  function Recognised(names: seq<string>): seq<ColumnKind>
    decreases |names|
  {
    if names == [] then []
    else
      var init := Recognised(names[..|names| - 1]);
      match ParseColumn(names[|names| - 1])
      case Some(k) => init + [k]
      case None => init
  }

  /** What `df_from_quotes(quotes, columns)` returns. */
  function FromQuotes(quotes: seq<Quote>, columns: Option<seq<string>>): Result<Table, PolarsError> {
    match columns
    case None => Ok(Build(quotes, DEFAULT_KINDS))
    case Some(names) => NewDataFrame(Build(quotes, Recognised(names)))
  }

  /** The builder of utils.rs: one push per recognised name, then `DataFrame::new`. */
  method DfFromQuotes(quotes: seq<Quote>, columns: Option<seq<string>>) returns (r: Result<Table, PolarsError>)
    ensures r == FromQuotes(quotes, columns)
  {
    if columns.Some? {
      var names := columns.value;
      var colsSeries: seq<Column> := [];
      for i := 0 to |names|
        invariant colsSeries == Build(quotes, Recognised(names[..i]))
      {
        assert names[..i + 1][..i] == names[..i];
        match ParseColumn(names[i]) {
          case Some(k) =>
            colsSeries := colsSeries + [ColumnOf(quotes, k)];
          case None =>
        }
      }
      assert names[..|names|] == names;
      return NewDataFrame(colsSeries);
    }
    var all := [ColumnOf(quotes, Date), ColumnOf(quotes, Open), ColumnOf(quotes, High),
                ColumnOf(quotes, Low), ColumnOf(quotes, Close), ColumnOf(quotes, Volume),
                ColumnOf(quotes, AdjClose)];
    assert all == Build(quotes, DEFAULT_KINDS);
    r := Ok(all);
  }

  // ----- properties -----

  /** The known names of a request, in request order: the reference for what the builder keeps. */
  function KnownNames(names: seq<string>): seq<string>
    decreases |names|
  {
    if names == [] then [] else
      var last := names[|names| - 1];
      KnownNames(names[..|names| - 1]) + (if last in DEFAULT_NAMES then [last] else [])
  }

  /** The names of the recognised kinds are exactly the known names of the request. */
  lemma {:induction false} RecognisedNames(names: seq<string>)
    ensures Names(Build([], Recognised(names))) == KnownNames(names)
    decreases |names|
  {
    if names != [] {
      var init := names[..|names| - 1];
      RecognisedNames(init);
      var ks := Recognised(init);
      match ParseColumn(names[|names| - 1]) {
        case Some(k) =>
          assert Recognised(names) == ks + [k];
          assert (ks + [k])[..|ks|] == ks;
          assert Build([], ks + [k]) == Build([], ks) + [ColumnOf([], k)];
          NamesSnoc(Build([], ks), ColumnOf([], k));
        case None =>
      }
    }
  }

  lemma NamesSnoc(t: Table, c: Column)
    ensures Names(t + [c]) == Names(t) + [c.name]
  {
  }

  /** Building keeps the order of the kinds in the names. */
  lemma BuildNames(quotes: seq<Quote>, kinds: seq<ColumnKind>)
    ensures Names(Build(quotes, kinds)) == Names(Build([], kinds))
  {
  }

  /** Distinct kinds have distinct names. */
  lemma BuildDistinct(quotes: seq<Quote>, kinds: seq<ColumnKind>)
    ensures Distinct(Names(Build(quotes, kinds))) <==> Distinct(kinds)
  {
    var t := Build(quotes, kinds);
    if Distinct(kinds) {
      forall i, j | 0 <= i < j < |t| ensures Names(t)[i] != Names(t)[j] {
        assert ParseColumn(KindName(kinds[i])) == Some(kinds[i]);
        assert ParseColumn(KindName(kinds[j])) == Some(kinds[j]);
      }
    }
  }

  /** Every column of a build holds one cell per quote, the cell being that quote's field. */
  lemma BuildRectangular(quotes: seq<Quote>, kinds: seq<ColumnKind>)
    ensures Rectangular(Build(quotes, kinds))
    ensures kinds != [] ==> Height(Build(quotes, kinds)) == |quotes|
  {
  }

  /** Without a filter: the seven columns date, open, high, low, close, volume, adjclose, in that order. */
  lemma DefaultColumns(quotes: seq<Quote>)
    ensures FromQuotes(quotes, None).Ok?
    ensures Names(FromQuotes(quotes, None).value) == DEFAULT_NAMES
    ensures Rectangular(FromQuotes(quotes, None).value) && Height(FromQuotes(quotes, None).value) == |quotes|
  {
    var t := Build(quotes, DEFAULT_KINDS);
    assert Names(t) == DEFAULT_NAMES;
  }

  /**
   * With a filter: the known names of the request, in request order,
   * unknown names dropped; a known name asked for twice makes
   * `DataFrame::new` fail with a duplicate-name error.
   */
  lemma FilteredColumns(quotes: seq<Quote>, names: seq<string>)
    ensures FromQuotes(quotes, Some(names)).Ok? <==> Distinct(KnownNames(names))
    ensures FromQuotes(quotes, Some(names)).Err? ==> FromQuotes(quotes, Some(names)).error == Duplicate
    ensures FromQuotes(quotes, Some(names)).Ok? ==> Names(FromQuotes(quotes, Some(names)).value) == KnownNames(names)
  {
    var ks := Recognised(names);
    BuildNames(quotes, ks);
    RecognisedNames(names);
    BuildDistinct(quotes, ks);
    BuildDistinct([], ks);
    BuildRectangular(quotes, ks);
  }

  /** An empty filter, or one with only unknown names, gives a table without columns, not an error. */
  lemma NoKnownColumns(quotes: seq<Quote>, names: seq<string>)
    requires forall i :: 0 <= i < |names| ==> names[i] !in DEFAULT_NAMES
    ensures FromQuotes(quotes, Some(names)) == Ok([])
  {
    NoKnownNames(names);
    FilteredColumns(quotes, names);
  }

  lemma {:induction false} NoKnownNames(names: seq<string>)
    requires forall i :: 0 <= i < |names| ==> names[i] !in DEFAULT_NAMES
    ensures KnownNames(names) == []
    decreases |names|
  {
    if names != [] {
      NoKnownNames(names[..|names| - 1]);
    }
  }

  /**
   * Row `i` of every column comes from quote `i`: the field its name
   * selects, the date being the quote's timestamp in milliseconds.
   */
  lemma CellsFromQuotes(quotes: seq<Quote>, columns: Option<seq<string>>)
    requires FromQuotes(quotes, columns).Ok?
    ensures var t := FromQuotes(quotes, columns).value;
      Rectangular(t) && (t != [] ==> Height(t) == |quotes|)
      && forall j, i :: 0 <= j < |t| && 0 <= i < |quotes| ==>
           ParseColumn(t[j].name).Some? && t[j].values[i] == CellOf(quotes[i], ParseColumn(t[j].name).value)
    ensures var t := FromQuotes(quotes, columns).value;
      forall j, i :: 0 <= j < |t| && 0 <= i < |quotes| && t[j].name == "date" ==> t[j].values[i] == DateMs(quotes[i].timestamp)
  {
    var ks := if columns.Some? then Recognised(columns.value) else DEFAULT_KINDS;
    BuildRectangular(quotes, ks);
  }

  lemma KindNameNoSpace(k: ColumnKind)
    ensures ' ' !in KindName(k)
  {
    match k
    case Date => assert KindName(k) == ['d', 'a', 't', 'e'];
    case Open => assert KindName(k) == ['o', 'p', 'e', 'n'];
    case High => assert KindName(k) == ['h', 'i', 'g', 'h'];
    case Low => assert KindName(k) == ['l', 'o', 'w'];
    case Close => assert KindName(k) == ['c', 'l', 'o', 's', 'e'];
    case Volume => assert KindName(k) == ['v', 'o', 'l', 'u', 'm', 'e'];
    case AdjClose => assert KindName(k) == ['a', 'd', 'j', 'c', 'l', 'o', 's', 'e'];
  }

  /** Built columns are named after their kinds, none of which holds a space. */
  lemma BuiltNamesNoSpace(quotes: seq<Quote>, kinds: seq<ColumnKind>)
    ensures forall j :: 0 <= j < |Build(quotes, kinds)| ==> ' ' !in Build(quotes, kinds)[j].name
  {
    var t := Build(quotes, kinds);
    forall j | 0 <= j < |t| ensures ' ' !in t[j].name {
      KindNameNoSpace(kinds[j]);
    }
  }

  lemma DefaultKindsDistinct()
    ensures Distinct(DEFAULT_KINDS)
  {
  }

  /** Column names from the builder contain no space, so a `"<ticker> "` prefix can be undone. */
  lemma NamesHaveNoSpace(quotes: seq<Quote>, columns: Option<seq<string>>)
    requires FromQuotes(quotes, columns).Ok?
    ensures var t := FromQuotes(quotes, columns).value;
      Distinct(Names(t)) && forall j :: 0 <= j < |t| ==> ' ' !in t[j].name
  {
    if columns.None? {
      DefaultKindsDistinct();
      BuildDistinct(quotes, DEFAULT_KINDS);
      BuiltNamesNoSpace(quotes, DEFAULT_KINDS);
    } else {
      BuiltNamesNoSpace(quotes, Recognised(columns.value));
    }
  }

}
