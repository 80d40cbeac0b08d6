/**
 * `get_dataframe_service`: the request's ticker list is split on commas,
 * trimmed and stripped of empty entries; the two dates are parsed (a
 * malformed date panics); the cache key and the column filter are derived
 * from the request; a cached table is returned as it is; otherwise the
 * quotes are fetched, turned into tables, combined into one, and the
 * result is remembered under the key.
 */
module Fetching {
  import opened Wrappers
  import opened Text
  import opened Time
  import opened DataFrame
  import opened QuoteTable
  import opened Combining
  import opened QuoteHistory

  // ----- comma-separated lists -----

  /** The trimmed pieces that are not empty, in their order. */
  function Clean(pieces: seq<string>): seq<string>
    decreases |pieces|
  {
    if pieces == [] then []
    else (if Trim(pieces[0]) == [] then [] else [Trim(pieces[0])]) + Clean(pieces[1..])
  }

  /** `s.split(',').map(trim).filter(non-empty)`: how tickers and column names are read. */
  function ParseList(s: string): seq<string> {
    Clean(Split(s, ','))
  }

  /** An entry of a parsed list is non-empty, holds no comma and has no whitespace at either end. */
  predicate CleanEntry(e: string) {
    e != [] && ',' !in e && !IsWhitespace(e[0]) && !IsWhitespace(e[|e| - 1])
  }

  lemma {:induction false} CleanEntries(pieces: seq<string>)
    requires forall i :: 0 <= i < |pieces| ==> ',' !in pieces[i]
    ensures forall i :: 0 <= i < |Clean(pieces)| ==> CleanEntry(Clean(pieces)[i])
    ensures |Clean(pieces)| <= |pieces|
    decreases |pieces|
  {
    if pieces != [] {
      CleanEntries(pieces[1..]);
      TrimProperties(pieces[0]);
    }
  }

  /** Every parsed entry is a clean entry, and there are no more entries than commas plus one. */
  lemma ParseListEntries(s: string)
    ensures forall i :: 0 <= i < |ParseList(s)| ==> CleanEntry(ParseList(s)[i])
    ensures |ParseList(s)| <= |Split(s, ',')|
  {
    SplitPieces(s, ',');
    CleanEntries(Split(s, ','));
  }

  lemma {:induction false} CleanConcat(a: seq<string>, b: seq<string>)
    ensures Clean(a + b) == Clean(a) + Clean(b)
    decreases |a|
  {
    if a != [] {
      CleanConcat(a[1..], b);
      assert (a + b)[0] == a[0] && (a + b)[1..] == a[1..] + b;
    } else {
      assert a + b == b;
    }
  }

  /** Parsing keeps order and works piece by piece: the list before a comma, then the list after it. */
  lemma ParseListConcat(a: string, b: string)
    ensures ParseList(a + [','] + b) == ParseList(a) + ParseList(b)
  {
    SplitConcat(a, b, ',');
    CleanConcat(Split(a, ','), Split(b, ','));
  }

  /** Text without a comma is one entry, trimmed, or nothing when it is blank. */
  lemma ParseListSingle(s: string)
    requires ',' !in s
    ensures ParseList(s) == if Trim(s) == [] then [] else [Trim(s)]
  {
    SplitNoSep(s, ',');
    assert Clean([s]) == (if Trim(s) == [] then [] else [Trim(s)]) + Clean([s][1..]);
    assert [s][1..] == [];
  }

  /** Clean entries pass through untouched. */
  lemma {:induction false} CleanOfClean(entries: seq<string>)
    requires forall i :: 0 <= i < |entries| ==> CleanEntry(entries[i])
    ensures Clean(entries) == entries
    decreases |entries|
  {
    if entries != [] {
      TrimNoop(entries[0]);
      CleanOfClean(entries[1..]);
    }
  }

  /** Parsing is a normal form: joining the entries with commas and parsing again gives them back. */
  lemma ParseListJoin(s: string)
    requires ParseList(s) != []
    ensures ParseList(Join(ParseList(s), ',')) == ParseList(s)
  {
    var p := ParseList(s);
    ParseListEntries(s);
    SplitJoin(p, ',');
    CleanOfClean(p);
  }

  /** A space after a comma does not change the parsed list. */
  lemma SpaceAfterComma(a: string, b: string)
    ensures ParseList(a + [','] + ([' '] + b)) == ParseList(a + [','] + b)
  {
    ParseListConcat(a, [' '] + b);
    ParseListConcat(a, b);
    var sb := Split(b, ',');
    assert ([' '] + b)[1..] == b;
    assert Split([' '] + b, ',') == [[' '] + sb[0]] + sb[1..];
    TrimLeadingSpace(sb[0]);
    assert sb == [sb[0]] + sb[1..];
  }

  // ----- request, key and filter -----

  /** The query parameters: comma-separated tickers, two RFC 3339 dates, optional comma-separated columns. */
  datatype QuoteQuery = QuoteQuery(tickers: string, start: string, end: string, columns: Option<string>)

  /**
   * The cache key: the parsed tickers, the two instants and, when the
   * request names columns, their text exactly as sent.
   */
  datatype CacheKey = CacheKey(tickers: seq<string>, start: Instant, end: Instant, columns: Option<string>)

  /** The key and the column filter, as the three-way match of fetching.rs derives them. */
  function KeyAndFilter(tickers: seq<string>, start: Instant, end: Instant, columns: Option<string>): (CacheKey, Option<seq<string>>)
  {
    match columns
    case Some(cols) =>
      if cols == [] then (CacheKey(tickers, start, end, None), None)
      else (CacheKey(tickers, start, end, Some(cols)), Some(ParseList(cols)))
    case None => (CacheKey(tickers, start, end, None), None)
  }

  /** An empty column list counts as no column list: same key, no filter. */
  lemma EmptyColumnsAsNone(tickers: seq<string>, start: Instant, end: Instant)
    ensures KeyAndFilter(tickers, start, end, Some("")) == KeyAndFilter(tickers, start, end, None)
    ensures KeyAndFilter(tickers, start, end, None).1 == None
  {
  }

  /**
   * The key holds the raw column text but the filter only its parsed
   * entries: adding a space after a comma gives a new key for the same
   * filter, so the same table is fetched and cached twice.
   */
  lemma ColumnSpacingSplitsKeys(tickers: seq<string>, start: Instant, end: Instant, a: string, b: string)
    ensures var (k1, f1) := KeyAndFilter(tickers, start, end, Some(a + [','] + b));
            var (k2, f2) := KeyAndFilter(tickers, start, end, Some(a + [','] + ([' '] + b)));
            k1 != k2 && f1 == f2
  {
    SpaceAfterComma(a, b);
    assert |a + [','] + b| < |a + [','] + ([' '] + b)|;
  }

  /** Different filters come from different keys: a key never stands for two column selections. */
  lemma KeyDeterminesFilter(tickers: seq<string>, start: Instant, end: Instant, c1: Option<string>, c2: Option<string>)
    requires KeyAndFilter(tickers, start, end, c1).0 == KeyAndFilter(tickers, start, end, c2).0
    ensures KeyAndFilter(tickers, start, end, c1).1 == KeyAndFilter(tickers, start, end, c2).1
  {
  }

  // ----- the cache -----

  /** The table cache: entries keyed by request; a five-minute lifetime and room for ten entries. */
  class DfCache {
    const timeToLiveSeconds: nat
    const maxCapacity: nat
    var entries: map<CacheKey, Frame>

    constructor ()
      ensures entries == map[]
      ensures timeToLiveSeconds == 300 && maxCapacity == 10
    {
      timeToLiveSeconds := 300;
      maxCapacity := 10;
      entries := map[];
    }

    /** The entry under `key`, if there is one. */
    method Get(key: CacheKey) returns (r: Option<Frame>)
      ensures r == if key in entries then Some(entries[key]) else None
    {
      if key in entries {
        r := Some(entries[key]);
      } else {
        r := None;
      }
    }

    /** Stores `df` under `key`, replacing what was there. */
    method Insert(key: CacheKey, df: Frame)
      modifies this
      ensures entries == old(entries)[key := df]
    {
      entries := entries[key := df];
    }
  }

  // ----- the service -----

  /** RFC 3339 parsing: the instant a text denotes, or nothing when it is malformed. */
  type Parser = string -> Option<Instant>

  /** The tables from the quote history can be renamed and combined. */
  lemma HistoryRenamable(history: History, tickers: seq<string>, start: Instant, end: Instant, filter: Option<seq<string>>)
    requires QuotesHistory(history, tickers, start, end, filter).Ok?
    ensures var ts := QuotesHistory(history, tickers, start, end, filter).value;
      |ts| == |tickers| && forall j :: 0 <= j < |ts| ==> Renamable(ts[j])
  {
    var ts := QuotesHistory(history, tickers, start, end, filter).value;
    QuotesHistoryOk(history, tickers, start, end, filter);
    forall j | 0 <= j < |ts| ensures Renamable(ts[j]) {
      var quotes := history(tickers[j], start, end).value.quotes.value;
      NamesHaveNoSpace(quotes, filter);
      CellsFromQuotes(quotes, filter);
    }
  }

  /** What a request yields when the cache has no entry for it: fetch, build, combine. */
  function Compute(tickers: seq<string>, start: Instant, end: Instant, filter: Option<seq<string>>,
                   history: History, connectError: Option<string>): Result<Frame, FetchError>
  {
    if connectError.Some? then Err(Provider(connectError.value))
    else
      match QuotesHistory(history, tickers, start, end, filter)
      case Err(e) => Err(e)
      case Ok(tables) =>
        HistoryRenamable(history, tickers, start, end, filter);
        match Combine(tables, tickers)
        case Err(e) => Err(Polars(e))
        case Ok(df) => Ok(df)
  }

  /** Computes the answer to a miss, and logs the provider requests it makes. */
  method ComputeDataframe(tickers: seq<string>, start: Instant, end: Instant, filter: Option<seq<string>>,
                          provider: YahooConnector, connectError: Option<string>) returns (r: Result<Frame, FetchError>)
    modifies provider
    ensures r == Compute(tickers, start, end, filter, provider.history, connectError)
    ensures provider.requested == old(provider.requested)
      + (if connectError.Some? then [] else Attempted(provider.history, tickers, start, end))
  {
    if connectError.Some? {
      return Err(Provider(connectError.value));
    }
    var quotes := GetQuotesHistory(provider, tickers, start, end, filter);
    if quotes.Err? {
      return Err(quotes.error);
    }
    HistoryRenamable(provider.history, tickers, start, end, filter);
    var df := CombineDfs(quotes.value, tickers);
    if df.Err? {
      return Err(Polars(df.error));
    }
    r := Ok(df.value);
  }

  /** How a miss is answered, from the parsed tickers, the instants and the column filter. */
  type Miss = (seq<string>, Instant, Instant, Option<seq<string>>) -> Result<Frame, FetchError>

  function ComputeWith(history: History, connectError: Option<string>): Miss {
    (tickers, start, end, filter) => Compute(tickers, start, end, filter, history, connectError)
  }

  /** The key of a request, or nothing when a date does not parse. */
  function Key(query: QuoteQuery, parse: Parser): Option<CacheKey> {
    if parse(query.start).None? || parse(query.end).None? then None
    else Some(KeyAndFilter(ParseList(query.tickers), parse(query.start).value, parse(query.end).value, query.columns).0)
  }

  /** What `get_dataframe_service` returns, given the cache entries it starts from. */
  function Service(query: QuoteQuery, entries: map<CacheKey, Frame>, miss: Miss, parse: Parser): Outcome<Result<Frame, FetchError>>
  {
    if parse(query.start).None? || parse(query.end).None? then Panicked
    else
      var tickers := ParseList(query.tickers);
      var start, end := parse(query.start).value, parse(query.end).value;
      var (key, filter) := KeyAndFilter(tickers, start, end, query.columns);
      if key in entries then Returned(Ok(entries[key]))
      else Returned(miss(tickers, start, end, filter))
  }

  /** The cache entries after the call: the new table is added on a successful miss, nothing changes otherwise. */
  function EntriesAfter(query: QuoteQuery, entries: map<CacheKey, Frame>, miss: Miss, parse: Parser): map<CacheKey, Frame>
  {
    var r := Service(query, entries, miss, parse);
    if Key(query, parse).Some? && Key(query, parse).value !in entries && r.Returned? && r.value.Ok?
    then entries[Key(query, parse).value := r.value.value]
    else entries
  }

  /** The tickers asked of the provider: none on a panic, a hit or a connection failure. */
  function Requests(query: QuoteQuery, entries: map<CacheKey, Frame>, history: History,
                    connectError: Option<string>, parse: Parser): seq<string>
  {
    if Key(query, parse).None? || Key(query, parse).value in entries || connectError.Some? then []
    else Attempted(history, ParseList(query.tickers), parse(query.start).value, parse(query.end).value)
  }

  /**
   * `get_dataframe_service`, with the cache and the provider passed in:
   * `connectError` is what creating the provider fails with, if it fails.
   */
  method GetDataframeService(props: QuoteQuery, cache: DfCache, provider: YahooConnector,
                             connectError: Option<string>, parse: Parser)
    returns (r: Outcome<Result<Frame, FetchError>>)
    modifies cache, provider
    ensures r == Service(props, old(cache.entries), ComputeWith(provider.history, connectError), parse)
    ensures cache.entries == EntriesAfter(props, old(cache.entries), ComputeWith(provider.history, connectError), parse)
    ensures provider.requested == old(provider.requested) + Requests(props, old(cache.entries), provider.history, connectError, parse)
  {
    var tickers := ParseList(props.tickers);
    var start := parse(props.start);
    if start.None? {
      return Panicked;
    }
    var end := parse(props.end);
    if end.None? {
      return Panicked;
    }
    var (cacheKey, columnsFilter) := KeyAndFilter(tickers, start.value, end.value, props.columns);
    var cached := cache.Get(cacheKey);
    if cached.Some? {
      return Returned(Ok(cached.value));
    }
    var df := ComputeDataframe(tickers, start.value, end.value, columnsFilter, provider, connectError);
    if df.Err? {
      return Returned(Err(df.error));
    }
    cache.Insert(cacheKey, df.value);
    r := Returned(Ok(df.value));
  }

  // ----- properties of the service -----

  /** The call panics exactly when one of the two dates does not parse, and then changes nothing. */
  lemma PanicsOnBadDate(query: QuoteQuery, entries: map<CacheKey, Frame>, miss: Miss, parse: Parser)
    ensures Service(query, entries, miss, parse) == Panicked <==> parse(query.start).None? || parse(query.end).None?
    ensures Service(query, entries, miss, parse) == Panicked ==> EntriesAfter(query, entries, miss, parse) == entries
  {
  }

  /** A cached request is answered from the cache, which stays as it is. */
  lemma HitServesCache(query: QuoteQuery, entries: map<CacheKey, Frame>, miss: Miss, parse: Parser)
    requires Key(query, parse).Some? && Key(query, parse).value in entries
    ensures Service(query, entries, miss, parse) == Returned(Ok(entries[Key(query, parse).value]))
    ensures EntriesAfter(query, entries, miss, parse) == entries
  {
  }

  /** A cached request asks the provider for nothing. */
  lemma HitRequestsNothing(query: QuoteQuery, entries: map<CacheKey, Frame>, history: History,
                           connectError: Option<string>, parse: Parser)
    requires Key(query, parse).Some? && Key(query, parse).value in entries
    ensures Requests(query, entries, history, connectError, parse) == []
  {
  }

  /** A miss is answered by the computation, and a successful answer is stored under the request's key. */
  lemma MissComputes(query: QuoteQuery, entries: map<CacheKey, Frame>, miss: Miss, parse: Parser)
    requires Key(query, parse).Some? && Key(query, parse).value !in entries
    ensures var tickers := ParseList(query.tickers);
      var start, end := parse(query.start).value, parse(query.end).value;
      var r := miss(tickers, start, end, KeyAndFilter(tickers, start, end, query.columns).1);
      Service(query, entries, miss, parse) == Returned(r)
      && EntriesAfter(query, entries, miss, parse) == if r.Ok? then entries[Key(query, parse).value := r.value] else entries
  {
  }

  /**
   * Asking twice gives the same table: after a successful call the same
   * request is served from the cache, whatever a miss would now compute.
   */
  lemma RepeatIsCached(query: QuoteQuery, entries: map<CacheKey, Frame>, miss: Miss, parse: Parser, miss2: Miss)
    requires Service(query, entries, miss, parse).Returned?
    requires Service(query, entries, miss, parse).value.Ok?
    ensures var after := EntriesAfter(query, entries, miss, parse);
      Service(query, after, miss2, parse) == Service(query, entries, miss, parse)
      && EntriesAfter(query, after, miss2, parse) == after
  {
  }

  /** A failed call leaves the cache as it was. */
  lemma FailureNotCached(query: QuoteQuery, entries: map<CacheKey, Frame>, miss: Miss, parse: Parser)
    requires !(Service(query, entries, miss, parse).Returned? && Service(query, entries, miss, parse).value.Ok?)
    ensures EntriesAfter(query, entries, miss, parse) == entries
  {
  }

  /** Requests whose ticker lists parse alike share a cache entry: spacing and empty entries do not matter. */
  lemma TickerSpellingShared(q1: QuoteQuery, q2: QuoteQuery, parse: Parser)
    requires ParseList(q1.tickers) == ParseList(q2.tickers)
    requires q1.start == q2.start && q1.end == q2.end && q1.columns == q2.columns
    ensures Key(q1, parse) == Key(q2, parse)
  {
  }

  /** The key holds the parsed tickers in their order: a different list, reordered ones included, is a different key. */
  lemma TickerListInKey(q1: QuoteQuery, q2: QuoteQuery, parse: Parser)
    requires Key(q1, parse).Some? && Key(q2, parse).Some?
    requires ParseList(q1.tickers) != ParseList(q2.tickers)
    ensures Key(q1, parse) != Key(q2, parse)
    ensures Key(q1, parse).value.tickers == ParseList(q1.tickers)
  {
  }

  /** Without any ticker a miss asks the provider for nothing and fails with the no-data error. */
  lemma NoTickersNoData(start: Instant, end: Instant, filter: Option<seq<string>>, history: History)
    ensures Compute([], start, end, filter, history, None) == Err(Polars(NoData))
    ensures Attempted(history, [], start, end) == []
  {
    NoTickers(history, start, end, filter);
  }

  /**
   * A freshly computed table is well formed and each of its columns is
   * named after one of the request's tickers.
   */
  lemma ComputedColumns(tickers: seq<string>, start: Instant, end: Instant, filter: Option<seq<string>>,
                        history: History)
    requires Compute(tickers, start, end, filter, history, None).Ok?
    ensures var df := Compute(tickers, start, end, filter, history, None).value;
      WellFormed(df) && forall n :: n in df.names ==> exists i :: 0 <= i < |tickers| && StartsWithTicker(n, tickers[i])
  {
    HistoryRenamable(history, tickers, start, end, filter);
    var tables := QuotesHistory(history, tickers, start, end, filter).value;
    CombineColumns(tables, tickers);
  }
}
