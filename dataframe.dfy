/**
 * The slice of polars' `DataFrame` that the backend relies on, seen two
 * ways: column by column as `df_from_quotes` builds it (a `Table`), and
 * row by row, each row a map from column name to an optional cell, as a
 * join treats it (a `Frame`). `ToFrame` turns the first view into the
 * second.
 */
module DataFrame {
  import opened Wrappers

  /** An IEEE-754 binary64 value kept as its raw bit pattern; the model never computes with it. */
  datatype F64 = F64(bits: bv64)

  /** Not-a-number: all exponent bits set and a non-zero fraction. */
  predicate IsNaN(x: F64) {
    x.bits & 0x7FF0_0000_0000_0000 == 0x7FF0_0000_0000_0000 && x.bits & 0x000F_FFFF_FFFF_FFFF != 0
  }

  /** A cell value: a millisecond `Datetime`, an `f64` or a `u64`. */
  datatype Value = DateMs(ms: int) | Float(f: F64) | UInt(n: nat)

  /** A cell that may be null, as after an outer join. */
  type Cell = Option<Value>

  /** polars' `AnyValue::is_nan`: only a float NaN; dates, integers and nulls are not. */
  predicate CellIsNaN(c: Cell) {
    c.Some? && c.value.Float? && IsNaN(c.value.f)
  }

  datatype PolarsError = NoData | Duplicate | ShapeMismatch | ColumnNotFound(name: string)

  predicate Distinct<T(==)>(s: seq<T>) {
    forall i, j :: 0 <= i < j < |s| ==> s[i] != s[j]
  }

  // ----- the columnar view -----

  datatype Column = Column(name: string, values: seq<Value>)

  type Table = seq<Column>

  function Names(t: Table): (r: seq<string>)
    ensures |r| == |t| && forall j :: 0 <= j < |t| ==> r[j] == t[j].name
  {
    seq(|t|, j requires 0 <= j < |t| => t[j].name)
  }

  /** Row count: that of the first column, and 0 for a table without columns. */
  function Height(t: Table): nat {
    if t == [] then 0 else |t[0].values|
  }

  /** Every column has one entry per row. */
  predicate Rectangular(t: Table) {
    forall j :: 0 <= j < |t| ==> |t[j].values| == Height(t)
  }

  /** `DataFrame::new(columns)`: refuses repeated names and columns of unequal length. */
  function NewDataFrame(columns: seq<Column>): Result<Table, PolarsError> {
    if !Distinct(Names(columns)) then Err(Duplicate)
    else if !Rectangular(columns) then Err(ShapeMismatch)
    else Ok(columns)
  }

  // ----- the row view -----

  type Row = map<string, Cell>

  datatype Frame = Frame(names: seq<string>, rows: seq<Row>)

  function NameSet(names: seq<string>): set<string> {
    set n | n in names
  }

  /** Names unique, and every row holds exactly the frame's columns. */
  predicate WellFormed(f: Frame) {
    Distinct(f.names) && forall i :: 0 <= i < |f.rows| ==> f.rows[i].Keys == NameSet(f.names)
  }

  /** The cell of a row under a name; a missing name reads as null. */
  function Get(r: Row, name: string): Cell {
    if name in r then r[name] else None
  }

  /** Dropping the first column of a rectangular table with two or more columns keeps it rectangular. */
  lemma TailShape(t: Table)
    requires Rectangular(t) && |t| >= 2
    ensures Height(t[1..]) == Height(t) && Rectangular(t[1..])
    ensures Names(t) == [t[0].name] + Names(t[1..])
  {
    var tail := t[1..];
    assert tail[0] == t[1];
    forall j | 0 <= j < |tail| ensures |tail[j].values| == Height(tail) {
      assert tail[j] == t[j + 1];
    }
    TailNames(t);
  }

  /** The tail of a sequence without repeats has none either, and does not repeat the head. */
  lemma DistinctDrop<T>(s: seq<T>)
    requires |s| >= 1 && Distinct(s)
    ensures Distinct(s[1..]) && s[0] !in s[1..]
  {
    var d := s[1..];
    forall a, b | 0 <= a < b < |d| ensures d[a] != d[b] {
      assert d[a] == s[a + 1] && d[b] == s[b + 1];
    }
    forall a | 0 <= a < |d| ensures d[a] != s[0] {
      assert d[a] == s[a + 1];
    }
  }

  lemma TailNames(t: Table)
    requires |t| >= 1
    ensures Names(t[1..]) == Names(t)[1..]
    ensures Names(t) == [t[0].name] + Names(t[1..])
  {
    var tail := t[1..];
    assert forall j :: 0 <= j < |tail| ==> tail[j] == t[j + 1];
  }

  /** Distinct names stay distinct without the first column, which none of the others repeats. */
  lemma TailDistinct(t: Table)
    requires |t| >= 1 && Distinct(Names(t))
    ensures Distinct(Names(t[1..])) && forall j :: 1 <= j < |t| ==> t[j].name != t[0].name
  {
    TailNames(t);
    DistinctDrop(Names(t));
    forall j | 1 <= j < |t| ensures t[j].name != t[0].name {
      assert Names(t)[j] == t[j].name;
    }
  }

  /** Row `i` of a table: every column's name mapped to its `i`-th value. */
  function RowAt(t: Table, i: nat): (r: Row)
    requires Rectangular(t) && i < Height(t)
    ensures r.Keys == NameSet(Names(t))
  {
    if |t| == 1 then map[t[0].name := Some(t[0].values[i])]
    else
      TailShape(t);
      var rest := RowAt(t[1..], i);
      assert NameSet(Names(t)) == {t[0].name} + NameSet(Names(t[1..]));
      rest[t[0].name := Some(t[0].values[i])]
  }

  /** With distinct names, row `i` holds each column's `i`-th value under that column's name. */
  lemma {:induction false} RowAtCells(t: Table, i: nat)
    requires Rectangular(t) && i < Height(t) && Distinct(Names(t))
    ensures forall j :: 0 <= j < |t| ==> RowAt(t, i)[t[j].name] == Some(t[j].values[i])
    decreases |t|
  {
    if |t| > 1 {
      TailShape(t);
      TailDistinct(t);
      RowAtCells(t[1..], i);
      forall j | 1 <= j < |t| ensures RowAt(t, i)[t[j].name] == Some(t[j].values[i]) {
        assert t[1..][j - 1] == t[j];
      }
    }
  }

  /** The row view of a table. */
  function ToFrame(t: Table): (f: Frame)
    requires Rectangular(t)
    ensures f.names == Names(t) && |f.rows| == Height(t)
    ensures Distinct(Names(t)) ==> WellFormed(f)
  {
    Frame(Names(t), seq(Height(t), i requires 0 <= i < Height(t) => RowAt(t, i)))
  }

  /** The row view holds the table's values: row `i`, under column `j`'s name, is that column's `i`-th value. */
  lemma ToFrameCells(t: Table)
    requires Rectangular(t) && Distinct(Names(t))
    ensures forall i, j :: 0 <= i < Height(t) && 0 <= j < |t| ==> ToFrame(t).rows[i][t[j].name] == Some(t[j].values[i])
  {
    forall i | 0 <= i < Height(t) {
      RowAtCells(t, i);
    }
  }
}
