/**
 * `combine_dfs`: the per-ticker tables side by side. Every column of
 * table `i` is renamed `"<ticker_i> <column>"`; table 0 is the anchor and
 * each later table is full-outer-joined onto the accumulated result on
 * `"<ticker_0> date" = "<ticker_i> date"`, strictly left to right.
 */
module Combining {
  import opened Wrappers
  import opened DataFrame

  function Prefixed(ticker: string, name: string): string {
    ticker + " " + name
  }

  function DateKey(ticker: string): string {
    Prefixed(ticker, "date")
  }

  /** Tables as `df_from_quotes` makes them: rectangular, names unique and free of spaces. */
  predicate Renamable(t: Table) {
    Rectangular(t) && Distinct(Names(t)) && forall j :: 0 <= j < |t| ==> ' ' !in t[j].name
  }

  /** Every column renamed with the ticker prefix, values untouched. */
  function Renamed(t: Table, ticker: string): (r: Table)
    ensures |r| == |t|
    ensures forall j :: 0 <= j < |t| ==> r[j].name == Prefixed(ticker, t[j].name) && r[j].values == t[j].values
    ensures Height(r) == Height(t) && (Rectangular(t) ==> Rectangular(r))
  {
    if t == [] then [] else [Column(Prefixed(ticker, t[0].name), t[0].values)] + Renamed(t[1..], ticker)
  }

  /** The inner loop of utils.rs: rename the columns one by one. */
  method RenameColumns(df: Table, ticker: string) returns (renamed: Table)
    requires Renamable(df)
    ensures renamed == Renamed(df, ticker)
  {
    renamed := df;
    for j := 0 to |df|
      invariant |renamed| == |df|
      invariant forall m :: 0 <= m < j ==> renamed[m] == Column(Prefixed(ticker, df[m].name), df[m].values)
      invariant forall m :: j <= m < |df| ==> renamed[m] == df[m]
    {
      renamed := renamed[j := Column(Prefixed(ticker, df[j].name), df[j].values)];
    }
  }

  lemma PrefixedAt(t: string, c: string)
    ensures |Prefixed(t, c)| == |t| + 1 + |c| && Prefixed(t, c)[..|t|] == t && Prefixed(t, c)[|t|] == ' '
    ensures forall idx :: |t| + 1 <= idx < |Prefixed(t, c)| ==> Prefixed(t, c)[idx] == c[idx - |t| - 1]
  {
  }

  /** A space-free column name can be read back off the prefixed name. */
  lemma PrefixInjective(t1: string, c1: string, t2: string, c2: string)
    requires ' ' !in c1 && ' ' !in c2
    requires Prefixed(t1, c1) == Prefixed(t2, c2)
    ensures t1 == t2 && c1 == c2
  {
    PrefixedAt(t1, c1);
    PrefixedAt(t2, c2);
    if |t1| < |t2| {
      assert false;
    } else if |t2| < |t1| {
      assert false;
    } else {
      var s := Prefixed(t1, c1);
      assert c1 == s[|t1| + 1..] == c2;
    }
  }

  /** Renaming keeps the shape and keeps the names unique. */
  lemma RenamedShape(t: Table, ticker: string)
    requires Renamable(t)
    ensures Rectangular(Renamed(t, ticker)) && Height(Renamed(t, ticker)) == Height(t)
    ensures Distinct(Names(Renamed(t, ticker)))
  {
    var r := Renamed(t, ticker);
    forall i, j | 0 <= i < j < |r| ensures Names(r)[i] != Names(r)[j] {
      assert Names(t)[i] != Names(t)[j];
      if Names(r)[i] == Names(r)[j] {
        PrefixInjective(ticker, t[i].name, ticker, t[j].name);
      }
    }
  }

  // ----- one full outer join -----

  /** polars joins on equal non-null keys; a null key matches nothing. */
  predicate Matches(l: Row, r: Row, leftKey: string, rightKey: string) {
    Get(l, leftKey).Some? && Get(l, leftKey) == Get(r, rightKey)
  }

  /** The right rows that match one left row, in right order. */
  function MatchesOf(l: Row, rs: seq<Row>, leftKey: string, rightKey: string): (m: seq<Row>)
    ensures |m| <= |rs|
    ensures forall i :: 0 <= i < |m| ==> m[i] in rs && Matches(l, m[i], leftKey, rightKey)
    ensures m == [] <==> forall i :: 0 <= i < |rs| ==> !Matches(l, rs[i], leftKey, rightKey)
  {
    if rs == [] then []
    else
      var rest := MatchesOf(l, rs[1..], leftKey, rightKey);
      assert forall i :: 0 <= i < |rest| ==> rest[i] in rs by {
        assert forall x :: x in rs[1..] ==> x in rs;
      }
      if Matches(l, rs[0], leftKey, rightKey) then [rs[0]] + rest else rest
  }

  /** Every matching right row is a partner: nothing is dropped when dates repeat. */
  lemma {:induction false} MatchesOfComplete(l: Row, rs: seq<Row>, leftKey: string, rightKey: string, r: Row)
    requires r in rs && Matches(l, r, leftKey, rightKey)
    ensures r in MatchesOf(l, rs, leftKey, rightKey)
    decreases |rs|
  {
    if r != rs[0] {
      assert r in rs[1..];
      MatchesOfComplete(l, rs[1..], leftKey, rightKey, r);
    }
  }

  /** The partners of one right row are that row when it matches, and nothing otherwise. */
  lemma MatchesOfSingle(l: Row, r: Row, leftKey: string, rightKey: string)
    ensures MatchesOf(l, [r], leftKey, rightKey) == if Matches(l, r, leftKey, rightKey) then [r] else []
  {
    assert [r][1..] == [];
  }

  /**
   * The partners of a concatenation are the partners of each part, in
   * order: with `MatchesOfSingle`, the partners are the right rows that
   * match, kept in right-row order, repeated dates included.
   */
  lemma {:induction false} MatchesOfConcat(l: Row, a: seq<Row>, b: seq<Row>, leftKey: string, rightKey: string)
    ensures MatchesOf(l, a + b, leftKey, rightKey) == MatchesOf(l, a, leftKey, rightKey) + MatchesOf(l, b, leftKey, rightKey)
    decreases |a|
  {
    if a == [] {
      assert a + b == b;
    } else {
      assert (a + b)[0] == a[0] && (a + b)[1..] == a[1..] + b;
      MatchesOfConcat(l, a[1..], b, leftKey, rightKey);
    }
  }

  /** Some left row matches `r`. */
  predicate AnyMatch(ls: seq<Row>, r: Row, leftKey: string, rightKey: string)
    decreases |ls|
  {
    ls != [] && (Matches(ls[0], r, leftKey, rightKey) || AnyMatch(ls[1..], r, leftKey, rightKey))
  }

  /** The right rows no left row matches, in right order. */
  function Unmatched(ls: seq<Row>, rs: seq<Row>, leftKey: string, rightKey: string): (u: seq<Row>)
    ensures |u| <= |rs|
    decreases |rs|
  {
    if rs == [] then []
    else
      var rest := Unmatched(ls, rs[1..], leftKey, rightKey);
      if AnyMatch(ls, rs[0], leftKey, rightKey) then rest else [rs[0]] + rest
  }

  /** A row of nulls for the given columns. */
  function NullRow(names: seq<string>): (r: Row)
    ensures r.Keys == NameSet(names)
  {
    map n | n in NameSet(names) :: None
  }

  /** `l` merged with each of `ms`, in order. */
  function Extend(l: Row, ms: seq<Row>): seq<Row>
    decreases |ms|
  {
    if ms == [] then [] else [l + ms[0]] + Extend(l, ms[1..])
  }

  lemma {:induction false} ExtendAt(l: Row, ms: seq<Row>)
    ensures |Extend(l, ms)| == |ms|
    ensures forall i :: 0 <= i < |ms| ==> Extend(l, ms)[i] == l + ms[i]
    decreases |ms|
  {
    if ms != [] {
      ExtendAt(l, ms[1..]);
      forall i | 1 <= i < |ms| ensures Extend(l, ms)[i] == l + ms[i] {
        assert ms[1..][i - 1] == ms[i];
      }
    }
  }

  /** A left row with each of its matches, or with nulls when it has none. */
  function Pairings(l: Row, ms: seq<Row>, nullRight: Row): seq<Row> {
    if ms == [] then [l + nullRight] else Extend(l, ms)
  }

  function LeftPart(ls: seq<Row>, rs: seq<Row>, leftKey: string, rightKey: string, nullRight: Row): seq<Row>
    decreases |ls|
  {
    if ls == [] then []
    else Pairings(ls[0], MatchesOf(ls[0], rs, leftKey, rightKey), nullRight)
         + LeftPart(ls[1..], rs, leftKey, rightKey, nullRight)
  }

  function RightPart(ls: seq<Row>, rs: seq<Row>, leftKey: string, rightKey: string, nullLeft: Row): seq<Row> {
    Extend(nullLeft, Unmatched(ls, rs, leftKey, rightKey))
  }

  /**
   * `left.join(right, [leftKey], [rightKey], JoinArgs::new(JoinType::Full))`:
   * both key columns must exist, the result keeps all left columns then
   * all right columns (including the right key), and its rows are every
   * matching pair, every unmatched left row padded with nulls and every
   * unmatched right row padded with nulls.
   */
  function FullJoin(left: Frame, right: Frame, leftKey: string, rightKey: string): Result<Frame, PolarsError> {
    if leftKey !in left.names then Err(ColumnNotFound(leftKey))
    else if rightKey !in right.names then Err(ColumnNotFound(rightKey))
    else if !Distinct(left.names + right.names) then Err(Duplicate)
    else Ok(Frame(left.names + right.names,
                  LeftPart(left.rows, right.rows, leftKey, rightKey, NullRow(right.names))
                  + RightPart(left.rows, right.rows, leftKey, rightKey, NullRow(left.names))))
  }

  // ----- the fold -----

  /** The renamed tables as frames; `zip` stops at the shorter of the two lists. */
  function RenamedFrames(tables: seq<Table>, tickers: seq<string>): (fs: seq<Frame>)
    requires forall i :: 0 <= i < |tables| ==> Renamable(tables[i])
    ensures |fs| == if |tables| <= |tickers| then |tables| else |tickers|
    ensures forall i :: 0 <= i < |fs| ==> Rectangular(Renamed(tables[i], tickers[i]))
    ensures forall i :: 0 <= i < |fs| ==> fs[i] == ToFrame(Renamed(tables[i], tickers[i]))
  {
    var n := if |tables| <= |tickers| then |tables| else |tickers|;
    assert forall i :: 0 <= i < n ==> Renamable(tables[i]) && Rectangular(tables[i]);
    seq(n, i requires 0 <= i < n => RenamedShape(tables[i], tickers[i]); ToFrame(Renamed(tables[i], tickers[i])))
  }

  /** Joins `frames[i..]` onto `acc`, left to right, stopping at the first error. */
  function JoinFrom(acc: Frame, frames: seq<Frame>, i: nat, tickers: seq<string>): Result<Frame, PolarsError>
    requires |frames| <= |tickers| && tickers != []
    decreases |frames| - i
  {
    if i >= |frames| then Ok(acc)
    else
      match FullJoin(acc, frames[i], DateKey(tickers[0]), DateKey(tickers[i]))
      case Err(e) => Err(e)
      case Ok(next) => JoinFrom(next, frames, i + 1, tickers)
  }

  /** What `combine_dfs(tables, tickers)` returns. */
  function Combine(tables: seq<Table>, tickers: seq<string>): Result<Frame, PolarsError>
    requires forall i :: 0 <= i < |tables| ==> Renamable(tables[i])
    requires tables != [] ==> tickers != []
  {
    if tables == [] then Err(NoData)
    else
      var frames := RenamedFrames(tables, tickers);
      JoinFrom(frames[0], frames, 1, tickers)
  }

  /** The first loop of utils.rs: every table renamed with its ticker, as far as both lists go. */
  method RenameAll(dataframes: seq<Table>, tickers: seq<string>) returns (renamedDfs: seq<Frame>)
    requires forall i :: 0 <= i < |dataframes| ==> Renamable(dataframes[i])
    ensures renamedDfs == RenamedFrames(dataframes, tickers)
  {
    var n := if |dataframes| <= |tickers| then |dataframes| else |tickers|;
    ghost var frames := RenamedFrames(dataframes, tickers);
    renamedDfs := [];
    for i := 0 to n
      invariant renamedDfs == frames[..i]
    {
      var renamedDf := RenameColumns(dataframes[i], tickers[i]);
      assert frames[..i + 1] == frames[..i] + [frames[i]];
      renamedDfs := renamedDfs + [ToFrame(renamedDf)];
    }
    assert renamedDfs == frames;
  }

  /** The two loops of utils.rs: rename every table, then join them onto the first. */
  method CombineDfs(dataframes: seq<Table>, tickers: seq<string>) returns (r: Result<Frame, PolarsError>)
    requires forall i :: 0 <= i < |dataframes| ==> Renamable(dataframes[i])
    requires dataframes != [] ==> tickers != []
    ensures r == Combine(dataframes, tickers)
  {
    if |dataframes| == 0 {
      return Err(NoData);
    }
    var renamedDfs := RenameAll(dataframes, tickers);
    var combinedDf := renamedDfs[0];
    var firstTicker := tickers[0];
    var i := 1;
    while i < |renamedDfs|
      invariant 1 <= i <= |renamedDfs|
      invariant JoinFrom(combinedDf, renamedDfs, i, tickers) == JoinFrom(renamedDfs[0], renamedDfs, 1, tickers)
    {
      var joined := FullJoin(combinedDf, renamedDfs[i], DateKey(firstTicker), DateKey(tickers[i]));
      if joined.Err? {
        return Err(joined.error);
      }
      combinedDf := joined.value;
      i := i + 1;
    }
    r := Ok(combinedDf);
  }

  // ----- properties of one join -----

  /** No two rows share a non-null key: dates are unique on that side. */
  predicate UniqueKeys(rs: seq<Row>, key: string) {
    forall i, j :: 0 <= i < j < |rs| && Get(rs[i], key).Some? ==> Get(rs[i], key) != Get(rs[j], key)
  }

  /** With unique right keys a left row has at most one partner. */
  lemma {:induction false} AtMostOneMatch(l: Row, rs: seq<Row>, leftKey: string, rightKey: string)
    requires UniqueKeys(rs, rightKey)
    ensures |MatchesOf(l, rs, leftKey, rightKey)| <= 1
    decreases |rs|
  {
    if rs != [] {
      var tail := rs[1..];
      assert UniqueKeys(tail, rightKey) by {
        forall i, j | 0 <= i < j < |tail| && Get(tail[i], rightKey).Some?
          ensures Get(tail[i], rightKey) != Get(tail[j], rightKey)
        {
          assert tail[i] == rs[i + 1] && tail[j] == rs[j + 1];
        }
      }
      if Matches(l, rs[0], leftKey, rightKey) {
        forall j | 0 <= j < |tail| ensures !Matches(l, tail[j], leftKey, rightKey) {
          assert tail[j] == rs[j + 1];
        }
      } else {
        AtMostOneMatch(l, tail, leftKey, rightKey);
      }
    }
  }

  /** With unique right keys a left row contributes exactly one row to the left part. */
  lemma LeftPartHead(ls: seq<Row>, rs: seq<Row>, leftKey: string, rightKey: string, nullRight: Row)
    requires UniqueKeys(rs, rightKey) && ls != []
    ensures var ms := MatchesOf(ls[0], rs, leftKey, rightKey);
      LeftPart(ls, rs, leftKey, rightKey, nullRight)
      == [ls[0] + (if ms == [] then nullRight else ms[0])] + LeftPart(ls[1..], rs, leftKey, rightKey, nullRight)
  {
    var ms := MatchesOf(ls[0], rs, leftKey, rightKey);
    AtMostOneMatch(ls[0], rs, leftKey, rightKey);
    ExtendAt(ls[0], ms);
    assert Pairings(ls[0], ms, nullRight) == [ls[0] + (if ms == [] then nullRight else ms[0])];
  }

  lemma {:induction false} LeftPartLength(ls: seq<Row>, rs: seq<Row>, leftKey: string, rightKey: string, nullRight: Row)
    requires UniqueKeys(rs, rightKey)
    ensures |LeftPart(ls, rs, leftKey, rightKey, nullRight)| == |ls|
    decreases |ls|
  {
    if ls != [] {
      LeftPartHead(ls, rs, leftKey, rightKey, nullRight);
      LeftPartLength(ls[1..], rs, leftKey, rightKey, nullRight);
    }
  }

  lemma {:induction false} LeftPartAt(ls: seq<Row>, rs: seq<Row>, leftKey: string, rightKey: string, nullRight: Row, i: nat)
    requires UniqueKeys(rs, rightKey) && i < |ls|
    ensures i < |LeftPart(ls, rs, leftKey, rightKey, nullRight)|
    ensures var ms := MatchesOf(ls[i], rs, leftKey, rightKey);
      LeftPart(ls, rs, leftKey, rightKey, nullRight)[i] == ls[i] + (if ms == [] then nullRight else ms[0])
    decreases i
  {
    LeftPartHead(ls, rs, leftKey, rightKey, nullRight);
    if i > 0 {
      var rest := LeftPart(ls[1..], rs, leftKey, rightKey, nullRight);
      LeftPartAt(ls[1..], rs, leftKey, rightKey, nullRight, i - 1);
      assert ls[1..][i - 1] == ls[i];
      assert LeftPart(ls, rs, leftKey, rightKey, nullRight)[i] == rest[i - 1];
    }
  }

  /** With unique right keys, row `i` of the left part is left row `i` with its partner or nulls. */
  lemma LeftPartUnique(ls: seq<Row>, rs: seq<Row>, leftKey: string, rightKey: string, nullRight: Row)
    requires UniqueKeys(rs, rightKey)
    ensures |LeftPart(ls, rs, leftKey, rightKey, nullRight)| == |ls|
    ensures forall i :: 0 <= i < |ls| ==>
      var ms := MatchesOf(ls[i], rs, leftKey, rightKey);
      LeftPart(ls, rs, leftKey, rightKey, nullRight)[i] == ls[i] + (if ms == [] then nullRight else ms[0])
  {
    LeftPartLength(ls, rs, leftKey, rightKey, nullRight);
    forall i | 0 <= i < |ls|
      ensures var ms := MatchesOf(ls[i], rs, leftKey, rightKey);
        LeftPart(ls, rs, leftKey, rightKey, nullRight)[i] == ls[i] + (if ms == [] then nullRight else ms[0])
    {
      LeftPartAt(ls, rs, leftKey, rightKey, nullRight, i);
    }
  }


  /** A left row list matches `r` exactly when one of its rows does. */
  lemma {:induction false} AnyMatchExists(ls: seq<Row>, r: Row, leftKey: string, rightKey: string)
    ensures AnyMatch(ls, r, leftKey, rightKey) <==> exists i :: 0 <= i < |ls| && Matches(ls[i], r, leftKey, rightKey)
    decreases |ls|
  {
    if ls != [] {
      AnyMatchExists(ls[1..], r, leftKey, rightKey);
      if exists i :: 0 <= i < |ls| && Matches(ls[i], r, leftKey, rightKey) {
        var i :| 0 <= i < |ls| && Matches(ls[i], r, leftKey, rightKey);
        if i > 0 {
          assert ls[1..][i - 1] == ls[i];
        }
      }
      if AnyMatch(ls[1..], r, leftKey, rightKey) {
        var i :| 0 <= i < |ls[1..]| && Matches(ls[1..][i], r, leftKey, rightKey);
        assert ls[i + 1] == ls[1..][i];
      }
    }
  }

  /** The unmatched right rows are the right rows no left row matches. */
  lemma {:induction false} UnmatchedMembers(ls: seq<Row>, rs: seq<Row>, leftKey: string, rightKey: string, r: Row)
    ensures r in Unmatched(ls, rs, leftKey, rightKey) <==> r in rs && !AnyMatch(ls, r, leftKey, rightKey)
    decreases |rs|
  {
    if rs != [] {
      UnmatchedMembers(ls, rs[1..], leftKey, rightKey, r);
      assert rs == [rs[0]] + rs[1..];
    }
  }

  /** Without left rows every right row is unmatched. */
  lemma {:induction false} UnmatchedNoLeft(rs: seq<Row>, leftKey: string, rightKey: string)
    ensures Unmatched([], rs, leftKey, rightKey) == rs
    decreases |rs|
  {
    if rs != [] {
      UnmatchedNoLeft(rs[1..], leftKey, rightKey);
      assert rs == [rs[0]] + rs[1..];
    }
  }

  /** Adding one left row takes away at most its own matches from the unmatched rows. */
  lemma {:induction false} UnmatchedStep(ls: seq<Row>, rs: seq<Row>, leftKey: string, rightKey: string)
    requires ls != []
    ensures |Unmatched(ls[1..], rs, leftKey, rightKey)|
         <= |Unmatched(ls, rs, leftKey, rightKey)| + |MatchesOf(ls[0], rs, leftKey, rightKey)|
    decreases |rs|
  {
    if rs != [] {
      UnmatchedStep(ls, rs[1..], leftKey, rightKey);
    }
  }

  /** With unique right keys, each left row uses up at most one right row. */
  lemma {:induction false} UnmatchedLowerBound(ls: seq<Row>, rs: seq<Row>, leftKey: string, rightKey: string)
    requires UniqueKeys(rs, rightKey)
    ensures |Unmatched(ls, rs, leftKey, rightKey)| + |ls| >= |rs|
    decreases |ls|
  {
    if ls == [] {
      UnmatchedNoLeft(rs, leftKey, rightKey);
    } else {
      UnmatchedLowerBound(ls[1..], rs, leftKey, rightKey);
      UnmatchedStep(ls, rs, leftKey, rightKey);
      AtMostOneMatch(ls[0], rs, leftKey, rightKey);
    }
  }

  /**
   * With unique dates on the right, one join step keeps every left row
   * once, and the row count lies between the larger side and the sum of
   * both.
   */
  lemma JoinRowCount(left: Frame, right: Frame, leftKey: string, rightKey: string)
    requires FullJoin(left, right, leftKey, rightKey).Ok?
    requires UniqueKeys(right.rows, rightKey)
    ensures var n := |FullJoin(left, right, leftKey, rightKey).value.rows|;
      |left.rows| <= n && |right.rows| <= n && n <= |left.rows| + |right.rows|
  {
    LeftPartUnique(left.rows, right.rows, leftKey, rightKey, NullRow(right.names));
    UnmatchedLowerBound(left.rows, right.rows, leftKey, rightKey);
    ExtendAt(NullRow(left.names), Unmatched(left.rows, right.rows, leftKey, rightKey));
  }

  /**
   * With unique dates on the right, the joined rows are: each left row, in
   * order, with its partner's cells or with nulls; then each right row that
   * no left row matches, in order, with nulls for the left columns.
   */
  lemma JoinRows(left: Frame, right: Frame, leftKey: string, rightKey: string)
    requires FullJoin(left, right, leftKey, rightKey).Ok?
    requires UniqueKeys(right.rows, rightKey)
    ensures var out := FullJoin(left, right, leftKey, rightKey).value;
      var u := Unmatched(left.rows, right.rows, leftKey, rightKey);
      && out.names == left.names + right.names
      && |out.rows| == |left.rows| + |u|
      && (forall i :: 0 <= i < |left.rows| ==>
            var ms := MatchesOf(left.rows[i], right.rows, leftKey, rightKey);
            out.rows[i] == left.rows[i] + (if ms == [] then NullRow(right.names) else ms[0]))
      && (forall j :: 0 <= j < |u| ==> out.rows[|left.rows| + j] == NullRow(left.names) + u[j])
      && (forall r :: r in u <==> r in right.rows && forall i :: 0 <= i < |left.rows| ==> !Matches(left.rows[i], r, leftKey, rightKey))
  {
    LeftPartUnique(left.rows, right.rows, leftKey, rightKey, NullRow(right.names));
    ExtendAt(NullRow(left.names), Unmatched(left.rows, right.rows, leftKey, rightKey));
    forall r ensures r in Unmatched(left.rows, right.rows, leftKey, rightKey)
      <==> r in right.rows && forall i :: 0 <= i < |left.rows| ==> !Matches(left.rows[i], r, leftKey, rightKey)
    {
      UnmatchedMembers(left.rows, right.rows, leftKey, rightKey, r);
      AnyMatchExists(left.rows, r, leftKey, rightKey);
    }
  }

  predicate AllKeys(rows: seq<Row>, keys: set<string>) {
    forall i :: 0 <= i < |rows| ==> rows[i].Keys == keys
  }

  lemma AllKeysConcat(a: seq<Row>, b: seq<Row>, keys: set<string>)
    requires AllKeys(a, keys) && AllKeys(b, keys)
    ensures AllKeys(a + b, keys)
  {
    forall i | 0 <= i < |a + b| ensures (a + b)[i].Keys == keys {
      if i >= |a| {
        assert (a + b)[i] == b[i - |a|];
      }
    }
  }

  /** `l` merged with rows over `kr` gives rows over both key sets. */
  lemma PairingsKeys(l: Row, ms: seq<Row>, nullRight: Row, kl: set<string>, kr: set<string>)
    requires l.Keys == kl && AllKeys(ms, kr) && nullRight.Keys == kr
    ensures AllKeys(Pairings(l, ms, nullRight), kl + kr)
    ensures AllKeys(Extend(l, ms), kl + kr)
  {
    ExtendAt(l, ms);
  }

  /** The partners of a row are right rows, so they carry the right keys. */
  lemma MatchesKeys(l: Row, rs: seq<Row>, leftKey: string, rightKey: string, kr: set<string>)
    requires AllKeys(rs, kr)
    ensures AllKeys(MatchesOf(l, rs, leftKey, rightKey), kr)
  {
    var ms := MatchesOf(l, rs, leftKey, rightKey);
    forall i | 0 <= i < |ms| ensures ms[i].Keys == kr {
      var k :| 0 <= k < |rs| && rs[k] == ms[i];
    }
  }

  lemma {:induction false} LeftPartKeys(ls: seq<Row>, rs: seq<Row>, leftKey: string, rightKey: string, nullRight: Row,
                                        kl: set<string>, kr: set<string>)
    requires AllKeys(ls, kl) && AllKeys(rs, kr) && nullRight.Keys == kr
    ensures AllKeys(LeftPart(ls, rs, leftKey, rightKey, nullRight), kl + kr)
    decreases |ls|
  {
    if ls != [] {
      assert AllKeys(ls[1..], kl) by {
        forall i | 0 <= i < |ls[1..]| ensures ls[1..][i].Keys == kl {
          assert ls[1..][i] == ls[i + 1];
        }
      }
      LeftPartKeys(ls[1..], rs, leftKey, rightKey, nullRight, kl, kr);
      var ms := MatchesOf(ls[0], rs, leftKey, rightKey);
      MatchesKeys(ls[0], rs, leftKey, rightKey, kr);
      PairingsKeys(ls[0], ms, nullRight, kl, kr);
      AllKeysConcat(Pairings(ls[0], ms, nullRight), LeftPart(ls[1..], rs, leftKey, rightKey, nullRight), kl + kr);
    }
  }

  lemma NameSetConcat(a: seq<string>, b: seq<string>)
    ensures NameSet(a + b) == NameSet(a) + NameSet(b)
  {
  }

  /** A join of well-formed frames is well formed: left columns, then right columns, every row holding all of them. */
  lemma JoinWellFormed(left: Frame, right: Frame, leftKey: string, rightKey: string)
    requires WellFormed(left) && WellFormed(right)
    requires FullJoin(left, right, leftKey, rightKey).Ok?
    ensures FullJoin(left, right, leftKey, rightKey).value.names == left.names + right.names
    ensures WellFormed(FullJoin(left, right, leftKey, rightKey).value)
  {
    var kl := NameSet(left.names);
    var kr := NameSet(right.names);
    NameSetConcat(left.names, right.names);
    LeftPartKeys(left.rows, right.rows, leftKey, rightKey, NullRow(right.names), kl, kr);
    var u := Unmatched(left.rows, right.rows, leftKey, rightKey);
    assert AllKeys(u, kr) by {
      forall j | 0 <= j < |u| ensures u[j].Keys == kr {
        UnmatchedMembers(left.rows, right.rows, leftKey, rightKey, u[j]);
      }
    }
    PairingsKeys(NullRow(left.names), u, NullRow(right.names), kl, kr);
    AllKeysConcat(LeftPart(left.rows, right.rows, leftKey, rightKey, NullRow(right.names)),
                  RightPart(left.rows, right.rows, leftKey, rightKey, NullRow(left.names)), kl + kr);
  }

  // ----- properties of the fold -----

  /** The column names of `frames[i..]`, one frame after another. */
  function NamesFrom(frames: seq<Frame>, i: nat): seq<string>
    decreases |frames| - i
  {
    if i >= |frames| then [] else frames[i].names + NamesFrom(frames, i + 1)
  }

  predicate StartsWithTicker(name: string, ticker: string) {
    |ticker| + 1 <= |name| && name[..|ticker| + 1] == ticker + " "
  }

  /** No tables: `NoData`. */
  lemma CombineNoData(tickers: seq<string>)
    ensures Combine([], tickers) == Err(NoData)
  {
  }

  /** One table: that table with every column renamed, nothing joined. */
  lemma CombineSingle(t: Table, tickers: seq<string>)
    requires Renamable(t) && tickers != []
    ensures Combine([t], tickers) == Ok(ToFrame(Renamed(t, tickers[0])))
  {
  }

  lemma RenamedFramesWellFormed(tables: seq<Table>, tickers: seq<string>)
    requires forall i :: 0 <= i < |tables| ==> Renamable(tables[i])
    ensures AllWellFormed(RenamedFrames(tables, tickers))
  {
    var frames := RenamedFrames(tables, tickers);
    forall j | 0 <= j < |frames| ensures WellFormed(frames[j]) {
      RenamedShape(tables[j], tickers[j]);
    }
  }

  /** One step of the fold, unfolded. */
  lemma JoinFromStep(acc: Frame, frames: seq<Frame>, i: nat, tickers: seq<string>)
    requires |frames| <= |tickers| && tickers != [] && i < |frames|
    ensures var r := FullJoin(acc, frames[i], DateKey(tickers[0]), DateKey(tickers[i]));
      JoinFrom(acc, frames, i, tickers) == if r.Err? then Err(r.error) else JoinFrom(r.value, frames, i + 1, tickers)
  {
  }

  lemma NamesFromStep(a: seq<string>, frames: seq<Frame>, i: nat)
    requires i < |frames|
    ensures a + NamesFrom(frames, i) == (a + frames[i].names) + NamesFrom(frames, i + 1)
  {
    var b, c := frames[i].names, NamesFrom(frames, i + 1);
    assert NamesFrom(frames, i) == b + c;
    assert (a + b) + c == a + (b + c);
  }

  /** A successful fold has the accumulated columns followed by those of `frames[i..]`. */
  lemma {:induction false} JoinFromNames(acc: Frame, frames: seq<Frame>, i: nat, tickers: seq<string>)
    requires |frames| <= |tickers| && tickers != []
    requires JoinFrom(acc, frames, i, tickers).Ok?
    ensures JoinFrom(acc, frames, i, tickers).value.names == acc.names + NamesFrom(frames, i)
    decreases |frames| - i
  {
    if i < |frames| {
      JoinFromStep(acc, frames, i, tickers);
      var next := FullJoin(acc, frames[i], DateKey(tickers[0]), DateKey(tickers[i])).value;
      JoinFromNames(next, frames, i + 1, tickers);
      NamesFromStep(acc.names, frames, i);
    }
  }

  predicate AllWellFormed(frames: seq<Frame>) {
    forall j :: 0 <= j < |frames| ==> WellFormed(frames[j])
  }

  /** A successful fold of well-formed frames is well formed. */
  lemma {:induction false} JoinFromWellFormed(acc: Frame, frames: seq<Frame>, i: nat, tickers: seq<string>)
    requires |frames| <= |tickers| && tickers != []
    requires WellFormed(acc) && AllWellFormed(frames)
    requires JoinFrom(acc, frames, i, tickers).Ok?
    ensures WellFormed(JoinFrom(acc, frames, i, tickers).value)
    decreases |frames| - i
  {
    if i < |frames| {
      JoinFromStep(acc, frames, i, tickers);
      var next := FullJoin(acc, frames[i], DateKey(tickers[0]), DateKey(tickers[i])).value;
      JoinWellFormed(acc, frames[i], DateKey(tickers[0]), DateKey(tickers[i]));
      JoinFromWellFormed(next, frames, i + 1, tickers);
    }
  }

  /** The rows of `frames[i..]`, added up. */
  function RowsFrom(frames: seq<Frame>, i: nat): nat
    decreases |frames| - i
  {
    if i >= |frames| then 0 else |frames[i].rows| + RowsFrom(frames, i + 1)
  }

  /** Each frame from `i` on has no repeated date under its own `"<ticker> date"` column. */
  predicate UniqueDatesFrom(frames: seq<Frame>, i: nat, tickers: seq<string>)
    requires |frames| <= |tickers|
    decreases |frames| - i
  {
    i >= |frames| || (UniqueKeys(frames[i].rows, DateKey(tickers[i])) && UniqueDatesFrom(frames, i + 1, tickers))
  }

  /**
   * `out` has at least the rows of `acc` and of each of `frames[i..]`, and
   * at most all of their rows together.
   */
  predicate RowBounds(acc: Frame, out: Frame, frames: seq<Frame>, i: nat) {
    && |acc.rows| <= |out.rows| <= |acc.rows| + RowsFrom(frames, i)
    && forall k :: i <= k < |frames| ==> |frames[k].rows| <= |out.rows|
  }

  /** The bounds after one join, from the bounds of the rest of the fold. */
  lemma RowBoundsStep(acc: Frame, next: Frame, out: Frame, frames: seq<Frame>, i: nat)
    requires i < |frames|
    requires |acc.rows| <= |next.rows| && |frames[i].rows| <= |next.rows|
    requires |next.rows| <= |acc.rows| + |frames[i].rows|
    requires RowBounds(next, out, frames, i + 1)
    ensures RowBounds(acc, out, frames, i)
  {
    assert RowsFrom(frames, i) == |frames[i].rows| + RowsFrom(frames, i + 1);
  }

  /**
   * With unique dates in every joined frame, a successful fold has at
   * least as many rows as the accumulated frame and as each frame it
   * joins, and at most all of their rows together.
   */
  lemma {:induction false} JoinFromRowCount(acc: Frame, frames: seq<Frame>, i: nat, tickers: seq<string>)
    requires |frames| <= |tickers| && tickers != []
    requires UniqueDatesFrom(frames, i, tickers)
    requires JoinFrom(acc, frames, i, tickers).Ok?
    ensures RowBounds(acc, JoinFrom(acc, frames, i, tickers).value, frames, i)
    decreases |frames| - i
  {
    if i < |frames| {
      JoinFromStep(acc, frames, i, tickers);
      var next := FullJoin(acc, frames[i], DateKey(tickers[0]), DateKey(tickers[i])).value;
      JoinRowCount(acc, frames[i], DateKey(tickers[0]), DateKey(tickers[i]));
      JoinFromRowCount(next, frames, i + 1, tickers);
      RowBoundsStep(acc, next, JoinFrom(next, frames, i + 1, tickers).value, frames, i);
    }
  }

  /**
   * `combine_dfs` with unique dates in every table after the first: the
   * result has at least as many rows as any renamed table and at most all
   * of their rows together.
   */
  lemma CombineRowCount(tables: seq<Table>, tickers: seq<string>)
    requires forall i :: 0 <= i < |tables| ==> Renamable(tables[i])
    requires tables != [] ==> tickers != []
    requires Combine(tables, tickers).Ok?
    requires UniqueDatesFrom(RenamedFrames(tables, tickers), 1, tickers)
    ensures var frames := RenamedFrames(tables, tickers);
      var n := |Combine(tables, tickers).value.rows|;
      (forall k :: 0 <= k < |frames| ==> |frames[k].rows| <= n) && n <= RowsFrom(frames, 0)
  {
    var frames := RenamedFrames(tables, tickers);
    JoinFromRowCount(frames[0], frames, 1, tickers);
    RowBoundsFromFirst(frames, Combine(tables, tickers).value);
  }

  /** The bounds of a fold that starts from the first frame, over all the frames. */
  lemma RowBoundsFromFirst(frames: seq<Frame>, out: Frame)
    requires frames != [] && RowBounds(frames[0], out, frames, 1)
    ensures (forall k :: 0 <= k < |frames| ==> |frames[k].rows| <= |out.rows|) && |out.rows| <= RowsFrom(frames, 0)
  {
    assert RowsFrom(frames, 0) == |frames[0].rows| + RowsFrom(frames, 1);
  }

  lemma {:induction false} NamesFromMember(frames: seq<Frame>, i: nat, n: string)
    requires n in NamesFrom(frames, i)
    ensures exists j :: i <= j < |frames| && n in frames[j].names
    decreases |frames| - i
  {
    if n !in frames[i].names {
      NamesFromMember(frames, i + 1, n);
    }
  }

  /** A name of a renamed table carries its ticker prefix. */
  lemma RenamedMember(t: Table, ticker: string, n: string)
    requires n in Names(Renamed(t, ticker))
    ensures exists j :: 0 <= j < |t| && n == Prefixed(ticker, t[j].name)
    ensures StartsWithTicker(n, ticker)
  {
    var j :| 0 <= j < |t| && Names(Renamed(t, ticker))[j] == n;
    assert n == Prefixed(ticker, t[j].name);
    assert n[..|ticker| + 1] == ticker + " ";
  }

  /**
   * A combined table is well formed; its columns are those of the renamed
   * tables, table after table, and every column name starts with
   * `"<ticker> "` for one of the tickers.
   */
  lemma CombineColumns(tables: seq<Table>, tickers: seq<string>)
    requires forall i :: 0 <= i < |tables| ==> Renamable(tables[i])
    requires tables != [] ==> tickers != []
    requires Combine(tables, tickers).Ok?
    ensures WellFormed(Combine(tables, tickers).value)
    ensures Combine(tables, tickers).value.names == NamesFrom(RenamedFrames(tables, tickers), 0)
    ensures forall n :: n in Combine(tables, tickers).value.names ==>
      exists i :: 0 <= i < |tickers| && StartsWithTicker(n, tickers[i])
  {
    var frames := RenamedFrames(tables, tickers);
    RenamedFramesWellFormed(tables, tickers);
    JoinFromNames(frames[0], frames, 1, tickers);
    JoinFromWellFormed(frames[0], frames, 1, tickers);
    assert frames[0].names + NamesFrom(frames, 1) == NamesFrom(frames, 0);
    forall n | n in Combine(tables, tickers).value.names
      ensures exists i :: 0 <= i < |tickers| && StartsWithTicker(n, tickers[i])
    {
      NamesFromMember(frames, 0, n);
      var j :| 0 <= j < |frames| && n in frames[j].names;
      RenamedMember(tables[j], tickers[j], n);
    }
  }

  lemma DateNoSpace()
    ensures ' ' !in "date"
  {
    assert "date" == ['d', 'a', 't', 'e'];
  }

  /** The renamed table has the ticker's date column exactly when the table has a date column. */
  lemma RenamedHasDate(t: Table, ticker: string)
    requires Renamable(t)
    ensures DateKey(ticker) in Names(Renamed(t, ticker)) <==> "date" in Names(t)
  {
    DateNoSpace();
    if DateKey(ticker) in Names(Renamed(t, ticker)) {
      var j :| 0 <= j < |t| && Names(Renamed(t, ticker))[j] == DateKey(ticker);
      PrefixInjective(ticker, t[j].name, ticker, "date");
      assert Names(t)[j] == "date";
    }
    if "date" in Names(t) {
      var j :| 0 <= j < |t| && Names(t)[j] == "date";
      assert Names(Renamed(t, ticker))[j] == DateKey(ticker);
    }
  }

  /** Two or more tables need a date column in the first: its absence fails the first join. */
  lemma CombineNeedsAnchorDate(tables: seq<Table>, tickers: seq<string>)
    requires forall i :: 0 <= i < |tables| ==> Renamable(tables[i])
    requires |tables| >= 2 && |tickers| >= 2
    requires "date" !in Names(tables[0])
    ensures Combine(tables, tickers) == Err(ColumnNotFound(DateKey(tickers[0])))
  {
    RenamedHasDate(tables[0], tickers[0]);
  }

  lemma DistinctConcat(a: seq<string>, b: seq<string>)
    requires Distinct(a) && Distinct(b)
    requires forall n :: n in a ==> n !in b
    ensures Distinct(a + b)
  {
    forall i, j | 0 <= i < j < |a + b| ensures (a + b)[i] != (a + b)[j] {
      if i < |a| && j >= |a| {
        assert (a + b)[i] in a && (a + b)[j] in b;
      }
    }
  }

  /** The column names of `frames[..i]`, one frame after another. */
  function NamesUpTo(frames: seq<Frame>, i: nat): seq<string>
    requires i <= |frames|
  {
    if i == 0 then [] else NamesUpTo(frames, i - 1) + frames[i - 1].names
  }

  lemma {:induction false} NamesUpToMember(frames: seq<Frame>, i: nat, n: string)
    requires i <= |frames| && n in NamesUpTo(frames, i)
    ensures exists a :: 0 <= a < i && n in frames[a].names
  {
    if n !in frames[i - 1].names {
      NamesUpToMember(frames, i - 1, n);
    }
  }

  /** What the accumulated frame looks like before step `i` of the fold. */
  predicate Accumulated(acc: Frame, frames: seq<Frame>, tickers: seq<string>, i: nat)
    requires i <= |frames|
  {
    Distinct(acc.names) && tickers != [] && DateKey(tickers[0]) in acc.names && acc.names == NamesUpTo(frames, i)
  }

  /** The first three checks of a full join pass exactly when both keys exist and no name clashes. */
  lemma FullJoinOk(left: Frame, right: Frame, leftKey: string, rightKey: string)
    ensures FullJoin(left, right, leftKey, rightKey).Ok? <==>
      leftKey in left.names && rightKey in right.names && Distinct(left.names + right.names)
  {
  }

  /** With distinct tickers, no column of an earlier renamed table is a column of table `i`. */
  lemma EarlierNamesDisjoint(tables: seq<Table>, tickers: seq<string>, frames: seq<Frame>, i: nat)
    requires forall a :: 0 <= a < |tables| ==> Renamable(tables[a])
    requires |frames| <= |tables| <= |tickers| && Distinct(tickers[..|tables|])
    requires forall a :: 0 <= a < |frames| ==> frames[a].names == Names(Renamed(tables[a], tickers[a]))
    requires i < |frames|
    ensures forall n :: n in NamesUpTo(frames, i) ==> n !in frames[i].names
  {
    forall n | n in NamesUpTo(frames, i) ensures n !in frames[i].names {
      EarlierNameNotIn(tables, tickers, frames, i, n);
    }
  }

  lemma EarlierNameNotIn(tables: seq<Table>, tickers: seq<string>, frames: seq<Frame>, i: nat, n: string)
    requires forall a :: 0 <= a < |tables| ==> Renamable(tables[a])
    requires |frames| <= |tables| <= |tickers| && Distinct(tickers[..|tables|])
    requires forall a :: 0 <= a < |frames| ==> frames[a].names == Names(Renamed(tables[a], tickers[a]))
    requires i < |frames| && n in NamesUpTo(frames, i)
    ensures n !in frames[i].names
  {
    NamesUpToMember(frames, i, n);
    var a :| 0 <= a < i && n in frames[a].names;
    assert tickers[..|tables|][a] == tickers[a] && tickers[..|tables|][i] == tickers[i];
    RenamedDisjoint(tables[a], tickers[a], tables[i], tickers[i], n);
  }

  /** Tables renamed with two different tickers share no column name. */
  lemma RenamedDisjoint(ta: Table, ka: string, tb: Table, kb: string, n: string)
    requires Renamable(ta) && Renamable(tb) && ka != kb
    requires n in Names(Renamed(ta, ka))
    ensures n !in Names(Renamed(tb, kb))
  {
    RenamedMember(ta, ka, n);
    if n in Names(Renamed(tb, kb)) {
      RenamedMember(tb, kb, n);
      var ja :| 0 <= ja < |ta| && n == Prefixed(ka, ta[ja].name);
      var jb :| 0 <= jb < |tb| && n == Prefixed(kb, tb[jb].name);
      PrefixInjective(ka, ta[ja].name, kb, tb[jb].name);
    }
  }

  /** Frame `k` can be joined onto frames `..k`: it is well formed, has its date key and shares no name with them. */
  predicate StepReady(frames: seq<Frame>, tickers: seq<string>, k: nat)
    requires k < |frames| && k < |tickers|
  {
    && Distinct(frames[k].names)
    && DateKey(tickers[k]) in frames[k].names
    && forall n :: n in NamesUpTo(frames, k) ==> n !in frames[k].names
  }

  /** Step `i` of the fold succeeds and keeps the accumulated frame's shape. */
  lemma JoinStepOk(acc: Frame, frames: seq<Frame>, tickers: seq<string>, i: nat)
    requires 1 <= i < |frames| <= |tickers|
    requires Accumulated(acc, frames, tickers, i) && StepReady(frames, tickers, i)
    ensures var r := FullJoin(acc, frames[i], DateKey(tickers[0]), DateKey(tickers[i]));
      && r.Ok? && Accumulated(r.value, frames, tickers, i + 1)
      && JoinFrom(acc, frames, i, tickers) == JoinFrom(r.value, frames, i + 1, tickers)
  {
    JoinFromStep(acc, frames, i, tickers);
    DistinctConcat(acc.names, frames[i].names);
    FullJoinOk(acc, frames[i], DateKey(tickers[0]), DateKey(tickers[i]));
  }

  lemma {:induction false} JoinFromOk(acc: Frame, frames: seq<Frame>, tickers: seq<string>, i: nat)
    requires 1 <= i <= |frames| <= |tickers|
    requires Accumulated(acc, frames, tickers, i)
    requires forall k :: i <= k < |frames| ==> StepReady(frames, tickers, k)
    ensures JoinFrom(acc, frames, i, tickers).Ok?
    decreases |frames| - i
  {
    if i < |frames| {
      JoinStepOk(acc, frames, tickers, i);
      var next := FullJoin(acc, frames[i], DateKey(tickers[0]), DateKey(tickers[i])).value;
      JoinFromOk(next, frames, tickers, i + 1);
    }
  }

  /** Renamed tables with distinct tickers and date columns are each ready to be joined. */
  lemma FramesReady(tables: seq<Table>, tickers: seq<string>, frames: seq<Frame>)
    requires forall a :: 0 <= a < |tables| ==> Renamable(tables[a])
    requires frames == RenamedFrames(tables, tickers)
    requires |tables| <= |tickers| && Distinct(tickers[..|tables|])
    requires forall a :: 0 <= a < |tables| ==> "date" in Names(tables[a])
    ensures forall k :: 0 <= k < |frames| ==> StepReady(frames, tickers, k)
  {
    assert forall a :: 0 <= a < |frames| ==> frames[a].names == Names(Renamed(tables[a], tickers[a]));
    forall k | 0 <= k < |frames| ensures StepReady(frames, tickers, k) {
      RenamedShape(tables[k], tickers[k]);
      RenamedHasDate(tables[k], tickers[k]);
      EarlierNamesDisjoint(tables, tickers, frames, k);
    }
  }

  /**
   * With distinct tickers and a date column in every table, combining does
   * not fail: no join meets a clashing name or a missing key.
   */
  lemma CombineSucceeds(tables: seq<Table>, tickers: seq<string>)
    requires forall a :: 0 <= a < |tables| ==> Renamable(tables[a])
    requires tables != [] && |tables| <= |tickers|
    requires Distinct(tickers[..|tables|])
    requires forall a :: 0 <= a < |tables| ==> "date" in Names(tables[a])
    ensures Combine(tables, tickers).Ok?
  {
    var frames := RenamedFrames(tables, tickers);
    FramesReady(tables, tickers, frames);
    assert StepReady(frames, tickers, 0);
    assert NamesUpTo(frames, 1) == frames[0].names;
    assert Accumulated(frames[0], frames, tickers, 1);
    JoinFromOk(frames[0], frames, tickers, 1);
  }
}
