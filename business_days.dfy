/**
 * `generate_business_days`: walk from the start instant to the end
 * instant one day at a time and keep the Monday-to-Friday days, each as a
 * millisecond timestamp.
 */
module BusinessDays {
  import opened Wrappers
  import opened Time

  const SERIES_NAME := "Business days"
  const MILLIS_PER_DAY := 86_400_000

  /** A polars `Series` of `i64` values together with its name. */
  datatype Series = Series(name: string, values: seq<int>)

  predicate IsBusinessDay(t: Instant) {
    WeekdayOf(t) != Saturday && WeekdayOf(t) != Sunday
  }

  /** What the loop emits from day `cur` on, until it passes `end`. */
  function Emitted(cur: Instant, end: Instant): seq<int>
    decreases end.unixSeconds - cur.unixSeconds + SECONDS_PER_DAY
  {
    if !Le(cur, end) then []
    else (if IsBusinessDay(cur) then [UnixMillis(cur)] else []) + Emitted(AddDays(cur, 1), end)
  }

  /** The loop of utils.rs, on already parsed instants. */
  method BusinessDaysBetween(start: Instant, end: Instant) returns (days: seq<int>)
    ensures days == Emitted(start, end)
  {
    days := [];
    var current := start;
    while Le(current, end)
      invariant days + Emitted(current, end) == Emitted(start, end)
      decreases end.unixSeconds - current.unixSeconds + SECONDS_PER_DAY
    {
      EmittedHead(current, end);
      if IsBusinessDay(current) {
        ConcatAssoc(days, [UnixMillis(current)], Emitted(AddDays(current, 1), end));
        days := days + [UnixMillis(current)];
      }
      current := AddDays(current, 1);
    }
  }

  /** One day of the walk: the day's stamp when it is a business day, then the rest. */
  lemma EmittedHead(cur: Instant, end: Instant)
    requires Le(cur, end)
    ensures Emitted(cur, end) == (if IsBusinessDay(cur) then [UnixMillis(cur)] else []) + Emitted(AddDays(cur, 1), end)
  {
  }

  lemma ConcatAssoc(a: seq<int>, b: seq<int>, c: seq<int>)
    ensures a + (b + c) == (a + b) + c
  {
  }

  /**
   * `generate_business_days(start, end, format)`: both strings go through
   * `OffsetDateTime::parse(..).unwrap()`, so a string the parser rejects
   * aborts before anything is generated.
   */
  method GenerateBusinessDays(start: string, end: string, parse: string -> Option<Instant>)
    returns (r: Outcome<Series>)
    ensures r.Panicked? <==> parse(start).None? || parse(end).None?
    ensures r.Returned? ==> r.value == Series(SERIES_NAME, Emitted(parse(start).value, parse(end).value))
  {
    var startDt := parse(start);
    if startDt.None? { return Panicked; }
    var endDt := parse(end);
    if endDt.None? { return Panicked; }
    var days := BusinessDaysBetween(startDt.value, endDt.value);
    r := Returned(Series(SERIES_NAME, days));
  }

  lemma LeTrans(a: Instant, b: Instant, c: Instant)
    requires Le(a, b) && Le(b, c)
    ensures Le(a, c)
  {
  }

  /** An empty range (start after end) emits nothing. */
  lemma EmptyWhenStartAfterEnd(start: Instant, end: Instant)
    requires !Le(start, end)
    ensures Emitted(start, end) == []
  {
  }

  /**
   * The emitted values are exactly the millisecond stamps of the business
   * days `start + k days` that do not pass `end`: every emitted value is
   * one, and no business day in range is skipped.
   */
  lemma {:induction false} EmittedMembers(cur: Instant, end: Instant, x: int)
    ensures x in Emitted(cur, end) <==>
      exists k: nat {:trigger AddDays(cur, k)} ::
        Le(AddDays(cur, k), end) && IsBusinessDay(AddDays(cur, k)) && x == UnixMillis(AddDays(cur, k))
    decreases end.unixSeconds - cur.unixSeconds + SECONDS_PER_DAY
  {
    if !Le(cur, end) {
      forall k: nat | Le(AddDays(cur, k), end) ensures false {
        LeTrans(cur, AddDays(cur, k), end);
      }
    } else {
      var next := AddDays(cur, 1);
      EmittedMembers(next, end, x);
      if x in Emitted(cur, end) {
        if IsBusinessDay(cur) && x == UnixMillis(cur) {
          assert AddDays(cur, 0) == cur;
        } else {
          assert x in Emitted(next, end);
          var k: nat :| Le(AddDays(next, k), end) && IsBusinessDay(AddDays(next, k))
                        && x == UnixMillis(AddDays(next, k));
          AddDaysAdd(cur, 1, k);
          assert AddDays(cur, k + 1) == AddDays(next, k);
        }
      }
      if exists k: nat {:trigger AddDays(cur, k)} ::
          Le(AddDays(cur, k), end) && IsBusinessDay(AddDays(cur, k)) && x == UnixMillis(AddDays(cur, k)) {
        var k: nat :| Le(AddDays(cur, k), end) && IsBusinessDay(AddDays(cur, k)) && x == UnixMillis(AddDays(cur, k));
        if k == 0 {
          assert AddDays(cur, 0) == cur;
        } else {
          AddDaysAdd(cur, 1, k - 1);
          assert AddDays(next, k - 1) == AddDays(cur, k);
        }
      }
    }
  }

  /** Every stamp of `s` lies between `lo` and `hi`, a whole number of days after `lo`. */
  predicate DayStamps(s: seq<int>, lo: int, hi: int) {
    forall i :: 0 <= i < |s| ==> lo <= s[i] <= hi && (s[i] - lo) % MILLIS_PER_DAY == 0
  }

  /** The stamps of `s` strictly increase, in steps of whole days. */
  predicate IncreasingByDays(s: seq<int>) {
    forall i, j :: 0 <= i < j < |s| ==> s[i] < s[j] && (s[j] - s[i]) % MILLIS_PER_DAY == 0
  }

  /** Every emitted stamp lies between those of `start` and `end`, a whole number of days after `start`. */
  lemma {:induction false} EmittedInRange(cur: Instant, end: Instant)
    ensures DayStamps(Emitted(cur, end), UnixMillis(cur), UnixMillis(end))
    decreases end.unixSeconds - cur.unixSeconds + SECONDS_PER_DAY
  {
    if Le(cur, end) {
      var next := AddDays(cur, 1);
      EmittedInRange(next, end);
      UnixMillisAddDays(cur, 1);
      UnixMillisMonotone(cur, end);
      EmittedHead(cur, end);
      StampsInRange(if IsBusinessDay(cur) then [UnixMillis(cur)] else [], Emitted(next, end),
                    UnixMillis(cur), UnixMillis(next), UnixMillis(end));
    }
  }

  /** Putting the day before in front keeps the stamps in range, now counted from that day. */
  lemma StampsInRange(h: seq<int>, rest: seq<int>, lo: int, mid: int, hi: int)
    requires mid == lo + MILLIS_PER_DAY && lo <= hi && (h == [] || h == [lo])
    requires DayStamps(rest, mid, hi)
    ensures DayStamps(h + rest, lo, hi)
  {
    forall i | 0 <= i < |h + rest| ensures lo <= (h + rest)[i] <= hi && ((h + rest)[i] - lo) % MILLIS_PER_DAY == 0 {
      if i >= |h| {
        var y := rest[i - |h|];
        assert (h + rest)[i] == y;
        assert y - lo == (y - mid) + MILLIS_PER_DAY;
      }
    }
  }

  /** A stamp whole days after the next day is whole days after, and later than, the day before. */
  lemma DayLater(x: int, y: int, z: int)
    requires y == x + MILLIS_PER_DAY && y <= z && (z - y) % MILLIS_PER_DAY == 0
    ensures x < z && (z - x) % MILLIS_PER_DAY == 0
  {
    assert z - x == (z - y) + MILLIS_PER_DAY;
  }

  /** The emitted stamps strictly increase, in steps of whole days. */
  lemma {:induction false} EmittedIncreasing(cur: Instant, end: Instant)
    ensures IncreasingByDays(Emitted(cur, end))
    decreases end.unixSeconds - cur.unixSeconds + SECONDS_PER_DAY
  {
    if Le(cur, end) {
      var next := AddDays(cur, 1);
      EmittedIncreasing(next, end);
      EmittedInRange(next, end);
      UnixMillisAddDays(cur, 1);
      EmittedHead(cur, end);
      StampsIncreasing(if IsBusinessDay(cur) then [UnixMillis(cur)] else [], Emitted(next, end),
                       UnixMillis(cur), UnixMillis(next), UnixMillis(end));
    }
  }

  /** Putting the day before in front of increasing day stamps keeps them increasing. */
  lemma StampsIncreasing(h: seq<int>, rest: seq<int>, lo: int, mid: int, hi: int)
    requires mid == lo + MILLIS_PER_DAY && (h == [] || h == [lo])
    requires DayStamps(rest, mid, hi) && IncreasingByDays(rest)
    ensures IncreasingByDays(h + rest)
  {
    var r := h + rest;
    forall i, j | 0 <= i < j < |r| ensures r[i] < r[j] && (r[j] - r[i]) % MILLIS_PER_DAY == 0 {
      if i < |h| {
        var y := rest[j - 1];
        assert r[j] == y && r[i] == lo;
        DayLater(lo, mid, y);
      } else {
        assert r[i] == rest[i - |h|] && r[j] == rest[j - |h|];
      }
    }
  }

  /** The weekday `i` days on. */
  lemma {:induction false} WeekdayAfter(t: Instant, i: nat)
    ensures WeekdayNumber(AddDays(t, i)) == (WeekdayNumber(t) + i) % 7
  {
    if i > 0 {
      WeekdayAfter(t, i - 1);
      WeekdayNext(AddDays(t, i - 1));
      AddDaysAdd(t, i - 1, 1);
      NextResidue(WeekdayNumber(t) + i - 1);
    }
  }

  /** One day past a residue modulo seven. */
  lemma NextResidue(a: int)
    ensures (a % 7 + 1) % 7 == (a + 1) % 7
  {
  }

  /** Unrolls one step of the walk. */
  lemma EmittedStep(cur: Instant, end: Instant)
    requires Le(cur, end)
    ensures |Emitted(cur, end)| == (if IsBusinessDay(cur) then 1 else 0) + |Emitted(AddDays(cur, 1), end)|
  {
  }

  /** The business days among `t`, `t + 1 day`, ..., `t + (n - 1) days`. */
  function CountBusiness(t: Instant, n: nat): nat
    decreases n
  {
    if n == 0 then 0 else (if IsBusinessDay(t) then 1 else 0) + CountBusiness(AddDays(t, 1), n - 1)
  }

  /** A walk that stops before day `n` emits one value per business day among the first `n`. */
  lemma {:induction false} EmittedCount(cur: Instant, n: nat, end: Instant)
    requires n >= 1 && Le(AddDays(cur, n - 1), end) && !Le(AddDays(cur, n), end)
    ensures |Emitted(cur, end)| == CountBusiness(cur, n)
    decreases n
  {
    AddDaysAdd(cur, 0, 0);
    assert AddDays(cur, 0) == cur;
    LeTrans(cur, AddDays(cur, n - 1), end);
    var next := AddDays(cur, 1);
    if n == 1 {
      assert !Le(next, end);
    } else {
      AddDaysAdd(cur, 1, n - 2);
      AddDaysAdd(cur, 1, n - 1);
      EmittedCount(next, n - 1, end);
    }
  }

  lemma BusinessDayNumber(t: Instant)
    ensures IsBusinessDay(t) <==> WeekdayNumber(t) < 5
  {
  }

  /** How many of `n` consecutive weekdays, the first numbered `w` (Monday 0), are Monday to Friday. */
  function WeekdaysFrom(w: int, n: nat): nat
    requires 0 <= w < 7
    decreases n
  {
    if n == 0 then 0 else (if w < 5 then 1 else 0) + WeekdaysFrom(if w == 6 then 0 else w + 1, n - 1)
  }

  /** Counting business days only depends on the weekday the count starts on. */
  lemma {:induction false} CountByWeekday(t: Instant, n: nat)
    ensures CountBusiness(t, n) == WeekdaysFrom(WeekdayNumber(t), n)
    decreases n
  {
    if n > 0 {
      BusinessDayNumber(t);
      WeekdayNext(t);
      CountByWeekday(AddDays(t, 1), n - 1);
    }
  }

  /** Whatever weekday a week starts on, five of its seven days are Monday to Friday. */
  lemma WeekHasFive(w: int)
    requires 0 <= w < 7
    ensures WeekdaysFrom(w, 7) == 5
  {
    if w == 0 {
      assert WeekdaysFrom(0, 7) == 5;
    } else if w == 1 {
      assert WeekdaysFrom(1, 7) == 5;
    } else if w == 2 {
      assert WeekdaysFrom(2, 7) == 5;
    } else if w == 3 {
      assert WeekdaysFrom(3, 7) == 5;
    } else if w == 4 {
      assert WeekdaysFrom(4, 7) == 5;
    } else if w == 5 {
      assert WeekdaysFrom(5, 7) == 5;
    } else {
      assert WeekdaysFrom(6, 7) == 5;
    }
  }

  /** Any seven consecutive days hold exactly five business days. */
  lemma SevenDaysFiveBusiness(t: Instant)
    ensures CountBusiness(t, 7) == 5
  {
    CountByWeekday(t, 7);
    WeekHasFive(WeekdayNumber(t));
  }



  /** A walk over exactly one week, `t` to `t + 6 days`, emits five values. */
  lemma FiveOfEverySeven(t: Instant)
    ensures |Emitted(t, AddDays(t, 6))| == 5
  {
    SevenDaysFiveBusiness(t);
    UnixMillisAddDays(t, 6);
    EmittedCount(t, 7, AddDays(t, 6));
  }

  /**
   * The walk over a range is the walk over its first `n` days followed by
   * the walk over the rest.
   */
  lemma {:induction false} EmittedSplit(cur: Instant, end: Instant, n: nat)
    requires n >= 1 && Le(AddDays(cur, n - 1), end)
    ensures Emitted(cur, end) == Emitted(cur, AddDays(cur, n - 1)) + Emitted(AddDays(cur, n), end)
    decreases n
  {
    var mid := AddDays(cur, n - 1);
    assert AddDays(cur, 0) == cur;
    LeTrans(cur, mid, end);
    var next := AddDays(cur, 1);
    var h := if IsBusinessDay(cur) then [UnixMillis(cur)] else [];
    EmittedHead(cur, end);
    if n == 1 {
      assert mid == cur;
      assert !Le(next, mid);
      EmittedHead(cur, mid);
    } else {
      AddDaysAdd(cur, 1, n - 2);
      AddDaysAdd(cur, 1, n - 1);
      assert Le(cur, mid);
      EmittedHead(cur, mid);
      EmittedSplit(next, end, n - 1);
      ConcatAssoc(h, Emitted(next, mid), Emitted(AddDays(cur, n), end));
    }
  }

  /** Seven consecutive days at the front of a walk that reaches past them add exactly five values. */
  lemma WeekAddsFive(t: Instant, end: Instant)
    requires Le(AddDays(t, 6), end)
    ensures |Emitted(t, end)| == 5 + |Emitted(AddDays(t, 7), end)|
  {
    EmittedSplit(t, end, 7);
    FiveOfEverySeven(t);
  }

  /** A range of `w` whole weeks emits `5 * w` values. */
  lemma {:induction false} FullWeeks(t: Instant, w: nat)
    requires w >= 1
    ensures |Emitted(t, AddDays(t, 7 * w - 1))| == 5 * w
    decreases w
  {
    FiveOfEverySeven(t);
    if w > 1 {
      var end := AddDays(t, 7 * w - 1);
      AddDaysAdd(t, 6, 7 * (w - 1));
      EmittedSplit(t, end, 7);
      var t7 := AddDays(t, 7);
      AddDaysAdd(t, 7, 7 * (w - 1) - 1);
      FullWeeks(t7, w - 1);
    }
  }
}
