/**
 * Instants as the `time` crate's `OffsetDateTime` holds them: a UTC
 * instant (whole seconds since the Unix epoch plus a nanosecond of the
 * second) together with the UTC offset it was written in. Ordering and
 * arithmetic are on the UTC instant; the calendar day and weekday are
 * those of the local (offset) date.
 */
module Time {

  const SECONDS_PER_DAY := 86_400
  const NANOS_PER_SECOND := 1_000_000_000
  const NANOS_PER_MILLI := 1_000_000

  type Nanosecond = n: int | 0 <= n < NANOS_PER_SECOND

  /** The `time` crate allows offsets of up to 25:59:59 either way. */
  type UtcOffset = o: int | -93_599 <= o <= 93_599

  datatype Instant = Instant(unixSeconds: int, nanosecond: Nanosecond, offsetSeconds: UtcOffset)

  datatype Weekday = Monday | Tuesday | Wednesday | Thursday | Friday | Saturday | Sunday

  /** `OffsetDateTime`'s `<=`: compares the UTC instants, ignoring the offsets. */
  predicate Le(a: Instant, b: Instant) {
    a.unixSeconds < b.unixSeconds
    || (a.unixSeconds == b.unixSeconds && a.nanosecond <= b.nanosecond)
  }

  /** `t + Duration::days(k)`: same offset and nanosecond, k whole days later. */
  function AddDays(t: Instant, k: nat): Instant {
    Instant(t.unixSeconds + k * SECONDS_PER_DAY, t.nanosecond, t.offsetSeconds)
  }

  /** Days since 1970-01-01 of the local calendar date (floor division). */
  function LocalDay(t: Instant): int {
    (t.unixSeconds + t.offsetSeconds) / SECONDS_PER_DAY
  }

  /** 0 for Monday through 6 for Sunday; 1970-01-01 was a Thursday (3). */
  function WeekdayNumber(t: Instant): (w: int)
    ensures 0 <= w < 7
  {
    (LocalDay(t) + 3) % 7
  }

  function WeekdayOf(t: Instant): Weekday {
    match WeekdayNumber(t)
    case 0 => Monday
    case 1 => Tuesday
    case 2 => Wednesday
    case 3 => Thursday
    case 4 => Friday
    case 5 => Saturday
    case _ => Sunday
  }

  /** `unix_timestamp() * 1000 + nanosecond() / 1_000_000`: milliseconds since the epoch. */
  function UnixMillis(t: Instant): int {
    t.unixSeconds * 1000 + t.nanosecond / NANOS_PER_MILLI
  }

  /** The epoch itself, read in UTC, falls on a Thursday. */
  lemma EpochIsThursday()
    ensures WeekdayOf(Instant(0, 0, 0)) == Thursday
  {
  }

  /** One day later is one weekday later, whatever the offset. */
  lemma {:induction false} WeekdayNext(t: Instant)
    ensures WeekdayNumber(AddDays(t, 1)) == (WeekdayNumber(t) + 1) % 7
  {
    var x := t.unixSeconds + t.offsetSeconds;
    assert LocalDay(AddDays(t, 1)) == (x + SECONDS_PER_DAY) / SECONDS_PER_DAY;
    assert (x + SECONDS_PER_DAY) / SECONDS_PER_DAY == x / SECONDS_PER_DAY + 1;
  }

  /** Adding days one at a time adds them up. */
  lemma AddDaysAdd(t: Instant, j: nat, k: nat)
    ensures AddDays(AddDays(t, j), k) == AddDays(t, j + k)
  {
  }

  /** For one nanosecond-of-second, the millisecond stamp grows by 86_400_000 per day. */
  lemma UnixMillisAddDays(t: Instant, k: nat)
    ensures UnixMillis(AddDays(t, k)) == UnixMillis(t) + k * 86_400_000
  {
  }

  /** The millisecond stamp never runs against the instant order. */
  lemma {:induction false} UnixMillisMonotone(a: Instant, b: Instant)
    requires Le(a, b)
    ensures UnixMillis(a) <= UnixMillis(b)
  {
    if a.unixSeconds < b.unixSeconds {
      assert a.nanosecond / NANOS_PER_MILLI < 1000;
      assert a.unixSeconds * 1000 + 1000 <= b.unixSeconds * 1000;
    } else {
      assert a.nanosecond / NANOS_PER_MILLI <= b.nanosecond / NANOS_PER_MILLI;
    }
  }
}
