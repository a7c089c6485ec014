/**
 * Civil date-times and their conversion from and to epoch seconds.
 *
 * The coordinator turns a reading's `ts` into a local datetime with
 * `datetime.fromtimestamp` followed by Home Assistant's `dt_util.as_local`, and
 * turns a bucket start back into seconds with `.timestamp()`. Here the local
 * zone is a fixed offset in seconds east of UTC; daylight-saving rules are not
 * part of this model.
 */
module DateTimes {
  import opened Wrappers
  import opened Calendar

  const SecondsPerDay: int := 86400
  const SecondsPerHour: int := 3600

  datatype DateTime = DateTime(
    year: int, month: int, day: int,
    hour: int, minute: int, second: int, microsecond: int)
  {
    function DateOf(): Date {
      Date(year, month, day)
    }

    predicate Valid() {
      && ValidDate(DateOf())
      && 0 <= hour < 24
      && 0 <= minute < 60
      && 0 <= second < 60
      && 0 <= microsecond < 1000000
    }

    /** Seconds since local midnight, ignoring microseconds. */
    function SecondOfDay(): int {
      hour * 3600 + minute * 60 + second
    }

    predicate IsMidnight() {
      hour == 0 && minute == 0 && second == 0 && microsecond == 0
    }
  }

  /** Python's comparison of two datetimes of the same zone: field by field. */
  predicate Before(a: DateTime, b: DateTime) {
    || DateBefore(a.DateOf(), b.DateOf())
    || (a.DateOf() == b.DateOf() && a.hour < b.hour)
    || (a.DateOf() == b.DateOf() && a.hour == b.hour && a.minute < b.minute)
    || (a.DateOf() == b.DateOf() && a.hour == b.hour && a.minute == b.minute && a.second < b.second)
    || (a.DateOf() == b.DateOf() && a.hour == b.hour && a.minute == b.minute && a.second == b.second
        && a.microsecond < b.microsecond)
  }

  predicate NotAfter(a: DateTime, b: DateTime) {
    a == b || Before(a, b)
  }

  /** First local wall-clock second (0001-01-01 00:00:00) as seconds from the epoch. */
  const MinLocalSecond: int := (1 - EpochOrdinal) * SecondsPerDay
  /** First local wall-clock second after 9999-12-31 23:59:59. */
  const EndLocalSecond: int := (MaxOrdinal + 1 - EpochOrdinal) * SecondsPerDay

  /** Whether epoch second `ts` has a local datetime Python can represent (years 1 through 9999). */
  predicate Representable(ts: int, offset: int) {
    MinLocalSecond <= ts + offset < EndLocalSecond
  }

  /**
   * Whether the naive `datetime.fromtimestamp(ts)` succeeds. To detect a
   * fold it also converts the local time one day earlier, and raises
   * ValueError when that one falls before the year 1.
   */
  predicate NaiveRepresentable(ts: int, offset: int) {
    Representable(ts, offset) && Representable(ts - SecondsPerDay, offset)
  }

  /** `.timestamp()` of a datetime in the zone `offset` seconds east of UTC. */
  function Timestamp(dt: DateTime, offset: int): real
    requires dt.Valid()
  {
    ((Ordinal(dt.DateOf()) - EpochOrdinal) * SecondsPerDay + dt.SecondOfDay() - offset) as real
      + dt.microsecond as real / 1000000.0
  }

  /**
   * The local datetime of epoch second `ts`; `None` where Python raises
   * because the year would leave 1..9999.
   */
  function FromTimestamp(ts: int, offset: int): (r: Option<DateTime>)
    ensures r.Some? <==> Representable(ts, offset)
    ensures r.Some? ==> r.value.Valid() && r.value.microsecond == 0
    ensures r.Some? ==> Timestamp(r.value, offset) == ts as real
  {
    var s := ts + offset;
    var n := s / SecondsPerDay + EpochOrdinal;
    var sod := s % SecondsPerDay;
    SplitSeconds(s);
    if 1 <= n <= MaxOrdinal then
      var r := AtSecondOfDay(FromOrdinal(n), sod);
      TimestampWhole(r, offset, ts);
      Some(r)
    else
      None
  }

  /** The datetime `sod` seconds after midnight of date `d`. */
  function AtSecondOfDay(d: Date, sod: int): (r: DateTime)
    requires ValidDate(d) && 0 <= sod < SecondsPerDay
    ensures r.Valid() && r.DateOf() == d && r.SecondOfDay() == sod && r.microsecond == 0
  {
    DateTime(d.year, d.month, d.day, sod / 3600, sod % 3600 / 60, sod % 60, 0)
  }

  /** The first instant of date `d`. */
  function Midnight(d: Date): (r: DateTime)
    requires ValidDate(d)
    ensures r.Valid() && r.IsMidnight() && r.DateOf() == d
  {
    DateTime(d.year, d.month, d.day, 0, 0, 0, 0)
  }

  lemma MidnightNotAfter(r: DateTime, dt: DateTime)
    requires dt.Valid() && r.IsMidnight() && (r.DateOf() == dt.DateOf() || DateBefore(r.DateOf(), dt.DateOf()))
    ensures NotAfter(r, dt)
  {
    if r.DateOf() == dt.DateOf() {
      assert r.year == dt.year && r.month == dt.month && r.day == dt.day;
      if dt.IsMidnight() {
        assert r == dt;
      }
    }
  }

  lemma TimestampWhole(dt: DateTime, offset: int, ts: int)
    requires dt.Valid() && dt.microsecond == 0
    requires (Ordinal(dt.DateOf()) - EpochOrdinal) * SecondsPerDay + dt.SecondOfDay() - offset == ts
    ensures Timestamp(dt, offset) == ts as real
  {
  }

  /** Splitting a second count into whole days and a time of day. */
  lemma SplitSeconds(s: int)
    ensures s == (s / SecondsPerDay) * SecondsPerDay + s % SecondsPerDay
    ensures 0 <= s % SecondsPerDay < SecondsPerDay
    ensures 1 <= s / SecondsPerDay + EpochOrdinal <==> MinLocalSecond <= s
    ensures s / SecondsPerDay + EpochOrdinal <= MaxOrdinal <==> s < EndLocalSecond
  {
  }

  // ---------------------------------------------------------------------------
  // Order lemmas

  lemma BeforeIrreflexive(a: DateTime)
    ensures !Before(a, a)
  {
  }

  /** Exactly one of `a < b`, `a == b`, `b < a` holds. */
  lemma Trichotomy(a: DateTime, b: DateTime)
    ensures Before(a, b) || a == b || Before(b, a)
    ensures !(Before(a, b) && Before(b, a))
  {
  }

  lemma BeforeTransitive(a: DateTime, b: DateTime, c: DateTime)
    requires Before(a, b) && Before(b, c)
    ensures Before(a, c)
  {
  }

  lemma NotAfterTransitive(a: DateTime, b: DateTime, c: DateTime)
    requires NotAfter(a, b) && NotAfter(b, c)
    ensures NotAfter(a, c)
  {
  }

  /** Field order and timestamp order coincide: `.timestamp()` is strictly monotone. */
  lemma TimestampOrder(a: DateTime, b: DateTime, offset: int)
    requires a.Valid() && b.Valid()
    ensures Before(a, b) <==> Timestamp(a, offset) < Timestamp(b, offset)
  {
    OrdinalOrder(a.DateOf(), b.DateOf());
    OrdinalOrder(b.DateOf(), a.DateOf());
    if a.DateOf() == b.DateOf() {
    } else if Ordinal(a.DateOf()) < Ordinal(b.DateOf()) {
      assert a.SecondOfDay() < SecondsPerDay;
    } else {
      assert b.SecondOfDay() < SecondsPerDay;
    }
  }

  /** Later epoch seconds never map to an earlier local datetime. */
  lemma FromTimestampMonotone(t1: int, t2: int, offset: int)
    requires t1 <= t2
    requires FromTimestamp(t1, offset).Some? && FromTimestamp(t2, offset).Some?
    ensures NotAfter(FromTimestamp(t1, offset).value, FromTimestamp(t2, offset).value)
  {
    var a := FromTimestamp(t1, offset).value;
    var b := FromTimestamp(t2, offset).value;
    TimestampOrder(b, a, offset);
    Trichotomy(a, b);
  }
}
