/**
 * `TimeBlocs`: the bucket key of a reading, i.e. its local datetime truncated
 * to the start of its hour, day, ISO week (Monday), month or year.
 */
module TimeBlocs {
  import opened Wrappers
  import opened Calendar
  import opened DateTimes

  datatype StatType = Yearly | Monthly | Weekly | Daily | Hourly

  /** The `stat_type` string that selects each truncation. */
  function Name(t: StatType): string {
    match t
    case Yearly => "yearly"
    case Monthly => "monthly"
    case Weekly => "weekly"
    case Daily => "daily"
    case Hourly => "hourly"
  }

  /** The constructor's table lookup `fn.get(stat_type)`: `None` for any other name. */
  function Parse(statType: string): (r: Option<StatType>)
    ensures r.Some? ==> Name(r.value) == statType
    ensures r.None? <==> forall t: StatType :: Name(t) != statType
  {
    if statType == "yearly" then Some(Yearly)
    else if statType == "monthly" then Some(Monthly)
    else if statType == "weekly" then Some(Weekly)
    else if statType == "daily" then Some(Daily)
    else if statType == "hourly" then Some(Hourly)
    else None
  }

  /** Whether `b` is the first instant of a bucket of kind `t`. */
  predicate IsBucketStart(t: StatType, b: DateTime)
    requires b.Valid()
  {
    match t
    case Hourly => b.minute == 0 && b.second == 0 && b.microsecond == 0
    case Daily => b.IsMidnight()
    case Weekly => b.IsMidnight() && Weekday(b.DateOf()) == 0
    case Monthly => b.IsMidnight() && b.day == 1
    case Yearly => b.IsMidnight() && b.day == 1 && b.month == 1
  }

  /** `replace(month=1, day=1, hour=0, minute=0, second=0, microsecond=0)` */
  function TruncYearly(dt: DateTime): (r: DateTime)
    requires dt.Valid()
    ensures r.Valid() && r.IsMidnight()
    ensures r.year == dt.year && r.month == 1 && r.day == 1
    ensures NotAfter(r, dt)
  {
    dt.(month := 1, day := 1, hour := 0, minute := 0, second := 0, microsecond := 0)
  }

  /** `replace(day=1, hour=0, minute=0, second=0, microsecond=0)` */
  function TruncMonthly(dt: DateTime): (r: DateTime)
    requires dt.Valid()
    ensures r.Valid() && r.IsMidnight()
    ensures r.year == dt.year && r.month == dt.month && r.day == 1
    ensures NotAfter(r, dt)
  {
    dt.(day := 1, hour := 0, minute := 0, second := 0, microsecond := 0)
  }

  /** Midnight of the same day, minus `timedelta(days=tm_wday)`. */
  function TruncWeekly(dt: DateTime): (r: DateTime)
    requires dt.Valid()
    ensures r.Valid() && r.IsMidnight() && Weekday(r.DateOf()) == 0
    ensures 0 <= Ordinal(dt.DateOf()) - Ordinal(r.DateOf()) <= 6
    ensures NotAfter(r, dt)
  {
    var d := MondayOf(dt.DateOf());
    OrdinalNotAfter(d, dt.DateOf());
    var r := Midnight(d);
    MidnightNotAfter(r, dt);
    r
  }

  /** `replace(hour=0, minute=0, second=0, microsecond=0)` */
  function TruncDaily(dt: DateTime): (r: DateTime)
    requires dt.Valid()
    ensures r.Valid() && r.IsMidnight()
    ensures r.DateOf() == dt.DateOf()
    ensures NotAfter(r, dt)
  {
    dt.(hour := 0, minute := 0, second := 0, microsecond := 0)
  }

  /** `replace(minute=0, second=0, microsecond=0)` */
  function TruncHourly(dt: DateTime): (r: DateTime)
    requires dt.Valid()
    ensures r.Valid() && r.minute == 0 && r.second == 0 && r.microsecond == 0
    ensures r.DateOf() == dt.DateOf() && r.hour == dt.hour
    ensures NotAfter(r, dt)
  {
    dt.(minute := 0, second := 0, microsecond := 0)
  }

  /** The truncation the stat type selects. */
  function Truncate(t: StatType, dt: DateTime): (r: DateTime)
    requires dt.Valid()
    ensures r.Valid() && IsBucketStart(t, r) && NotAfter(r, dt)
  {
    match t
    case Yearly => TruncYearly(dt)
    case Monthly => TruncMonthly(dt)
    case Weekly => TruncWeekly(dt)
    case Daily => TruncDaily(dt)
    case Hourly => TruncHourly(dt)
  }

  /**
   * `TimeBlocs(stat_type).fn(reading)` for a reading at epoch second `ts`
   * in the zone `offset` seconds east of UTC; `None` where the naive
   * conversion raises, which includes the first local day of the year 1.
   */
  function BucketOf(t: StatType, ts: int, offset: int): (r: Option<DateTime>)
    ensures r.Some? <==> NaiveRepresentable(ts, offset)
    ensures r.Some? ==> r.value.Valid() && IsBucketStart(t, r.value)
    ensures r.Some? ==> Timestamp(r.value, offset) <= ts as real
  {
    if !Representable(ts - SecondsPerDay, offset) then None
    else match FromTimestamp(ts, offset)
    case None => None
    case Some(local) =>
      var b := Truncate(t, local);
      TimestampOrder(b, local, offset);
      Some(b)
  }

  // ---------------------------------------------------------------------------
  // Truncation is a floor

  /** A bucket start is its own bucket: in particular every truncation is idempotent. */
  lemma TruncateFixesStarts(t: StatType, b: DateTime)
    requires b.Valid() && IsBucketStart(t, b)
    ensures Truncate(t, b) == b
  {
    if t == Weekly {
      WeeklyFixesMondays(b);
    }
  }

  lemma WeeklyFixesMondays(b: DateTime)
    requires b.Valid() && IsBucketStart(Weekly, b)
    ensures TruncWeekly(b) == b
  {
    var m := MondayOf(b.DateOf());
    OrdinalInjective(m, b.DateOf());
  }

  lemma TruncateIdempotent(t: StatType, dt: DateTime)
    requires dt.Valid()
    ensures Truncate(t, Truncate(t, dt)) == Truncate(t, dt)
  {
    TruncateFixesStarts(t, Truncate(t, dt));
  }

  /** Every bucket start at or before `dt` is at or before `dt`'s own bucket start. */
  lemma TruncateIsGreatestStart(t: StatType, b: DateTime, dt: DateTime)
    requires b.Valid() && dt.Valid() && IsBucketStart(t, b) && NotAfter(b, dt)
    ensures NotAfter(b, Truncate(t, dt))
  {
    match t
    case Weekly => WeeklyIsGreatestStart(b, dt);
    case Yearly => CalendarIsGreatestStart(t, b, dt);
    case Monthly => CalendarIsGreatestStart(t, b, dt);
    case Daily => CalendarIsGreatestStart(t, b, dt);
    case Hourly => HourlyIsGreatestStart(b, dt);
  }

  lemma CalendarIsGreatestStart(t: StatType, b: DateTime, dt: DateTime)
    requires t == Yearly || t == Monthly || t == Daily
    requires b.Valid() && dt.Valid() && IsBucketStart(t, b) && NotAfter(b, dt)
    ensures NotAfter(b, Truncate(t, dt))
  {
  }

  lemma HourlyIsGreatestStart(b: DateTime, dt: DateTime)
    requires b.Valid() && dt.Valid() && IsBucketStart(Hourly, b) && NotAfter(b, dt)
    ensures NotAfter(b, TruncHourly(dt))
  {
  }

  lemma {:induction false} WeeklyIsGreatestStart(b: DateTime, dt: DateTime)
    requires b.Valid() && dt.Valid() && IsBucketStart(Weekly, b) && NotAfter(b, dt)
    ensures NotAfter(b, TruncWeekly(dt))
  {
    var r := TruncWeekly(dt);
    assert r.DateOf() == MondayOf(dt.DateOf());
    OrdinalOrder(dt.DateOf(), b.DateOf());
    MondayOfIsGreatest(b.DateOf(), dt.DateOf());
    OrdinalOrder(r.DateOf(), b.DateOf());
    if b.DateOf() == r.DateOf() {
      assert b == r;
    }
  }

  /** Truncation preserves order, so ascending readings give ascending keys. */
  lemma TruncateMonotone(t: StatType, a: DateTime, b: DateTime)
    requires a.Valid() && b.Valid() && NotAfter(a, b)
    ensures NotAfter(Truncate(t, a), Truncate(t, b))
  {
    NotAfterTransitive(Truncate(t, a), a, b);
    TruncateIsGreatestStart(t, Truncate(t, a), b);
  }

  /** A later reading never falls in an earlier bucket. */
  lemma BucketOfMonotone(t: StatType, ts1: int, ts2: int, offset: int)
    requires ts1 <= ts2 && BucketOf(t, ts1, offset).Some? && BucketOf(t, ts2, offset).Some?
    ensures NotAfter(BucketOf(t, ts1, offset).value, BucketOf(t, ts2, offset).value)
  {
    FromTimestampMonotone(ts1, ts2, offset);
    TruncateMonotone(t, FromTimestamp(ts1, offset).value, FromTimestamp(ts2, offset).value);
  }

  /** Two instants share a bucket exactly when they share a truncation. */
  lemma SameBucketBetween(t: StatType, a: DateTime, x: DateTime)
    requires a.Valid() && x.Valid() && NotAfter(Truncate(t, a), x) && NotAfter(x, a)
    ensures Truncate(t, x) == Truncate(t, a)
  {
    TruncateMonotone(t, x, a);
    TruncateIsGreatestStart(t, Truncate(t, a), x);
    Trichotomy(Truncate(t, x), Truncate(t, a));
  }
}
