/**
 * The proleptic Gregorian calendar as Python's `datetime` module counts it:
 * years 1 through 9999, day ordinal 1 is 0001-01-01, and `weekday()` is 0 on
 * a Monday. Bucketing needs it to move a date back to its Monday and to turn
 * an epoch second count into a civil date and back.
 */
module Calendar {
  import opened Arithmetic

  const MaxYear: int := 9999
  /** Ordinal of 9999-12-31, the last date Python can represent. */
  const MaxOrdinal: int := 3652059
  /** Ordinal of 1970-01-01, the day of epoch second 0. */
  const EpochOrdinal: int := 719163

  datatype Date = Date(year: int, month: int, day: int)

  predicate IsLeap(y: int) {
    y % 4 == 0 && (y % 100 != 0 || y % 400 == 0)
  }

  function DaysInYear(y: int): int {
    if IsLeap(y) then 366 else 365
  }

  function DaysInMonth(y: int, m: int): int
    requires 1 <= m <= 12
  {
    if m == 2 then (if IsLeap(y) then 29 else 28)
    else if m == 4 || m == 6 || m == 9 || m == 11 then 30
    else 31
  }

  /** Days of year `y` that come before the first of month `m`. */
  function DaysBeforeMonth(y: int, m: int): int
    requires 1 <= m <= 12
  {
    [0, 31, 59, 90, 120, 151, 181, 212, 243, 273, 304, 334][m - 1]
      + (if m > 2 && IsLeap(y) then 1 else 0)
  }

  /** Days before January 1 of year `y`, counted from 0001-01-01. */
  function DaysBeforeYear(y: int): int
    requires y >= 1
  {
    var p := y - 1;
    p * 365 + p / 4 - p / 100 + p / 400
  }

  predicate ValidDate(d: Date) {
    && 1 <= d.year <= MaxYear
    && 1 <= d.month <= 12
    && 1 <= d.day <= DaysInMonth(d.year, d.month)
  }

  /** Strict lexicographic order on (year, month, day): Python's date comparison. */
  predicate DateBefore(a: Date, b: Date) {
    || a.year < b.year
    || (a.year == b.year && a.month < b.month)
    || (a.year == b.year && a.month == b.month && a.day < b.day)
  }

  /** Python's `date.toordinal()`. */
  function Ordinal(d: Date): (n: int)
    requires ValidDate(d)
    ensures DaysBeforeYear(d.year) < n <= DaysBeforeYear(d.year + 1)
    ensures 1 <= n <= MaxOrdinal
  {
    MonthBounds(d.year, d.month);
    YearRange(d.year);
    DaysBeforeYear(d.year) + DaysBeforeMonth(d.year, d.month) + d.day
  }

  /** Python's `date.weekday()`: 0 for Monday through 6 for Sunday. */
  function Weekday(d: Date): (w: int)
    requires ValidDate(d)
    ensures 0 <= w < 7
  {
    (Ordinal(d) + 6) % 7
  }

  /** The year holding day ordinal `n`, found by walking forward from year `y`. */
  function YearOf(n: int, y: int): (r: int)
    requires 1 <= y && DaysBeforeYear(y) < n
    ensures y <= r && DaysBeforeYear(r) < n <= DaysBeforeYear(r + 1)
    decreases n - DaysBeforeYear(y)
  {
    DaysBeforeYearStep(y);
    if n <= DaysBeforeYear(y + 1) then y else YearOf(n, y + 1)
  }

  /** The month holding day `k` of year `y`, found by walking forward from month `m`. */
  function MonthOf(y: int, k: int, m: int): (r: int)
    requires 1 <= m <= 12 && DaysBeforeMonth(y, m) < k <= DaysInYear(y)
    ensures m <= r <= 12
    ensures DaysBeforeMonth(y, r) < k <= DaysBeforeMonth(y, r) + DaysInMonth(y, r)
    decreases 12 - m
  {
    MonthBounds(y, m);
    if k <= DaysBeforeMonth(y, m) + DaysInMonth(y, m) then m else MonthOf(y, k, m + 1)
  }

  /** Python's `date.fromordinal(n)`: the date whose ordinal is `n`. */
  function FromOrdinal(n: int): (d: Date)
    requires 1 <= n <= MaxOrdinal
    ensures ValidDate(d) && Ordinal(d) == n
  {
    var y := YearOf(n, 1);
    if y > MaxYear then
      DaysBeforeYearMonotone(MaxYear + 1, y);
      assert false;
      Date(1, 1, 1)
    else
      DaysBeforeYearStep(y);
      var m := MonthOf(y, n - DaysBeforeYear(y), 1);
      Date(y, m, n - DaysBeforeYear(y) - DaysBeforeMonth(y, m))
  }

  /** The Monday on or before `d`: `d - timedelta(days=d.weekday())`. */
  function MondayOf(d: Date): (m: Date)
    requires ValidDate(d)
    ensures ValidDate(m) && Weekday(m) == 0
    ensures 0 <= Ordinal(d) - Ordinal(m) <= 6
    ensures Ordinal(d) - Ordinal(m) == Weekday(d)
  {
    var m := FromOrdinal(MondayOrdinal(Ordinal(d)));
    MondayOfFacts(d, m);
    m
  }

  lemma MondayOfFacts(d: Date, m: Date)
    requires ValidDate(d) && ValidDate(m) && Ordinal(m) == MondayOrdinal(Ordinal(d))
    ensures Weekday(m) == 0
    ensures Ordinal(d) - Ordinal(m) == Weekday(d)
  {
    var o := Ordinal(d);
    var n := Ordinal(m);
    WeekdayAt(m, n);
    WeekdayAt(d, o);
    MondayResidue(o, n);
  }

  lemma MondayResidue(o: int, n: int)
    requires 1 <= o <= MaxOrdinal && n == MondayOrdinal(o)
    ensures (n + 6) % 7 == 0 && o - n == (o + 6) % 7
  {
  }

  /** The ordinal of the Monday on or before the day with ordinal `o`; ordinal 1 is a Monday. */
  function MondayOrdinal(o: int): (n: int)
    requires 1 <= o <= MaxOrdinal
    ensures 1 <= n <= o && o - n == (o + 6) % 7 && (n + 6) % 7 == 0
  {
    o - (o + 6) % 7
  }

  // ---------------------------------------------------------------------------
  // Counting lemmas

  /** One more year adds exactly that year's length. */
  lemma DaysBeforeYearStep(y: int)
    requires y >= 1
    ensures DaysBeforeYear(y + 1) == DaysBeforeYear(y) + DaysInYear(y)
  {
    DivStep(y);
    ModNesting(y);
  }

  /** A representable year starts at or after day 0 and ends by the last representable ordinal. */
  lemma YearRange(y: int)
    requires 1 <= y <= MaxYear
    ensures 0 <= DaysBeforeYear(y)
    ensures DaysBeforeYear(y + 1) == DaysBeforeYear(y) + DaysInYear(y)
    ensures DaysBeforeYear(y + 1) <= MaxOrdinal
  {
    DaysBeforeYearMonotone(1, y);
    DaysBeforeYearStep(y);
    DaysBeforeYearMonotone(y + 1, MaxYear + 1);
  }

  lemma {:induction false} DaysBeforeYearMonotone(a: int, b: int)
    requires 1 <= a <= b
    ensures DaysBeforeYear(a) + 365 * (b - a) <= DaysBeforeYear(b)
    decreases b - a
  {
    if a < b {
      DaysBeforeYearStep(a);
      DaysBeforeYearMonotone(a + 1, b);
    }
  }

  /** The months of a year tile it without gaps. */
  lemma MonthBounds(y: int, m: int)
    requires 1 <= m <= 12
    ensures m < 12 ==> DaysBeforeMonth(y, m + 1) == DaysBeforeMonth(y, m) + DaysInMonth(y, m)
    ensures DaysBeforeMonth(y, m) + DaysInMonth(y, m) <= DaysInYear(y)
    ensures m == 12 ==> DaysBeforeMonth(y, m) + DaysInMonth(y, m) == DaysInYear(y)
  {
  }

  lemma MonthMonotone(y: int, a: int, b: int)
    requires 1 <= a < b <= 12
    ensures DaysBeforeMonth(y, a) + DaysInMonth(y, a) <= DaysBeforeMonth(y, b)
  {
  }

  // ---------------------------------------------------------------------------
  // Ordinals agree with the calendar order

  /** Ordinal order and lexicographic date order coincide. */
  lemma OrdinalOrder(a: Date, b: Date)
    requires ValidDate(a) && ValidDate(b)
    ensures DateBefore(a, b) <==> Ordinal(a) < Ordinal(b)
  {
    if DateBefore(a, b) {
      OrdinalLess(a, b);
    } else if a != b {
      OrdinalLess(b, a);
    }
  }

  lemma OrdinalLess(a: Date, b: Date)
    requires ValidDate(a) && ValidDate(b) && DateBefore(a, b)
    ensures Ordinal(a) < Ordinal(b)
  {
    if a.year < b.year {
      DaysBeforeYearMonotone(a.year + 1, b.year);
    } else if a.month < b.month {
      MonthMonotone(a.year, a.month, b.month);
    }
  }

  /** Distinct dates have distinct ordinals. */
  lemma OrdinalInjective(a: Date, b: Date)
    requires ValidDate(a) && ValidDate(b) && Ordinal(a) == Ordinal(b)
    ensures a == b
  {
    OrdinalOrder(a, b);
    OrdinalOrder(b, a);
  }

  lemma OrdinalNotAfter(a: Date, b: Date)
    requires ValidDate(a) && ValidDate(b) && Ordinal(a) <= Ordinal(b)
    ensures a == b || DateBefore(a, b)
  {
    OrdinalOrder(a, b);
    if Ordinal(a) == Ordinal(b) {
      OrdinalInjective(a, b);
    }
  }

  /** `fromordinal(toordinal(d)) == d`. */
  lemma FromOrdinalOrdinal(d: Date)
    requires ValidDate(d)
    ensures FromOrdinal(Ordinal(d)) == d
  {
    OrdinalInjective(FromOrdinal(Ordinal(d)), d);
  }

  /** The weekday depends on the ordinal alone. */
  lemma WeekdayAt(d: Date, n: int)
    requires ValidDate(d) && Ordinal(d) == n
    ensures Weekday(d) == (n + 6) % 7
  {
  }

  /** Among numbers that are 1 modulo 7, the greatest one not above `o` is `MondayOrdinal(o)`. */
  lemma MondayOrdinalIsGreatest(x: int, o: int)
    requires 1 <= x <= o <= MaxOrdinal && (x + 6) % 7 == 0
    ensures x <= MondayOrdinal(o)
  {
  }

  /** Every Monday on or before `d` is on or before `MondayOf(d)`. */
  lemma MondayOfIsGreatest(b: Date, d: Date)
    requires ValidDate(b) && ValidDate(d) && Weekday(b) == 0 && Ordinal(b) <= Ordinal(d)
    ensures Ordinal(b) <= Ordinal(MondayOf(d))
  {
    WeekdayAt(b, Ordinal(b));
    MondayOrdinalIsGreatest(Ordinal(b), Ordinal(d));
  }
}
