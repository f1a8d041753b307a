/**
 * Proleptic Gregorian calendar as Python's `datetime.date` has it (years 1 to
 * 9999), with day numbers counted like `date.toordinal()` and instants as
 * integer microseconds since 1970-01-01T00:00:00 UTC.
 */
module Calendar {

  datatype Date = Date(year: int, month: int, day: int)

  /** A calendar month, the value `TruncMonth` keeps of an instant. */
  datatype YearMonth = YearMonth(year: int, month: int)

  const MinYear: int := 1
  const MaxYear: int := 9999
  const MicrosPerDay: int := 86_400_000_000
  /** `date(1970, 1, 1).toordinal()` */
  const EpochOrdinal: int := 719_163

  predicate IsLeap(y: int)
  {
    y % 4 == 0 && (y % 100 != 0 || y % 400 == 0)
  }

  function DaysInMonth(y: int, m: int): int
  {
    if m == 2 then (if IsLeap(y) then 29 else 28)
    else if m == 4 || m == 6 || m == 9 || m == 11 then 30
    else 31
  }

  function DaysInYear(y: int): int
  {
    if IsLeap(y) then 366 else 365
  }

  predicate ValidDate(d: Date)
  {
    MinYear <= d.year <= MaxYear && 1 <= d.month <= 12 && 1 <= d.day <= DaysInMonth(d.year, d.month)
  }

  predicate ValidYearMonth(ym: YearMonth)
  {
    MinYear <= ym.year <= MaxYear && 1 <= ym.month <= 12
  }

  /** Days in the years 1 .. y-1. */
  function DaysBeforeYear(y: int): int
  {
    var p := y - 1;
    365 * p + p / 4 - p / 100 + p / 400
  }

  /** Days in the months 1 .. m-1 of year y (m = 13 gives the whole year). */
  function DaysBeforeMonth(y: int, m: int): int
  {
    (if m > 2 && IsLeap(y) then 1 else 0)
    + (if m <= 1 then 0 else if m == 2 then 31 else if m == 3 then 59
       else if m == 4 then 90 else if m == 5 then 120 else if m == 6 then 151
       else if m == 7 then 181 else if m == 8 then 212 else if m == 9 then 243
       else if m == 10 then 273 else if m == 11 then 304 else if m == 12 then 334
       else 365)
  }

  /** `date.toordinal()`: 0001-01-01 is day 1. */
  function Ordinal(d: Date): int
  {
    DaysBeforeYear(d.year) + DaysBeforeMonth(d.year, d.month) + d.day
  }

  /** Days since 1970-01-01 (negative before it). */
  function DaysFromCivil(d: Date): int
  {
    Ordinal(d) - EpochOrdinal
  }

  /** Python's `date < date`: by year, then month, then day. */
  predicate DateLess(a: Date, b: Date)
  {
    a.year < b.year
    || (a.year == b.year && a.month < b.month)
    || (a.year == b.year && a.month == b.month && a.day < b.day)
  }

  function NextDay(d: Date): Date
  {
    if d.day < DaysInMonth(d.year, d.month) then Date(d.year, d.month, d.day + 1)
    else if d.month < 12 then Date(d.year, d.month + 1, 1)
    else Date(d.year + 1, 1, 1)
  }

  // ---------------------------------------------------------------------------
  // Day counting

  /** Quotient and remainder of Euclidean division are unique. */
  lemma DivUnique(a: int, k: int, q: int, r: int)
    requires k > 0 && a == q * k + r && 0 <= r < k
    ensures a / k == q && a % k == r
  {
    var q', r' := a / k, a % k;
    assert (q' - q) * k == r - r';
    if q' > q {
      MulAtLeast(q' - q, k);
    } else if q' < q {
      MulAtLeast(q - q', k);
    }
  }

  lemma {:induction false} MulAtLeast(x: int, k: int)
    requires x >= 1 && k > 0
    ensures x * k >= k
    decreases x
  {
    if x > 1 {
      MulAtLeast(x - 1, k);
      assert x * k == (x - 1) * k + k;
    }
  }

  /** Counting multiples of k: one more exactly when p + 1 is a multiple. */
  lemma DivStep(p: int, k: int)
    requires k > 0
    ensures (p + 1) / k == p / k + (if (p + 1) % k == 0 then 1 else 0)
  {
    var q, r := p / k, p % k;
    if r + 1 < k {
      DivUnique(p + 1, k, q, r + 1);
    } else {
      DivUnique(p + 1, k, q + 1, 0);
    }
  }

  lemma YearStep(y: int)
    ensures DaysBeforeYear(y + 1) == DaysBeforeYear(y) + DaysInYear(y)
  {
    DivStep(y - 1, 4);
    DivStep(y - 1, 100);
    DivStep(y - 1, 400);
  }

  lemma MonthStep(y: int, m: int)
    requires 1 <= m <= 12
    ensures DaysBeforeMonth(y, m + 1) == DaysBeforeMonth(y, m) + DaysInMonth(y, m)
  {
  }

  /** Whole years in between push later years further along. */
  lemma {:induction false} YearsMonotone(y1: int, y2: int)
    requires y1 < y2
    ensures DaysBeforeYear(y1) + DaysInYear(y1) <= DaysBeforeYear(y2)
    decreases y2 - y1
  {
    YearStep(y1);
    if y1 + 1 < y2 {
      YearsMonotone(y1 + 1, y2);
    }
  }

  /** Days before month m2 include all of an earlier month m1. */
  lemma MonthsMonotone(y: int, m1: int, m2: int)
    requires 1 <= m1 < m2 <= 13
    ensures DaysBeforeMonth(y, m1) + DaysInMonth(y, m1) <= DaysBeforeMonth(y, m2)
  {
  }

  /** The day of a valid date lies inside its year. */
  lemma DayOfYearBounds(d: Date)
    requires ValidDate(d)
    ensures 1 <= DaysBeforeMonth(d.year, d.month) + d.day <= DaysInYear(d.year)
  {
    MonthsMonotone(d.year, d.month, 13);
  }

  /** The next day is one day number later, and valid unless d is 9999-12-31. */
  lemma NextDayStep(d: Date)
    requires ValidDate(d)
    ensures DaysFromCivil(NextDay(d)) == DaysFromCivil(d) + 1
    ensures d != Date(MaxYear, 12, 31) ==> ValidDate(NextDay(d))
  {
    if d.day < DaysInMonth(d.year, d.month) {
    } else if d.month < 12 {
      MonthStep(d.year, d.month);
    } else {
      YearStep(d.year);
    }
  }

  /** Calendar order and day-number order agree on valid dates, in both directions. */
  lemma DateLessIffDays(a: Date, b: Date)
    requires ValidDate(a) && ValidDate(b)
    ensures DateLess(a, b) <==> DaysFromCivil(a) < DaysFromCivil(b)
  {
    DayOfYearBounds(a);
    DayOfYearBounds(b);
    if a.year < b.year {
      YearsMonotone(a.year, b.year);
    } else if b.year < a.year {
      YearsMonotone(b.year, a.year);
    } else if a.month < b.month {
      MonthsMonotone(a.year, a.month, b.month);
    } else if b.month < a.month {
      MonthsMonotone(a.year, b.month, a.month);
    }
  }

  /** Distinct valid dates have distinct day numbers. */
  lemma DaysInjective(a: Date, b: Date)
    requires ValidDate(a) && ValidDate(b) && DaysFromCivil(a) == DaysFromCivil(b)
    ensures a == b
  {
    DateLessIffDays(a, b);
    DateLessIffDays(b, a);
  }

  // ---------------------------------------------------------------------------
  // From day numbers back to dates

  const MinOrdinal: int := 1
  /** `date(9999, 12, 31).toordinal()` */
  const MaxOrdinal: int := 3_652_059

  /** The ordinal constants are those of the dates they name. */
  lemma EpochOrdinalValue()
    ensures Ordinal(Date(1970, 1, 1)) == EpochOrdinal
  {
  }

  lemma MinOrdinalValue()
    ensures Ordinal(Date(MinYear, 1, 1)) == MinOrdinal
  {
  }

  lemma MaxOrdinalValue()
    ensures Ordinal(Date(MaxYear, 12, 31)) == MaxOrdinal
  {
  }

  /** The year whose days contain ordinal n, searching upwards from y. */
  function FindYear(n: int, y: int): (r: int)
    requires MinYear <= y <= MaxYear && DaysBeforeYear(y) < n
    ensures y <= r <= MaxYear && DaysBeforeYear(r) < n
    ensures r == MaxYear || n <= DaysBeforeYear(r + 1)
    decreases MaxYear - y
  {
    if y == MaxYear || n <= DaysBeforeYear(y + 1) then y else FindYear(n, y + 1)
  }

  /** The month whose days contain day k of year y, searching upwards from m. */
  function FindMonth(y: int, k: int, m: int): (r: int)
    requires 1 <= m <= 12 && DaysBeforeMonth(y, m) < k
    ensures m <= r <= 12 && DaysBeforeMonth(y, r) < k
    ensures r == 12 || k <= DaysBeforeMonth(y, r + 1)
    decreases 12 - m
  {
    if m == 12 || k <= DaysBeforeMonth(y, m + 1) then m else FindMonth(y, k, m + 1)
  }

  /** `date.fromordinal(n)`, for ordinals of years 1 to 9999. */
  function CivilFromOrdinal(n: int): (d: Date)
    requires MinOrdinal <= n <= MaxOrdinal
    ensures ValidDate(d) && Ordinal(d) == n
  {
    var y := FindYear(n, MinYear);
    YearStep(y);
    var k := n - DaysBeforeYear(y);
    var m := FindMonth(y, k, 1);
    MonthStep(y, m);
    Date(y, m, k - DaysBeforeMonth(y, m))
  }

  /** The first instant (UTC wall clock) of a calendar day. */
  function DayStart(d: Date): int
  {
    DaysFromCivil(d) * MicrosPerDay
  }

  function FirstOfMonth(ym: YearMonth): Date
  {
    Date(ym.year, ym.month, 1)
  }

  function NextMonth(ym: YearMonth): YearMonth
  {
    if ym.month < 12 then YearMonth(ym.year, ym.month + 1) else YearMonth(ym.year + 1, 1)
  }

  /** Wall-clock instants whose day lies in years 1 to 9999. */
  predicate WallClockInRange(local: int)
  {
    MinOrdinal <= local / MicrosPerDay + EpochOrdinal <= MaxOrdinal
  }

  /**
   * The calendar month of a wall-clock instant (microseconds, in the zone's
   * own time), the truncation `TruncMonth` performs.
   */
  function MonthOfWallClock(local: int): (ym: YearMonth)
    requires WallClockInRange(local)
    ensures ValidYearMonth(ym)
  {
    MonthOfDayNumber(local / MicrosPerDay)
  }

  /** The calendar month of a day numbered from 1970-01-01. */
  function MonthOfDayNumber(days: int): (ym: YearMonth)
    requires MinOrdinal <= days + EpochOrdinal <= MaxOrdinal
    ensures ValidYearMonth(ym)
  {
    var d := CivilFromOrdinal(days + EpochOrdinal);
    YearMonth(d.year, d.month)
  }

  lemma MonthStartStep(ym: YearMonth)
    requires ValidYearMonth(ym)
    ensures DaysFromCivil(FirstOfMonth(NextMonth(ym)))
         == DaysFromCivil(FirstOfMonth(ym)) + DaysInMonth(ym.year, ym.month)
  {
    if ym.month < 12 {
      MonthStep(ym.year, ym.month);
    } else {
      YearStep(ym.year);
    }
  }

  /** The wall-clock instant lies in month `ym`: from its first instant up to the next month's. */
  predicate InMonth(local: int, ym: YearMonth)
  {
    DayStart(FirstOfMonth(ym)) <= local < DayStart(FirstOfMonth(NextMonth(ym)))
  }

  /** A day has started by `local` exactly when its number is at most the day number of `local`. */
  lemma DayStartIff(d: Date, local: int)
    ensures DayStart(d) <= local <==> DaysFromCivil(d) <= local / MicrosPerDay
  {
    var q, r := local / MicrosPerDay, local % MicrosPerDay;
    assert local == q * MicrosPerDay + r;
  }

  /** A day of month `ym` lies within that month's days. */
  lemma DayWithinItsMonth(days: int, ym: YearMonth)
    requires MinOrdinal <= days + EpochOrdinal <= MaxOrdinal && ValidYearMonth(ym)
    requires MonthOfDayNumber(days) == ym
    ensures DaysFromCivil(FirstOfMonth(ym)) <= days < DaysFromCivil(FirstOfMonth(ym)) + DaysInMonth(ym.year, ym.month)
  {
    var d := CivilFromOrdinal(days + EpochOrdinal);
    assert DaysFromCivil(d) == days;
    assert d.year == ym.year && d.month == ym.month;
    assert DaysFromCivil(d) == DaysFromCivil(FirstOfMonth(ym)) + d.day - 1;
  }

  /** A day within month `ym`'s days belongs to `ym`. */
  lemma WindowDayInMonth(days: int, ym: YearMonth)
    requires MinOrdinal <= days + EpochOrdinal <= MaxOrdinal && ValidYearMonth(ym)
    requires DaysFromCivil(FirstOfMonth(ym)) <= days < DaysFromCivil(FirstOfMonth(ym)) + DaysInMonth(ym.year, ym.month)
    ensures MonthOfDayNumber(days) == ym
  {
    var d := CivilFromOrdinal(days + EpochOrdinal);
    assert DaysFromCivil(d) == days;
    var first := FirstOfMonth(ym);
    var e := Date(ym.year, ym.month, days - DaysFromCivil(first) + 1);
    assert ValidDate(e) && DaysFromCivil(e) == days;
    DaysInjective(d, e);
  }

  /** The month of day number `days` is `ym` exactly when the day lies within that month's days. */
  lemma MonthOfDay(days: int, ym: YearMonth)
    requires MinOrdinal <= days + EpochOrdinal <= MaxOrdinal && ValidYearMonth(ym)
    ensures MonthOfDayNumber(days) == ym
      <==> DaysFromCivil(FirstOfMonth(ym)) <= days < DaysFromCivil(FirstOfMonth(ym)) + DaysInMonth(ym.year, ym.month)
  {
    if MonthOfDayNumber(days) == ym {
      DayWithinItsMonth(days, ym);
    }
    if DaysFromCivil(FirstOfMonth(ym)) <= days < DaysFromCivil(FirstOfMonth(ym)) + DaysInMonth(ym.year, ym.month) {
      WindowDayInMonth(days, ym);
    }
  }

  /**
   * Truncation to the month: an instant's month is `ym` exactly when the
   * instant lies between the first instant of `ym` and the first instant of
   * the month after it.
   */
  lemma MonthOfWallClockSpec(local: int, ym: YearMonth)
    requires WallClockInRange(local) && ValidYearMonth(ym)
    ensures MonthOfWallClock(local) == ym <==> InMonth(local, ym)
  {
    var days := local / MicrosPerDay;
    var first, next := FirstOfMonth(ym), FirstOfMonth(NextMonth(ym));
    MonthStartStep(ym);
    DayStartIff(first, local);
    DayStartIff(next, local);
    assert InMonth(local, ym) <==> DaysFromCivil(first) <= days < DaysFromCivil(next);
    MonthOfDay(days, ym);
  }
}
