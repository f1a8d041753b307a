/**
 * `convert_date_to_utc` (sales/utils/helpers.py): a calendar date anchored at
 * `time.min` or `time.max` of the active time zone, expressed as a UTC
 * instant. The zone is given by its UTC offset at that date, in microseconds
 * east of UTC (Europe/Sofia in September: +3 h; America/Los_Angeles: -7 h).
 */
module Helpers {
  import opened Wrappers
  import opened Calendar

  /** `time.max` is 23:59:59.999999: one microsecond before the next midnight. */
  const TimeMaxMicros: int := MicrosPerDay - 1

  /** The smallest and largest instants a Python `datetime` can hold in UTC. */
  const MinInstant: int := DayStart(Date(MinYear, 1, 1))
  const MaxInstant: int := DayStart(Date(MaxYear, 12, 31)) + TimeMaxMicros

  /** `astimezone` raises when the UTC result leaves years 1 to 9999. */
  datatype ConversionError = OverflowError

  /** `datetime.combine(date, time.min)` or `datetime.combine(date, time.max)` on the wall clock. */
  function LocalAnchor(d: Date, isEndOfDay: bool): int
  {
    DayStart(d) + (if isEndOfDay then TimeMaxMicros else 0)
  }

  /** The UTC instant whose wall-clock reading in the zone is the anchor. */
  function UtcAnchor(d: Date, isEndOfDay: bool, offset: int): int
  {
    LocalAnchor(d, isEndOfDay) - offset
  }

  /**
   * `convert_date_to_utc(date, is_end_of_day)`: read back on the zone's wall
   * clock, a result falls on `d` itself, at 00:00:00.000000 or at
   * 23:59:59.999999; the conversion fails only when that instant is not a
   * `datetime` in UTC.
   */
  function ConvertDateToUtc(d: Date, isEndOfDay: bool, offset: int): (r: Result<int, ConversionError>)
    requires ValidDate(d)
    ensures r.Ok? <==> MinInstant <= UtcAnchor(d, isEndOfDay, offset) <= MaxInstant
    ensures r.Ok? ==> (r.value + offset) / MicrosPerDay == DaysFromCivil(d)
    ensures r.Ok? ==> (r.value + offset) % MicrosPerDay == (if isEndOfDay then TimeMaxMicros else 0)
  {
    var u := UtcAnchor(d, isEndOfDay, offset);
    if MinInstant <= u <= MaxInstant then Ok(u) else Err(OverflowError)
  }

  /**
   * One day's window: the start comes before the end, and the next day starts
   * exactly one microsecond after this day ends.
   */
  lemma DayWindow(d: Date, offset: int)
    requires ValidDate(d)
    ensures UtcAnchor(d, false, offset) < UtcAnchor(d, true, offset)
    ensures UtcAnchor(NextDay(d), false, offset) == UtcAnchor(d, true, offset) + 1
  {
    NextDayStep(d);
  }

  /** Both anchors grow strictly with the date, and only with it. */
  lemma AnchorsIncreasing(a: Date, b: Date, isEndOfDay: bool, offset: int)
    requires ValidDate(a) && ValidDate(b)
    ensures DateLess(a, b) <==> UtcAnchor(a, isEndOfDay, offset) < UtcAnchor(b, isEndOfDay, offset)
  {
    DateLessIffDays(a, b);
  }

  /**
   * A range check on calendar dates is the same as one on the UTC window:
   * `start > end` exactly when the start-of-day of `start` comes after the
   * end-of-day of `end`.
   */
  lemma WindowEmptyIff(start: Date, end: Date, offset: int)
    requires ValidDate(start) && ValidDate(end)
    ensures DateLess(end, start) <==> UtcAnchor(start, false, offset) > UtcAnchor(end, true, offset)
  {
    DateLessIffDays(end, start);
    DateLessIffDays(start, end);
  }

  /** The calendar day, counted from 1970-01-01, on which the UTC instant `t` falls on the zone's clock. */
  function LocalDay(t: int, offset: int): int
  {
    (t + offset) / MicrosPerDay
  }

  /** `date_of_sale >= convert_date_to_utc(d)` keeps exactly the sales made on `d` or later, on the zone's calendar. */
  lemma StartOfDayIff(d: Date, offset: int, t: int)
    ensures t >= UtcAnchor(d, false, offset) <==> LocalDay(t, offset) >= DaysFromCivil(d)
  {
    var local, n := t + offset, DaysFromCivil(d);
    var q, r := local / MicrosPerDay, local % MicrosPerDay;
    assert local == q * MicrosPerDay + r;
  }

  /** `date_of_sale <= convert_date_to_utc(d, is_end_of_day=True)` keeps exactly the sales made on `d` or earlier. */
  lemma EndOfDayIff(d: Date, offset: int, t: int)
    ensures t <= UtcAnchor(d, true, offset) <==> LocalDay(t, offset) <= DaysFromCivil(d)
  {
    var local, n := t + offset, DaysFromCivil(d);
    var q, r := local / MicrosPerDay, local % MicrosPerDay;
    assert local == q * MicrosPerDay + r;
  }
}
