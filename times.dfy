/**
 * Wall-clock timestamps, as Go's `time.Time` reports them through `Date()`
 * (year, month, day) and `Clock()` (hour, minute, second) plus the
 * nanosecond. Zones are not modelled: a timestamp is the reading of a clock.
 */
module Times {

  datatype Timestamp = Timestamp(
    year: int, month: int, day: int,
    hour: int, minute: int, second: int,
    nanosecond: int)

  /** Gregorian leap years, as Go's calendar counts them. */
  predicate IsLeapYear(year: int) {
    year % 4 == 0 && (year % 100 != 0 || year % 400 == 0)
  }

  function DaysIn(year: int, month: int): (n: int)
    requires 1 <= month <= 12
    ensures 28 <= n <= 31
    ensures n == 29 <==> month == 2 && IsLeapYear(year)
  {
    if month == 2 then (if IsLeapYear(year) then 29 else 28)
    else if month == 4 || month == 6 || month == 9 || month == 11 then 30
    else 31
  }

  /** Every `time.Time` yields fields in these ranges. */
  predicate IsValid(t: Timestamp) {
    && 1 <= t.month <= 12
    && 1 <= t.day <= DaysIn(t.year, t.month)
    && 0 <= t.hour < 24
    && 0 <= t.minute < 60
    && 0 <= t.second < 60
    && 0 <= t.nanosecond < 1_000_000_000
  }

  /** A Go `time.Time` value; the zero time is 1 January of year 1. */
  type Time = t: Timestamp | IsValid(t) witness Timestamp(1, 1, 1, 0, 0, 0, 0)

  /** Same calendar day, as `Date()` reports it. */
  predicate SameDate(a: Timestamp, b: Timestamp) {
    a.year == b.year && a.month == b.month && a.day == b.day
  }

  /** Same time of day to the second, as `Clock()` reports it. */
  predicate SameClock(a: Timestamp, b: Timestamp) {
    a.hour == b.hour && a.minute == b.minute && a.second == b.second
  }
}
