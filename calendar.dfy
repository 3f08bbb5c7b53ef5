/**
 * The naive `datetime` values the core works with, and the range checks that Python's
 * `datetime(year, month, day, hour, minute, second)` constructor applies before it
 * builds one.
 */
module Calendar {
  import opened Wrappers

  datatype DateTime = DateTime(year: int, month: int, day: int, hour: int, minute: int, second: int)

  const MinYear: int := 1
  const MaxYear: int := 9999

  predicate IsLeapYear(y: int) {
    y % 4 == 0 && (y % 100 != 0 || y % 400 == 0)
  }

  function DaysInMonth(y: int, m: int): (n: int)
    requires 1 <= m <= 12
    ensures 28 <= n <= 31
  {
    if m == 2 then (if IsLeapYear(y) then 29 else 28)
    else if m == 4 || m == 6 || m == 9 || m == 11 then 30
    else 31
  }

  predicate YearInRange(t: DateTime) { MinYear <= t.year <= MaxYear }
  predicate MonthInRange(t: DateTime) { 1 <= t.month <= 12 }
  predicate DayInRange(t: DateTime) requires MonthInRange(t) { 1 <= t.day <= DaysInMonth(t.year, t.month) }
  predicate HourInRange(t: DateTime) { 0 <= t.hour <= 23 }
  predicate MinuteInRange(t: DateTime) { 0 <= t.minute <= 59 }
  predicate SecondInRange(t: DateTime) { 0 <= t.second <= 59 }

  /** The values the constructor accepts: a real calendar day and a time of day to the second. */
  predicate IsValid(t: DateTime) {
    && YearInRange(t) && MonthInRange(t) && DayInRange(t)
    && HourInRange(t) && MinuteInRange(t) && SecondInRange(t)
  }

  /** A value the constructor has accepted. */
  type Timestamp = t: DateTime | IsValid(t) witness DateTime(1, 1, 1, 0, 0, 0)

  /** The `ValueError` the constructor raises, one per check, in the order it checks. */
  datatype CalendarError =
    | YearOutOfRange(year: int)
    | MonthOutOfRange
    | DayOutOfRange
    | HourOutOfRange
    | MinuteOutOfRange
    | SecondOutOfRange
  {
    /** The exception's text, as CPython 3.12 words it. */
    function Message(): string {
      match this
      case YearOutOfRange(y) => "year " + IntText(y) + " is out of range"
      case MonthOutOfRange => "month must be in 1..12"
      case DayOutOfRange => "day is out of range for month"
      case HourOutOfRange => "hour must be in 0..23"
      case MinuteOutOfRange => "minute must be in 0..59"
      case SecondOutOfRange => "second must be in 0..59"
    }

    /** The check this error reports fails on `t`. */
    predicate FailsOn(t: DateTime) {
      match this
      case YearOutOfRange(y) => y == t.year && !YearInRange(t)
      case MonthOutOfRange => !MonthInRange(t)
      case DayOutOfRange => MonthInRange(t) && !DayInRange(t)
      case HourOutOfRange => !HourInRange(t)
      case MinuteOutOfRange => !MinuteInRange(t)
      case SecondOutOfRange => !SecondInRange(t)
    }

    /** Every check made before this one passes on `t`. */
    predicate EarlierChecksPass(t: DateTime) {
      match this
      case YearOutOfRange(_) => true
      case MonthOutOfRange => YearInRange(t)
      case DayOutOfRange => YearInRange(t) && MonthInRange(t)
      case HourOutOfRange => YearInRange(t) && MonthInRange(t) && DayInRange(t)
      case MinuteOutOfRange => YearInRange(t) && MonthInRange(t) && DayInRange(t) && HourInRange(t)
      case SecondOutOfRange =>
        YearInRange(t) && MonthInRange(t) && DayInRange(t) && HourInRange(t) && MinuteInRange(t)
    }
  }

  /** Decimal text of an integer, with a leading minus sign when negative. */
  function IntText(n: int): string {
    if n < 0 then "-" + NatText(-n) else NatText(n)
  }

  function NatText(n: nat): (s: string)
    ensures s != []
  {
    if n < 10 then [(('0' as int) + n) as char] else NatText(n / 10) + [(('0' as int) + n % 10) as char]
  }

  /**
   * `datetime(year, month, day, hour, minute, second)`: the value when every field is in
   * range, otherwise the error of the first check that fails.
   */
  function MakeTimestamp(year: int, month: int, day: int, hour: int, minute: int, second: int)
    : (r: Result<Timestamp, CalendarError>)
    ensures r.Ok? <==> IsValid(DateTime(year, month, day, hour, minute, second))
    ensures r.Ok? ==> r.value == DateTime(year, month, day, hour, minute, second)
    ensures r.Err? ==> r.error.FailsOn(DateTime(year, month, day, hour, minute, second))
    ensures r.Err? ==> r.error.EarlierChecksPass(DateTime(year, month, day, hour, minute, second))
  {
    var t := DateTime(year, month, day, hour, minute, second);
    if !YearInRange(t) then Err(YearOutOfRange(year))
    else if !MonthInRange(t) then Err(MonthOutOfRange)
    else if !DayInRange(t) then Err(DayOutOfRange)
    else if !HourInRange(t) then Err(HourOutOfRange)
    else if !MinuteInRange(t) then Err(MinuteOutOfRange)
    else if !SecondInRange(t) then Err(SecondOutOfRange)
    else Ok(t)
  }
}
