/** Date-times as `java.time.LocalDateTime` holds them once a schedule cell is parsed: the
    proleptic Gregorian calendar at minute precision, their ordering and their day of the week. */
module Calendar {

  datatype DayOfWeek = Monday | Tuesday | Wednesday | Thursday | Friday | Saturday | Sunday

  /** Position of the day in the ISO week, Monday first (`DayOfWeek.ordinal`). */
  function DayIndex(d: DayOfWeek): nat {
    match d
    case Monday => 0
    case Tuesday => 1
    case Wednesday => 2
    case Thursday => 3
    case Friday => 4
    case Saturday => 5
    case Sunday => 6
  }

  function DayFromIndex(i: nat): (d: DayOfWeek)
    requires i < 7
    ensures DayIndex(d) == i
  {
    [Monday, Tuesday, Wednesday, Thursday, Friday, Saturday, Sunday][i]
  }

  /** The day that follows `d` in the week (`DayOfWeek.plus(1)`). */
  function Succ(d: DayOfWeek): DayOfWeek {
    DayFromIndex((DayIndex(d) + 1) % 7)
  }

  datatype DateTime = DateTime(year: int, month: int, day: int, hour: int, minute: int)

  const MinYear: int := -999_999_999
  const MaxYear: int := 999_999_999

  predicate IsLeapYear(y: int) {
    y % 4 == 0 && (y % 100 != 0 || y % 400 == 0)
  }

  function DaysInMonth(y: int, m: int): int {
    if m == 2 then (if IsLeapYear(y) then 29 else 28)
    else if m == 4 || m == 6 || m == 9 || m == 11 then 30
    else 31
  }

  predicate ValidDate(y: int, m: int, d: int) {
    MinYear <= y <= MaxYear && 1 <= m <= 12 && 1 <= d <= DaysInMonth(y, m)
  }

  predicate Valid(dt: DateTime) {
    ValidDate(dt.year, dt.month, dt.day) && 0 <= dt.hour < 24 && 0 <= dt.minute < 60
  }

  /** The values a `LocalDateTime` can hold (seconds and nanoseconds are always zero here). */
  type LocalDateTime = dt: DateTime | Valid(dt) witness DateTime(1970, 1, 1, 0, 0)

  /** Days in the months of year `y` before month `m`. */
  function DaysBeforeMonth(y: int, m: int): int {
    var leapDay := if IsLeapYear(y) && m > 2 then 1 else 0;
    leapDay +
    (if m <= 1 then 0 else if m == 2 then 31 else if m == 3 then 59 else if m == 4 then 90
     else if m == 5 then 120 else if m == 6 then 151 else if m == 7 then 181
     else if m == 8 then 212 else if m == 9 then 243 else if m == 10 then 273
     else if m == 11 then 304 else 334)
  }

  /** Number of days from 0001-01-01 to the given date (negative before it). */
  function EpochDay(y: int, m: int, d: int): int {
    var py := y - 1;
    365 * py + py / 4 - py / 100 + py / 400 + DaysBeforeMonth(y, m) + d - 1
  }

  /** Day of the week of a date, counted from 0001-01-01, which was a Monday. */
  function DayOfWeekOfDate(y: int, m: int, d: int): DayOfWeek {
    DayFromIndex(EpochDay(y, m, d) % 7)
  }

  /** `LocalDateTime.getDayOfWeek`. */
  function DayOfWeekOf(dt: DateTime): DayOfWeek {
    DayOfWeekOfDate(dt.year, dt.month, dt.day)
  }

  datatype Date = Date(year: int, month: int, day: int)

  /** The calendar day after a valid date. */
  function Tomorrow(y: int, m: int, d: int): Date
    requires 1 <= m <= 12 && 1 <= d <= DaysInMonth(y, m)
  {
    if d < DaysInMonth(y, m) then Date(y, m, d + 1)
    else if m < 12 then Date(y, m + 1, 1)
    else Date(y + 1, 1, 1)
  }

  lemma DivisionStep(n: int)
    ensures n / 4 - (n - 1) / 4 == if n % 4 == 0 then 1 else 0
    ensures n / 100 - (n - 1) / 100 == if n % 100 == 0 then 1 else 0
    ensures n / 400 - (n - 1) / 400 == if n % 400 == 0 then 1 else 0
    ensures n % 400 == 0 ==> n % 100 == 0
    ensures n % 100 == 0 ==> n % 4 == 0
  {
  }

  /** The day count advances by exactly one from a date to the next, across month and year
      ends and leap days. */
  lemma EpochDayTomorrow(y: int, m: int, d: int)
    requires 1 <= m <= 12 && 1 <= d <= DaysInMonth(y, m)
    ensures var t := Tomorrow(y, m, d); EpochDay(t.year, t.month, t.day) == EpochDay(y, m, d) + 1
  {
    if d == DaysInMonth(y, m) {
      if m < 12 {
        DaysBeforeNextMonth(y, m);
      } else {
        EpochDayNewYear(y);
      }
    }
  }

  /** A month's days come between its start and the next month's. */
  lemma DaysBeforeNextMonth(y: int, m: int)
    requires 1 <= m < 12
    ensures DaysBeforeMonth(y, m + 1) == DaysBeforeMonth(y, m) + DaysInMonth(y, m)
  {
  }

  /** New Year's day follows the last day of December. */
  lemma EpochDayNewYear(y: int)
    ensures EpochDay(y + 1, 1, 1) == EpochDay(y, 12, 31) + 1
  {
    DivisionStep(y);
  }

  /** The day of the week of the next date is the next day of the week. */
  lemma DayOfWeekTomorrow(y: int, m: int, d: int)
    requires 1 <= m <= 12 && 1 <= d <= DaysInMonth(y, m)
    ensures var t := Tomorrow(y, m, d); DayOfWeekOfDate(t.year, t.month, t.day) == Succ(DayOfWeekOfDate(y, m, d))
  {
    EpochDayTomorrow(y, m, d);
    SuccOfIndex(EpochDay(y, m, d));
  }

  lemma SuccOfIndex(e: int)
    ensures DayFromIndex((e + 1) % 7) == Succ(DayFromIndex(e % 7))
  {
    assert (e + 1) % 7 == (e % 7 + 1) % 7;
  }

  /** 7 January 2019, the day of the schedule example, was a Monday. */
  lemma ExampleDayIsMonday()
    ensures DayOfWeekOfDate(2019, 1, 7) == Monday
  {
    assert EpochDay(2019, 1, 7) == 737065;
  }

  /** `LocalDateTime.compareTo`: year, month and day differences, then the sign of the hour and
      minute comparisons. */
  function CompareTo(a: DateTime, b: DateTime): int {
    if a.year != b.year then a.year - b.year
    else if a.month != b.month then a.month - b.month
    else if a.day != b.day then a.day - b.day
    else if a.hour != b.hour then (if a.hour < b.hour then -1 else 1)
    else if a.minute != b.minute then (if a.minute < b.minute then -1 else 1)
    else 0
  }

  /** `a` is strictly earlier than `b` in time. */
  predicate IsBefore(a: DateTime, b: DateTime) {
    || a.year < b.year
    || (a.year == b.year && a.month < b.month)
    || (a.year == b.year && a.month == b.month && a.day < b.day)
    || (a.year == b.year && a.month == b.month && a.day == b.day && a.hour < b.hour)
    || (a.year == b.year && a.month == b.month && a.day == b.day && a.hour == b.hour && a.minute < b.minute)
  }

  /** The comparison's sign is the chronological order. */
  lemma CompareToIsChronological(a: DateTime, b: DateTime)
    ensures CompareTo(a, b) < 0 <==> IsBefore(a, b)
    ensures CompareTo(a, b) > 0 <==> IsBefore(b, a)
    ensures CompareTo(a, b) == 0 <==> a == b
  {
  }
}
