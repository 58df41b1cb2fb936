/** Proleptic Gregorian calendar arithmetic as Python's `calendar` and
    `datetime` modules perform it: leap years, month lengths, the month
    before and after, the following day, day ordinals and weekdays
    (Monday = 0 ... Sunday = 6). */
module Dates {

  /** A `datetime.date` value; whether it is one Python can build is `IsValidDate`. */
  datatype Date = Date(year: int, month: int, day: int)

  /** `datetime.MINYEAR` and `datetime.MAXYEAR`. */
  const MinYear: int := 1
  const MaxYear: int := 9999

  /** `calendar.isleap`. */
  predicate IsLeapYear(y: int) {
    y % 4 == 0 && (y % 100 != 0 || y % 400 == 0)
  }

  /** `calendar.monthrange(y, m)[1]`: the number of days of month m. */
  function DaysInMonth(y: int, m: int): (n: int)
    requires 1 <= m <= 12
    ensures 28 <= n <= 31
    ensures m == 2 ==> (n == 29 <==> IsLeapYear(y))
    ensures m != 2 ==> (n == 30 <==> m == 4 || m == 6 || m == 9 || m == 11)
    ensures m == 2 && !IsLeapYear(y) ==> n == 28
    ensures m == 1 || m == 3 || m == 5 || m == 7 || m == 8 || m == 10 || m == 12 ==> n == 31
  {
    if m == 2 then (if IsLeapYear(y) then 29 else 28)
    else if m == 4 || m == 6 || m == 9 || m == 11 then 30
    else 31
  }

  /** The dates `datetime.date(year, month, day)` accepts without raising `ValueError`. */
  predicate IsValidDate(d: Date) {
    && MinYear <= d.year <= MaxYear
    && 1 <= d.month <= 12
    && 1 <= d.day <= DaysInMonth(d.year, d.month)
  }

  /** The month before (year, month), wrapping January to December of the year before. */
  function PrevMonth(year: int, month: int): (r: (int, int))
    requires 1 <= month <= 12
    ensures 1 <= r.1 <= 12
    ensures NextMonth(r.0, r.1) == (year, month)
  {
    if month > 1 then (year, month - 1) else (year - 1, 12)
  }

  /** The month after (year, month), wrapping December to January of the year after. */
  function NextMonth(year: int, month: int): (r: (int, int))
    requires 1 <= month <= 12
    ensures 1 <= r.1 <= 12
    ensures month < 12 ==> r == (year, month + 1)
    ensures month == 12 ==> r == (year + 1, 1)
  {
    if month < 12 then (year, month + 1) else (year + 1, 1)
  }

  /** The day after d in the calendar. */
  function NextDay(d: Date): (r: Date)
    requires 1 <= d.month <= 12
    ensures 1 <= r.month <= 12
    ensures d.day < DaysInMonth(d.year, d.month) ==> r == d.(day := d.day + 1)
    ensures d.day >= DaysInMonth(d.year, d.month) ==>
              r == Date(NextMonth(d.year, d.month).0, NextMonth(d.year, d.month).1, 1)
  {
    if d.day < DaysInMonth(d.year, d.month) then d.(day := d.day + 1)
    else
      var (y, m) := NextMonth(d.year, d.month);
      Date(y, m, 1)
  }

  /** The day after a valid date is valid, unless it would leave year 9999. */
  lemma NextDayValid(d: Date)
    requires IsValidDate(d)
    requires !(d.year == MaxYear && d.month == 12 && d.day == 31)
    ensures IsValidDate(NextDay(d))
  {
  }

  /** Days in the years before `year` (`_days_before_year` of `datetime`). */
  function DaysBeforeYear(year: int): int
    requires year >= 1
  {
    var p := year - 1;
    p * 365 + p / 4 - p / 100 + p / 400
  }

  /** Days in the months of `year` before `month` (`_days_before_month`). */
  function DaysBeforeMonth(year: int, month: int): int
    requires 1 <= month <= 12
  {
    if month == 1 then 0 else DaysBeforeMonth(year, month - 1) + DaysInMonth(year, month - 1)
  }

  /** `date.toordinal()`: 1 for 0001-01-01, one more for every following day. */
  function Ordinal(d: Date): int
    requires d.year >= 1 && 1 <= d.month <= 12
  {
    DaysBeforeYear(d.year) + DaysBeforeMonth(d.year, d.month) + d.day
  }

  /** `date.weekday()`: Monday = 0 ... Sunday = 6. */
  function Weekday(d: Date): (w: int)
    requires d.year >= 1 && 1 <= d.month <= 12
    ensures 0 <= w < 7
  {
    (Ordinal(d) + 6) % 7
  }

  /** `calendar.weekday(year, month, day)`: a year outside 1..9999 is first
      replaced by 2000 + year % 400, which has the same leap pattern. */
  function CalendarWeekday(year: int, month: int, day: int): (w: int)
    requires 1 <= month <= 12
    ensures 0 <= w < 7
    ensures MinYear <= year <= MaxYear ==> w == Weekday(Date(year, month, day))
  {
    var y := if MinYear <= year <= MaxYear then year else 2000 + year % 400;
    Weekday(Date(y, month, day))
  }

  /** Within one month the weekday advances with the day of the month. */
  lemma CalendarWeekdayInMonth(year: int, month: int, day: int)
    requires 1 <= month <= 12
    ensures CalendarWeekday(year, month, day) == (CalendarWeekday(year, month, 1) + day - 1) % 7
  {
  }

  /** One step of floor division by 4, 100 and 400: the quotient grows by one
      exactly when the divisor divides p + 1. */
  lemma DivStep(p: int)
    requires p >= 0
    ensures (p + 1) / 4 == p / 4 + (if (p + 1) % 4 == 0 then 1 else 0)
    ensures (p + 1) / 100 == p / 100 + (if (p + 1) % 100 == 0 then 1 else 0)
    ensures (p + 1) / 400 == p / 400 + (if (p + 1) % 400 == 0 then 1 else 0)
  {
  }

  /** A year has 365 days, 366 in a leap year. */
  lemma DaysBeforeNextYear(year: int)
    requires year >= 1
    ensures DaysBeforeYear(year + 1) == DaysBeforeYear(year) + 365 + (if IsLeapYear(year) then 1 else 0)
  {
    var p := year - 1;
    DivStep(p);
  }

  /** The months before December hold 334 days, 335 in a leap year. */
  lemma DaysBeforeDecember(year: int)
    ensures DaysBeforeMonth(year, 12) == 334 + (if IsLeapYear(year) then 1 else 0)
  {
    var leap := if IsLeapYear(year) then 1 else 0;
    assert DaysBeforeMonth(year, 2) == 31;
    assert DaysBeforeMonth(year, 3) == 59 + leap;
    assert DaysBeforeMonth(year, 4) == 90 + leap;
    assert DaysBeforeMonth(year, 5) == 120 + leap;
    assert DaysBeforeMonth(year, 6) == 151 + leap;
    assert DaysBeforeMonth(year, 7) == 181 + leap;
    assert DaysBeforeMonth(year, 8) == 212 + leap;
    assert DaysBeforeMonth(year, 9) == 243 + leap;
    assert DaysBeforeMonth(year, 10) == 273 + leap;
    assert DaysBeforeMonth(year, 11) == 304 + leap;
  }

  /** The ordinal of the following day is one more, across month and year ends. */
  lemma {:induction false} OrdinalNextDay(d: Date)
    requires d.year >= 1 && 1 <= d.month <= 12 && 1 <= d.day <= DaysInMonth(d.year, d.month)
    ensures Ordinal(NextDay(d)) == Ordinal(d) + 1
  {
    if d.day >= DaysInMonth(d.year, d.month) && d.month == 12 {
      DaysBeforeNextYear(d.year);
      DaysBeforeDecember(d.year);
    }
  }

  /** The weekday of the following day is the next weekday. */
  lemma WeekdayNextDay(d: Date)
    requires IsValidDate(d)
    ensures Weekday(NextDay(d)) == (Weekday(d) + 1) % 7
  {
    OrdinalNextDay(d);
    WeekdayStep(Ordinal(d), Ordinal(NextDay(d)));
  }

  lemma WeekdayStep(a: int, b: int)
    requires b == a + 1
    ensures (b + 6) % 7 == ((a + 6) % 7 + 1) % 7
  {
  }

  /** Day 1 of the proleptic Gregorian calendar, 0001-01-01, is a Monday. */
  lemma FirstDayIsMonday()
    ensures Weekday(Date(1, 1, 1)) == 0
  {
  }
}
