/** The month grid the calendar is drawn from: `calendar.monthcalendar(year,
    month)` after `calendar.setfirstweekday(firstWeekday)`. The library lays
    out the days of the month as a stream (zeros for the weekdays before day
    1, the days 1..n, zeros to complete the last week) and cuts it into weeks
    of seven. Weekdays are numbered Monday = 0 ... Sunday = 6. */
module MonthGrid {
  import opened Dates

  /** The zeros before day 1: `(weekday(year, month, 1) - firstweekday) % 7`. */
  function Lead(year: int, month: int, firstWeekday: int): (n: nat)
    requires 1 <= month <= 12
    ensures n < 7
    ensures 0 <= firstWeekday < 7 ==> (firstWeekday + n) % 7 == CalendarWeekday(year, month, 1)
  {
    (CalendarWeekday(year, month, 1) - firstWeekday) % 7
  }

  /** The zeros after the last day: `(firstweekday - weekday(year, month, 1) - n) % 7`. */
  function Trail(year: int, month: int, firstWeekday: int): (n: nat)
    requires 1 <= month <= 12
    ensures n < 7
    ensures (Lead(year, month, firstWeekday) + DaysInMonth(year, month) + n) % 7 == 0
  {
    ModCancel(CalendarWeekday(year, month, 1) - firstWeekday, DaysInMonth(year, month));
    (firstWeekday - CalendarWeekday(year, month, 1) - DaysInMonth(year, month)) % 7
  }

  function Zeros(n: nat): (s: seq<int>)
    ensures |s| == n && forall k :: 0 <= k < n ==> s[k] == 0
  {
    if n == 0 then [] else Zeros(n - 1) + [0]
  }

  /** The days 1..n. */
  function DaysUpTo(n: nat): (s: seq<int>)
    ensures |s| == n && forall k :: 0 <= k < n ==> s[k] == k + 1
  {
    if n == 0 then [] else DaysUpTo(n - 1) + [n]
  }

  /** `Calendar.itermonthdays`: the month's days padded with zeros to whole weeks. */
  function MonthDays(year: int, month: int, firstWeekday: int): (s: seq<int>)
    requires 1 <= month <= 12
    ensures |s| == Lead(year, month, firstWeekday) + DaysInMonth(year, month) + Trail(year, month, firstWeekday)
    ensures forall p :: 0 <= p < |s| ==> s[p] == DayAt(Lead(year, month, firstWeekday), DaysInMonth(year, month), p)
  {
    var lead, n, trail := Lead(year, month, firstWeekday), DaysInMonth(year, month), Trail(year, month, firstWeekday);
    var s := Zeros(lead) + DaysUpTo(n) + Zeros(trail);
    assert forall p :: 0 <= p < |s| ==> s[p] == DayAt(lead, n, p) by {
      forall p | 0 <= p < |s|
        ensures s[p] == DayAt(lead, n, p)
      {
        if p < lead {
          assert s[p] == Zeros(lead)[p];
        } else if p < lead + n {
          assert s[p] == DaysUpTo(n)[p - lead];
        } else {
          assert s[p] == Zeros(trail)[p - lead - n];
        }
      }
    }
    s
  }

  /** Consecutive slices of seven. */
  function Weeks(s: seq<int>): (weeks: seq<seq<int>>)
    ensures |weeks| == |s| / 7
    ensures forall w :: 0 <= w < |weeks| ==> |weeks[w]| == 7
    decreases |s|
  {
    if |s| < 7 then [] else [s[..7]] + Weeks(s[7..])
  }

  /** `calendar.monthcalendar(year, month)`. */
  function MonthCalendar(year: int, month: int, firstWeekday: int): (grid: seq<seq<int>>)
    requires 1 <= month <= 12
    ensures 7 * |grid| == Lead(year, month, firstWeekday) + DaysInMonth(year, month) + Trail(year, month, firstWeekday)
    ensures forall w :: 0 <= w < |grid| ==> |grid[w]| == 7
  {
    Weeks(MonthDays(year, month, firstWeekday))
  }

  /** What sits at position p of the padded stream: the day p - lead + 1
      inside the month, 0 outside it. */
  function DayAt(lead: int, n: int, p: int): int
  {
    if lead <= p < lead + n then p - lead + 1 else 0
  }

  lemma {:induction false} WeeksAt(s: seq<int>, w: nat, c: nat)
    requires w < |s| / 7 && c < 7
    ensures 7 * w + c < |s| && Weeks(s)[w][c] == s[7 * w + c]
    decreases w
  {
    if w > 0 {
      WeeksAt(s[7..], w - 1, c);
    }
  }

  lemma ModCancel(a: int, n: int)
    ensures (a % 7 + n + (-a - n) % 7) % 7 == 0
  {
    assert a == 7 * (a / 7) + a % 7;
    assert -a - n == 7 * ((-a - n) / 7) + (-a - n) % 7;
    assert a % 7 + n + (-a - n) % 7 == 7 * (-(a / 7) - (-a - n) / 7);
  }

  /** The grid has whole weeks of seven days, as many as the month's days
      need after the leading zeros: between four and six. */
  lemma MonthCalendarShape(year: int, month: int, firstWeekday: int)
    requires 1 <= month <= 12
    ensures var grid, lead, n := MonthCalendar(year, month, firstWeekday), Lead(year, month, firstWeekday), DaysInMonth(year, month);
      && |grid| == (lead + n + 6) / 7
      && 4 <= |grid| <= 6
      && (forall w :: 0 <= w < |grid| ==> |grid[w]| == 7)
  {
  }

  /** Cell c of week w holds the day at position 7w + c of the padded stream. */
  lemma MonthCalendarCell(year: int, month: int, firstWeekday: int, w: nat, c: nat)
    requires 1 <= month <= 12
    requires w < |MonthCalendar(year, month, firstWeekday)| && c < 7
    ensures MonthCalendar(year, month, firstWeekday)[w][c]
         == DayAt(Lead(year, month, firstWeekday), DaysInMonth(year, month), 7 * w + c)
  {
    WeeksAt(MonthDays(year, month, firstWeekday), w, c);
  }

  /** Zeros sit only at the start of the first week and the end of the last:
      the first week's zeros are its first `Lead` cells, the last week's are
      the cells after the month's last day, and no other week has any. */
  lemma MonthCalendarZeros(year: int, month: int, firstWeekday: int, w: nat, c: nat)
    requires 1 <= month <= 12
    requires w < |MonthCalendar(year, month, firstWeekday)| && c < 7
    ensures var grid, lead, n := MonthCalendar(year, month, firstWeekday), Lead(year, month, firstWeekday), DaysInMonth(year, month);
      && (w == 0 ==> (grid[w][c] == 0 <==> c < lead))
      && (w == |grid| - 1 ==> (grid[w][c] == 0 <==> 7 * w + c >= lead + n))
      && (0 < w < |grid| - 1 ==> grid[w][c] != 0)
  {
    MonthCalendarShape(year, month, firstWeekday);
    MonthCalendarCell(year, month, firstWeekday, w, c);
  }

  /** Every day of the month appears, in the cell of its position in the
      padded stream. */
  lemma MonthCalendarDay(year: int, month: int, firstWeekday: int, day: int)
    requires 1 <= month <= 12
    requires 1 <= day <= DaysInMonth(year, month)
    ensures var p := Lead(year, month, firstWeekday) + day - 1;
      && p / 7 < |MonthCalendar(year, month, firstWeekday)|
      && MonthCalendar(year, month, firstWeekday)[p / 7][p % 7] == day
  {
    var grid := MonthCalendar(year, month, firstWeekday);
    var p := Lead(year, month, firstWeekday) + day - 1;
    PositionInWeeks(p, |grid|);
    MonthCalendarCell(year, month, firstWeekday, p / 7, p % 7);
  }

  /** A position inside whole weeks lies in week p / 7, column p % 7. */
  lemma PositionInWeeks(p: nat, weeks: nat)
    requires p < 7 * weeks
    ensures p / 7 < weeks && 7 * (p / 7) + p % 7 == p
  {
  }

  /** A day's column is its weekday counted from the first weekday. */
  lemma MonthCalendarWeekday(year: int, month: int, firstWeekday: int, w: nat, c: nat)
    requires 1 <= month <= 12 && 0 <= firstWeekday < 7
    requires w < |MonthCalendar(year, month, firstWeekday)| && c < 7
    requires MonthCalendar(year, month, firstWeekday)[w][c] != 0
    ensures CalendarWeekday(year, month, MonthCalendar(year, month, firstWeekday)[w][c]) == (firstWeekday + c) % 7
  {
    var d1 := CalendarWeekday(year, month, 1);
    var lead := Lead(year, month, firstWeekday);
    var day := MonthCalendar(year, month, firstWeekday)[w][c];
    assert day == 7 * w + c - lead + 1 by {
      MonthCalendarCell(year, month, firstWeekday, w, c);
    }
    CalendarWeekdayInMonth(year, month, day);
    assert 0 <= d1 < 7;
    assert (firstWeekday + lead) % 7 == d1;
    WeekdayColumn(d1, firstWeekday, lead, w, c, day);
  }

  lemma WeekdayColumn(d1: int, firstWeekday: int, lead: int, w: int, c: int, day: int)
    requires 0 <= firstWeekday < 7 && 0 <= d1 < 7 && (firstWeekday + lead) % 7 == d1
    requires day == 7 * w + c - lead + 1
    ensures (d1 + day - 1) % 7 == (firstWeekday + c) % 7
  {
    var q := (firstWeekday + lead) / 7;
    assert firstWeekday + lead == 7 * q + d1;
    assert d1 + day - 1 == firstWeekday + c + 7 * (w - q);
  }
}
