/** How `draw_day_boxes_and_events` reads the week grid: each cell is a day
    of the displayed month, a day of the month before (the zeros of the
    first week) or after (the zeros of the last week), or a blank (a zero in
    any other week). The reading is defined for any grid; for the grid of
    `calendar.monthcalendar` the cells, read row by row, are consecutive
    days running across both month boundaries. */
module Cells {
  import opened Wrappers
  import opened Text
  import opened Dates
  import opened MonthGrid

  /** What one cell shows: whether it belongs to the displayed month, the
      day number drawn in its corner ("" for none) and the date whose events
      it shows, if any. */
  datatype Cell = Cell(inMonth: bool, dayText: string, date: Option<Date>)

  /** `sum(1 for d in s if d == 0)`. */
  function CountZeros(s: seq<int>): (n: nat)
    ensures n <= |s|
  {
    if s == [] then 0 else CountZeros(s[..|s| - 1]) + (if s[|s| - 1] == 0 then 1 else 0)
  }

  /** The cell in column c of week w. A non-zero entry is that day of the
      displayed month. A zero in the first week is a day of the previous
      month, counted back from its last day by the number of zeros in the
      week; a zero in the last week is day 1, 2, ... of the next month,
      numbered by the zeros before it; any other zero is blank. */
  function ClassifyCell(year: int, month: int, grid: seq<seq<int>>, w: int, c: int): (cell: Cell)
    requires 1 <= month <= 12
    requires 0 <= w < |grid| && 0 <= c < |grid[w]|
    ensures cell.inMonth <==> grid[w][c] != 0
    ensures cell.inMonth ==> cell.date == Some(Date(year, month, grid[w][c]))
    ensures cell.date.None? <==> grid[w][c] == 0 && w != 0 && w != |grid| - 1
    ensures cell.date.None? <==> cell.dayText == ""
    ensures cell.date.Some? ==> cell.dayText == IntToString(cell.date.value.day)
  {
    var (prevYear, prevMonth) := PrevMonth(year, month);
    var (nextYear, nextMonth) := NextMonth(year, month);
    var day := grid[w][c];
    if day != 0 then
      Cell(true, IntToString(day), Some(Date(year, month, day)))
    else if w == 0 then
      var d := DaysInMonth(prevYear, prevMonth) - CountZeros(grid[0]) + 1 + CountZeros(grid[0][..c]);
      Cell(false, IntToString(d), Some(Date(prevYear, prevMonth, d)))
    else if w == |grid| - 1 then
      var d := CountZeros(grid[w][..c]) + 1;
      Cell(false, IntToString(d), Some(Date(nextYear, nextMonth, d)))
    else
      Cell(false, "", None)
  }

  /** The date at position p of the month's padded stream: the last days of
      the previous month, the month itself, then the first days of the next. */
  function StreamDate(year: int, month: int, firstWeekday: int, p: int): Date
    requires 1 <= month <= 12
  {
    var lead, n := Lead(year, month, firstWeekday), DaysInMonth(year, month);
    var (prevYear, prevMonth) := PrevMonth(year, month);
    var (nextYear, nextMonth) := NextMonth(year, month);
    if p < lead then Date(prevYear, prevMonth, DaysInMonth(prevYear, prevMonth) - lead + 1 + p)
    else if p < lead + n then Date(year, month, p - lead + 1)
    else Date(nextYear, nextMonth, p - lead - n + 1)
  }

  /** Counting the zeros of two runs one after the other adds their counts. */
  lemma {:induction false} CountZerosConcat(a: seq<int>, b: seq<int>)
    ensures CountZeros(a + b) == CountZeros(a) + CountZeros(b)
    decreases |b|
  {
    if b == [] {
      assert a + b == a;
    } else {
      assert (a + b)[..|a + b| - 1] == a + b[..|b| - 1];
      CountZerosConcat(a, b[..|b| - 1]);
    }
  }

  /** Zeros exactly before index z: the count in the first c entries. */
  lemma {:induction false} CountZerosLeading(s: seq<int>, z: int, c: nat)
    requires 0 <= z && c <= |s|
    requires forall k :: 0 <= k < |s| ==> (s[k] == 0 <==> k < z)
    ensures CountZeros(s[..c]) == if c < z then c else z
  {
    if c > 0 {
      assert s[..c][..c - 1] == s[..c - 1];
      CountZerosLeading(s, z, c - 1);
    }
  }

  /** Zeros exactly from index z on: the count in the first c entries. */
  lemma {:induction false} CountZerosTrailing(s: seq<int>, z: int, c: nat)
    requires 0 <= z && c <= |s|
    requires forall k :: 0 <= k < |s| ==> (s[k] == 0 <==> k >= z)
    ensures CountZeros(s[..c]) == if c > z then c - z else 0
  {
    if c > 0 {
      assert s[..c][..c - 1] == s[..c - 1];
      CountZerosTrailing(s, z, c - 1);
    }
  }

  /** In the grid of `calendar.monthcalendar`, the first week's zeros are
      its first `Lead` cells. */
  lemma FirstWeekZeros(year: int, month: int, firstWeekday: int)
    requires 1 <= month <= 12
    ensures var grid := MonthCalendar(year, month, firstWeekday);
      && |grid| >= 4 && |grid[0]| == 7
      && forall k :: 0 <= k < 7 ==> (grid[0][k] == 0 <==> k < Lead(year, month, firstWeekday))
  {
    MonthCalendarShape(year, month, firstWeekday);
    forall k | 0 <= k < 7
      ensures MonthCalendar(year, month, firstWeekday)[0][k] == 0 <==> k < Lead(year, month, firstWeekday)
    {
      MonthCalendarZeros(year, month, firstWeekday, 0, k);
    }
  }

  /** In the grid of `calendar.monthcalendar`, the last week's zeros are
      the cells after the month's last day. */
  lemma LastWeekZeros(year: int, month: int, firstWeekday: int)
    requires 1 <= month <= 12
    ensures var grid := MonthCalendar(year, month, firstWeekday);
      var w, z := |grid| - 1, Lead(year, month, firstWeekday) + DaysInMonth(year, month) - 7 * (|grid| - 1);
      && |grid| >= 4 && |grid[w]| == 7 && 0 < z <= 7
      && forall k :: 0 <= k < 7 ==> (grid[w][k] == 0 <==> k >= z)
  {
    MonthCalendarShape(year, month, firstWeekday);
    var w := |MonthCalendar(year, month, firstWeekday)| - 1;
    forall k | 0 <= k < 7
      ensures MonthCalendar(year, month, firstWeekday)[w][k] == 0
          <==> 7 * w + k >= Lead(year, month, firstWeekday) + DaysInMonth(year, month)
    {
      MonthCalendarZeros(year, month, firstWeekday, w, k);
    }
  }

  /** The cell in column c of week w shows the date at position 7w + c of
      the padded stream, and belongs to the displayed month exactly when
      that position holds one of its days. */
  predicate ShowsStreamDate(year: int, month: int, firstWeekday: int, w: nat, c: nat)
    requires 1 <= month <= 12
    requires w < |MonthCalendar(year, month, firstWeekday)| && c < |MonthCalendar(year, month, firstWeekday)[w]|
  {
    var cell, p := ClassifyCell(year, month, MonthCalendar(year, month, firstWeekday), w, c), 7 * w + c;
    && cell.date == Some(StreamDate(year, month, firstWeekday, p))
    && (cell.inMonth <==> Lead(year, month, firstWeekday) <= p < Lead(year, month, firstWeekday) + DaysInMonth(year, month))
  }

  /** For the grid of `calendar.monthcalendar`, every cell shows the date at
      its position in the padded stream, belongs to the displayed month
      exactly when that date does, and no cell is blank. */
  lemma MonthCalendarCellDate(year: int, month: int, firstWeekday: int, w: nat, c: nat)
    requires 1 <= month <= 12
    requires w < |MonthCalendar(year, month, firstWeekday)| && c < 7
    ensures |MonthCalendar(year, month, firstWeekday)[w]| == 7
    ensures ShowsStreamDate(year, month, firstWeekday, w, c)
  {
    var grid := MonthCalendar(year, month, firstWeekday);
    MonthCalendarShape(year, month, firstWeekday);
    MonthCalendarCell(year, month, firstWeekday, w, c);
    if grid[w][c] != 0 {
    } else if w == 0 {
      LeadingCellDate(year, month, firstWeekday, c);
    } else {
      MonthCalendarZeros(year, month, firstWeekday, w, c);
      TrailingCellDate(year, month, firstWeekday, c);
    }
  }

  /** A zero of the first week is the previous month's day counted back
      from its last day. */
  lemma LeadingCellDate(year: int, month: int, firstWeekday: int, c: nat)
    requires 1 <= month <= 12 && c < 7
    requires |MonthCalendar(year, month, firstWeekday)| > 0
    requires MonthCalendar(year, month, firstWeekday)[0][c] == 0
    ensures |MonthCalendar(year, month, firstWeekday)[0]| == 7
    ensures ShowsStreamDate(year, month, firstWeekday, 0, c)
  {
    FirstWeekZeros(year, month, firstWeekday);
    LeadingZeroCell(year, month, MonthCalendar(year, month, firstWeekday), Lead(year, month, firstWeekday), c);
  }

  /** A zero of the last week is day 1, 2, ... of the next month. */
  lemma TrailingCellDate(year: int, month: int, firstWeekday: int, c: nat)
    requires 1 <= month <= 12 && c < 7
    requires |MonthCalendar(year, month, firstWeekday)| > 0
    requires MonthCalendar(year, month, firstWeekday)[|MonthCalendar(year, month, firstWeekday)| - 1][c] == 0
    ensures |MonthCalendar(year, month, firstWeekday)[|MonthCalendar(year, month, firstWeekday)| - 1]| == 7
    ensures ShowsStreamDate(year, month, firstWeekday, |MonthCalendar(year, month, firstWeekday)| - 1, c)
  {
    var grid := MonthCalendar(year, month, firstWeekday);
    var w := |grid| - 1;
    LastWeekZeros(year, month, firstWeekday);
    var lead, n := Lead(year, month, firstWeekday), DaysInMonth(year, month);
    var z := lead + n - 7 * w;
    TrailingZeroCell(year, month, grid, w, z, c);
    assert StreamDate(year, month, firstWeekday, 7 * w + c) == Date(NextMonth(year, month).0, NextMonth(year, month).1, c - z + 1) by {
      assert 7 * w + c >= lead + n;
    }
  }

  /** In any grid whose first week starts with `lead` zeros, the zero in
      column c is day c + 1 of the last `lead` days of the previous month. */
  lemma LeadingZeroCell(year: int, month: int, grid: seq<seq<int>>, lead: nat, c: nat)
    requires 1 <= month <= 12
    requires |grid| > 1 && |grid[0]| == 7 && c < lead <= 7
    requires forall k :: 0 <= k < 7 ==> (grid[0][k] == 0 <==> k < lead)
    ensures var (prevYear, prevMonth) := PrevMonth(year, month);
      ClassifyCell(year, month, grid, 0, c).date
      == Some(Date(prevYear, prevMonth, DaysInMonth(prevYear, prevMonth) - lead + 1 + c))
  {
    CountZerosLeading(grid[0], lead, 7);
    assert grid[0][..7] == grid[0];
    CountZerosLeading(grid[0], lead, c);
  }

  /** In any grid whose last week has zeros from column z on, the zero in
      column c is day c - z + 1 of the next month. */
  lemma TrailingZeroCell(year: int, month: int, grid: seq<seq<int>>, w: nat, z: nat, c: nat)
    requires 1 <= month <= 12
    requires 0 < w == |grid| - 1 && |grid[w]| == 7 && z <= c < 7
    requires forall k :: 0 <= k < 7 ==> (grid[w][k] == 0 <==> k >= z)
    ensures var (nextYear, nextMonth) := NextMonth(year, month);
      ClassifyCell(year, month, grid, w, c).date == Some(Date(nextYear, nextMonth, c - z + 1))
  {
    CountZerosTrailing(grid[w], z, c);
  }

  /** Read row by row, the dates of the cells advance by exactly one day,
      across the boundary into the displayed month and out of it into the
      next (December to January of the next year, January from December of
      the year before). */
  lemma StreamDatesConsecutive(year: int, month: int, firstWeekday: int, p: int)
    requires 1 <= month <= 12
    requires 0 <= p
    requires p + 1 < 7 * |MonthCalendar(year, month, firstWeekday)|
    ensures NextDay(StreamDate(year, month, firstWeekday, p)) == StreamDate(year, month, firstWeekday, p + 1)
  {
    MonthCalendarShape(year, month, firstWeekday);
  }

  /** Consecutive cells of the grid, within a week or from the end of one
      week to the start of the next, show consecutive dates. */
  lemma CellDatesConsecutive(year: int, month: int, firstWeekday: int, w: nat, c: nat)
    requires 1 <= month <= 12
    requires w < |MonthCalendar(year, month, firstWeekday)| && c < 7
    requires 7 * w + c + 1 < 7 * |MonthCalendar(year, month, firstWeekday)|
    ensures var grid := MonthCalendar(year, month, firstWeekday);
      var (w', c') := if c < 6 then (w, c + 1) else (w + 1, 0);
      && ClassifyCell(year, month, grid, w, c).date.Some?
      && ClassifyCell(year, month, grid, w', c').date
         == Some(NextDay(ClassifyCell(year, month, grid, w, c).date.value))
  {
    if c < 6 {
      CellStep(year, month, firstWeekday, w, c, w, c + 1);
    } else {
      CellStep(year, month, firstWeekday, w, c, w + 1, 0);
    }
  }

  /** The cell at the next position of the padded stream shows the next day. */
  lemma CellStep(year: int, month: int, firstWeekday: int, w: nat, c: nat, w': nat, c': nat)
    requires 1 <= month <= 12
    requires w < |MonthCalendar(year, month, firstWeekday)| && c < 7
    requires w' < |MonthCalendar(year, month, firstWeekday)| && c' < 7
    requires 7 * w' + c' == 7 * w + c + 1
    ensures var grid := MonthCalendar(year, month, firstWeekday);
      && ClassifyCell(year, month, grid, w, c).date.Some?
      && ClassifyCell(year, month, grid, w', c').date
         == Some(NextDay(ClassifyCell(year, month, grid, w, c).date.value))
  {
    var p := 7 * w + c;
    CellShowsStreamDate(year, month, firstWeekday, w, c, p);
    CellShowsStreamDate(year, month, firstWeekday, w', c', p + 1);
    StreamDatesConsecutive(year, month, firstWeekday, p);
  }

  lemma CellShowsStreamDate(year: int, month: int, firstWeekday: int, w: nat, c: nat, p: int)
    requires 1 <= month <= 12
    requires w < |MonthCalendar(year, month, firstWeekday)| && c < 7
    requires p == 7 * w + c
    ensures p + 1 <= 7 * |MonthCalendar(year, month, firstWeekday)|
    ensures ClassifyCell(year, month, MonthCalendar(year, month, firstWeekday), w, c).date
         == Some(StreamDate(year, month, firstWeekday, p))
  {
    MonthCalendarCellDate(year, month, firstWeekday, w, c);
  }

  /** Every cell date is one `datetime.date` accepts, as long as the month
      is within years 1..9999 and the adjacent days shown do not leave that
      range. */
  lemma CellDatesValid(year: int, month: int, firstWeekday: int, w: nat, c: nat)
    requires 1 <= month <= 12 && MinYear <= year <= MaxYear
    requires Lead(year, month, firstWeekday) > 0 ==> !(year == MinYear && month == 1)
    requires Trail(year, month, firstWeekday) > 0 ==> !(year == MaxYear && month == 12)
    requires w < |MonthCalendar(year, month, firstWeekday)| && c < 7
    ensures var cell := ClassifyCell(year, month, MonthCalendar(year, month, firstWeekday), w, c);
      cell.date.Some? && IsValidDate(cell.date.value)
  {
    MonthCalendarCellDate(year, month, firstWeekday, w, c);
  }
}
