/** The drawing of one month by `draw_day_boxes_and_events` and
    `draw_weekday_headers`: the commands are specified by functions built
    cell by cell, and the methods, which keep the loops of the program, are
    proved to issue exactly those commands. */
module Render {
  import opened Wrappers
  import opened Text
  import opened Dates
  import opened Colors
  import opened MonthGrid
  import opened Cells
  import opened CellStyle
  import opened Layout
  import opened TextWrap
  import opened Commands
  import opened EventStack

  /** What the drawing of the day boxes depends on: the month, its week
      grid, the events by date, the configured geometry and colours, today's
      date, and the pixel width of a text in the event font. */
  datatype Sheet = Sheet(year: int, month: int, grid: seq<seq<int>>, events: map<Date, seq<string>>,
                         dims: Dimensions, palette: Palette, today: Date, eventWidth: string -> int)
  {
    /** The month is a real month and the grid has a week (the cell height
        divides by the number of weeks). */
    predicate WellFormed()
    {
      1 <= month <= 12 && |grid| > 0
    }
  }

  /** The cell in column c of week w. */
  function CellAt(s: Sheet, w: int, c: int): Cell
    requires s.WellFormed() && 0 <= w < |s.grid| && 0 <= c < |s.grid[w]|
  {
    ClassifyCell(s.year, s.month, s.grid, w, c)
  }

  /** `datetime(...)` raises `ValueError` for the cell's date. */
  predicate CellRaises(s: Sheet, w: int, c: int)
    requires s.WellFormed() && 0 <= w < |s.grid| && 0 <= c < |s.grid[w]|
  {
    var cell := CellAt(s, w, c);
    cell.date.Some? && !IsValidDate(cell.date.value)
  }

  /** No cell of the grid makes `datetime(...)` raise. */
  predicate CellsValid(s: Sheet)
    requires s.WellFormed()
  {
    forall w, c :: 0 <= w < |s.grid| && 0 <= c < |s.grid[w]| ==> !CellRaises(s, w, c)
  }

  /** None of the first c cells of week w raises, cell by cell. */
  predicate RowValid(s: Sheet, w: int, c: nat)
    requires s.WellFormed() && 0 <= w < |s.grid| && c <= |s.grid[w]|
  {
    c == 0 || (RowValid(s, w, c - 1) && !CellRaises(s, w, c - 1))
  }

  /** None of the cells of the first w weeks raises, week by week. */
  predicate GridValid(s: Sheet, w: nat)
    requires s.WellFormed() && w <= |s.grid|
  {
    w == 0 || (GridValid(s, w - 1) && RowValid(s, w - 1, |s.grid[w - 1]|))
  }

  /** A week checked cell by cell has no cell that raises. */
  lemma {:induction false} RowValidCells(s: Sheet, w: int, c: nat)
    requires s.WellFormed() && 0 <= w < |s.grid| && c <= |s.grid[w]|
    requires RowValid(s, w, c)
    ensures forall k :: 0 <= k < c ==> !CellRaises(s, w, k)
  {
    if c > 0 {
      RowValidCells(s, w, c - 1);
    }
  }

  /** Checking the weeks one after another, each cell by cell, checks every
      cell. */
  lemma {:induction false} GridValidCells(s: Sheet, n: nat)
    requires s.WellFormed() && n <= |s.grid|
    requires GridValid(s, n)
    ensures forall v, c :: 0 <= v < n && 0 <= c < |s.grid[v]| ==> !CellRaises(s, v, c)
  {
    if n > 0 {
      GridValidCells(s, n - 1);
      RowValidCells(s, n - 1, |s.grid[n - 1]|);
    }
  }

  /** The event lines of a cell with a date: the events of that date, each
      wrapped to the cell width less 20, stacked from 25 below the cell top
      and 10 right of its left edge. */
  function EventCmds(s: Sheet, cell: Cell, box: Box): seq<DrawCmd>
  {
    match cell.date
    case Some(d) =>
      if d in s.events then
        StackFrom(WrapAll(s.events[d], s.eventWidth, CellWidth(s.dims) - 20.0), box.left + 10.0, box.top + 25.0,
                  box.bottom, EventColor(s.palette, cell, d, s.today))
      else []
    case None => []
  }

  /** What a cell draws in its box: its rectangle, its day number and its
      events. */
  function BoxCmds(s: Sheet, cell: Cell, box: Box): seq<DrawCmd>
  {
    [Rect(box, CellFill(s.palette, cell, s.today), s.palette.grid, 2)]
    + (if cell.dayText != "" then [Label(box.left + 7.0, box.top + 5.0, cell.dayText, DayNumberColor(s.palette, cell), DayFont)] else [])
    + EventCmds(s, cell, box)
  }

  /** What the cell in column c of week w draws. */
  function CellCmds(s: Sheet, w: int, c: int): seq<DrawCmd>
    requires s.WellFormed() && 0 <= w < |s.grid| && 0 <= c < |s.grid[w]|
  {
    BoxCmds(s, CellAt(s, w, c), CellBox(s.dims, |s.grid|, w, c))
  }

  /** What the first c cells of week w draw. */
  function RowCmds(s: Sheet, w: int, c: nat): seq<DrawCmd>
    requires s.WellFormed() && 0 <= w < |s.grid| && c <= |s.grid[w]|
  {
    if c == 0 then [] else RowCmds(s, w, c - 1) + CellCmds(s, w, c - 1)
  }

  /** What the first w weeks draw. */
  function GridCmds(s: Sheet, w: nat): seq<DrawCmd>
    requires s.WellFormed() && w <= |s.grid|
  {
    if w == 0 then [] else GridCmds(s, w - 1) + RowCmds(s, w - 1, |s.grid[w - 1]|)
  }

  /** The events block of a cell: when the cell has a date with events,
      their lines in the cell's event colour. */
  method DrawEvents(s: Sheet, cell: Cell, box: Box) returns (lines: seq<DrawCmd>)
    ensures lines == EventCmds(s, cell, box)
  {
    lines := [];
    if cell.date.Some? && cell.date.value in s.events {
      var d := cell.date.value;
      lines := StackEvents(s.events[d], box.left + 10.0, box.top + 25.0, box.bottom, CellWidth(s.dims) - 20.0,
                           EventColor(s.palette, cell, d, s.today), s.eventWidth);
    }
  }

  /** A cell shows events only for a date that has some. For such a date it
      shows every line of its first `Drawn` events, in order, 12 pixels
      apart from 25 below the cell top; at least the first event is shown
      in full, and drawing stops after the first event whose lines take the
      height past the cell bottom. */
  lemma EventsShown(s: Sheet, cell: Cell, box: Box)
    ensures cell.date.None? || cell.date.value !in s.events ==> EventCmds(s, cell, box) == []
    ensures cell.date.Some? && cell.date.value in s.events ==>
      var d := cell.date.value;
      var blocks := WrapAll(s.events[d], s.eventWidth, CellWidth(s.dims) - 20.0);
      var y := box.top + 25.0;
      var n := Drawn(blocks, y, box.bottom);
      && n <= |blocks|
      && (blocks != [] ==> n >= 1)
      && (n < |blocks| ==> y + LineStep * |Concat(blocks[..n])| as real > box.bottom)
      && EventCmds(s, cell, box) == LinesAt(Concat(blocks[..n]), box.left + 10.0, y, EventColor(s.palette, cell, d, s.today))
  {
    if cell.date.Some? && cell.date.value in s.events {
      var d := cell.date.value;
      EventsStacked(s, cell, box, d, WrapAll(s.events[d], s.eventWidth, CellWidth(s.dims) - 20.0));
    }
  }

  lemma EventsStacked(s: Sheet, cell: Cell, box: Box, d: Date, blocks: seq<seq<string>>)
    requires cell.date == Some(d) && d in s.events
    requires blocks == WrapAll(s.events[d], s.eventWidth, CellWidth(s.dims) - 20.0)
    ensures var y := box.top + 25.0;
      var n := Drawn(blocks, y, box.bottom);
      && n <= |blocks|
      && (blocks != [] ==> n >= 1)
      && (n < |blocks| ==> y + LineStep * |Concat(blocks[..n])| as real > box.bottom)
      && EventCmds(s, cell, box) == LinesAt(Concat(blocks[..n]), box.left + 10.0, y, EventColor(s.palette, cell, d, s.today))
  {
    var x, y, color := box.left + 10.0, box.top + 25.0, EventColor(s.palette, cell, d, s.today);
    EventCmdsStack(s, cell, box, d, blocks, x, y, color);
    StackDrawn(blocks, x, y, box.bottom, color);
  }

  lemma EventCmdsStack(s: Sheet, cell: Cell, box: Box, d: Date, blocks: seq<seq<string>>, x: real, y: real, color: Rgb)
    requires cell.date == Some(d) && d in s.events
    requires blocks == WrapAll(s.events[d], s.eventWidth, CellWidth(s.dims) - 20.0)
    requires x == box.left + 10.0 && y == box.top + 25.0 && color == EventColor(s.palette, cell, d, s.today)
    ensures EventCmds(s, cell, box) == StackFrom(blocks, x, y, box.bottom, color)
  {
  }

  /** A cell draws its rectangle first, filled only on the current day; a
      cell with a date then draws its day number 7 right of and 5 below its
      corner, followed by its events; a blank cell draws nothing more. */
  lemma CellLayout(s: Sheet, w: int, c: int)
    requires s.WellFormed() && 0 <= w < |s.grid| && 0 <= c < |s.grid[w]|
    ensures var cell, box, cmds := CellAt(s, w, c), CellBox(s.dims, |s.grid|, w, c), CellCmds(s, w, c);
      && cmds[0] == Rect(box, CellFill(s.palette, cell, s.today), s.palette.grid, 2)
      && (cmds[0].fill.Some? <==> cell.inMonth && cell.date == Some(s.today))
      && (cell.date.Some? ==>
            && |cmds| >= 2
            && cmds[1] == Label(box.left + 7.0, box.top + 5.0, IntToString(cell.date.value.day), DayNumberColor(s.palette, cell), DayFont)
            && cmds[2..] == EventCmds(s, cell, box))
      && (cell.date.None? ==> cmds == [cmds[0]])
  {
    var cell, box, cmds := CellAt(s, w, c), CellBox(s.dims, |s.grid|, w, c), CellCmds(s, w, c);
    if cell.date.Some? {
      assert cmds[2..] == EventCmds(s, cell, box);
    } else {
      EventsShown(s, cell, box);
    }
  }

  /** One cell of the inner loop. `raised` when building the cell's date
      raises; otherwise the cell's commands. */
  method DrawCell(s: Sheet, w: int, c: int) returns (raised: bool, cmds: seq<DrawCmd>)
    requires s.WellFormed() && 0 <= w < |s.grid| && 0 <= c < |s.grid[w]|
    ensures raised <==> CellRaises(s, w, c)
    ensures !raised ==> cmds == CellCmds(s, w, c)
  {
    var cell := ClassifyCell(s.year, s.month, s.grid, w, c);
    if cell.date.Some? && !IsValidDate(cell.date.value) {
      return true, [];
    }
    raised := false;
    cmds := DrawBox(s, cell, CellBox(s.dims, |s.grid|, w, c));
  }

  /** The drawing of one cell once its box and contents are known. */
  method DrawBox(s: Sheet, cell: Cell, box: Box) returns (cmds: seq<DrawCmd>)
    ensures cmds == BoxCmds(s, cell, box)
  {
    var rect := Rect(box, CellFill(s.palette, cell, s.today), s.palette.grid, 2);
    cmds := [rect];
    var number := [];
    if cell.dayText != "" {
      number := [Label(box.left + 7.0, box.top + 5.0, cell.dayText, DayNumberColor(s.palette, cell), DayFont)];
      cmds := cmds + number;
    }
    var lines := DrawEvents(s, cell, box);
    cmds := cmds + lines;
    assert cmds == [rect] + number + lines;
  }

  /** One week of `draw_day_boxes_and_events`: its cells left to right. It
      completes exactly when none of the week's dates raises, and then it
      has drawn every cell of the week. */
  method DrawWeek(s: Sheet, w: int) returns (ok: bool, cmds: seq<DrawCmd>)
    requires s.WellFormed() && 0 <= w < |s.grid|
    ensures ok ==> RowValid(s, w, |s.grid[w]|) && cmds == RowCmds(s, w, |s.grid[w]|)
    ensures !ok ==> exists c :: 0 <= c < |s.grid[w]| && CellRaises(s, w, c)
  {
    cmds := [];
    var c := 0;
    while c < |s.grid[w]|
      invariant 0 <= c <= |s.grid[w]|
      invariant cmds == RowCmds(s, w, c)
      invariant RowValid(s, w, c)
    {
      var raised, drawn := DrawCell(s, w, c);
      if raised {
        return false, cmds;
      }
      cmds := cmds + drawn;
      c := c + 1;
    }
    ok := true;
  }

  /** One more week checked and drawn extends the grid's checks and commands. */
  lemma GridStep(s: Sheet, w: int)
    requires s.WellFormed() && 0 <= w < |s.grid|
    requires GridValid(s, w) && RowValid(s, w, |s.grid[w]|)
    ensures GridValid(s, w + 1)
    ensures GridCmds(s, w + 1) == GridCmds(s, w) + RowCmds(s, w, |s.grid[w]|)
  {
  }

  /** `draw_day_boxes_and_events`: every week, top to bottom. It completes
      exactly when no cell's date makes `datetime(...)` raise, and then it
      has drawn every cell. */
  method DrawDayBoxes(s: Sheet) returns (ok: bool, cmds: seq<DrawCmd>)
    requires s.WellFormed()
    ensures ok <==> CellsValid(s)
    ensures ok ==> cmds == GridCmds(s, |s.grid|)
  {
    cmds := [];
    var w := 0;
    while w < |s.grid|
      invariant 0 <= w <= |s.grid|
      invariant cmds == GridCmds(s, w)
      invariant GridValid(s, w)
    {
      var weekOk, drawn := DrawWeek(s, w);
      if !weekOk {
        return false, cmds;
      }
      GridStep(s, w);
      cmds := cmds + drawn;
      w := w + 1;
    }
    GridValidCells(s, |s.grid|);
    ok := true;
  }

  /** The header of column i: the abbreviation of weekday
      `(start_of_week + i) % 7`, placed by `HeaderPosition`. */
  function HeaderLabel(l: Dimensions, cellWidth: real, text: Rgb, firstWeekday: int, i: int): DrawCmd
  {
    var pos := HeaderPosition(l, cellWidth, i);
    Label(pos.0, pos.1, DayAbbr[HeaderWeekday(firstWeekday, i)], text, DayFont)
  }

  /** `draw_weekday_headers`: the seven abbreviations first, then one label
      per column. */
  method DrawWeekdayHeaders(l: Dimensions, cellWidth: real, text: Rgb, firstWeekday: int) returns (cmds: seq<DrawCmd>)
    ensures |cmds| == 7
    ensures forall i :: 0 <= i < 7 ==> cmds[i] == HeaderLabel(l, cellWidth, text, firstWeekday, i)
  {
    var weekdays: seq<string> := [];
    for i := 0 to 7
      invariant |weekdays| == i
      invariant forall k :: 0 <= k < i ==> weekdays[k] == DayAbbr[HeaderWeekday(firstWeekday, k)]
    {
      weekdays := weekdays + [DayAbbr[(firstWeekday + i) % 7]];
    }
    cmds := [];
    for i := 0 to 7
      invariant |cmds| == i
      invariant forall k :: 0 <= k < i ==> cmds[k] == HeaderLabel(l, cellWidth, text, firstWeekday, k)
    {
      var x := l.marginLeft as real + i as real * cellWidth + 20.0;
      cmds := cmds + [Label(x + 20.0, (l.marginTop + 60) as real, weekdays[i], text, DayFont)];
    }
  }
}
