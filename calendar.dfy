/** `CalendarImageGen`: a configuration whose six colours `__init__`
    resolves in place with `hex_to_rgb`, and `draw_calendar`, which draws
    the background, the title, the weekday headers and the day boxes of one
    month. The clock (`datetime.today()`), the fonts and the saving of the
    image are left to the caller: today's date and the text measures are
    parameters, and the drawing is returned as a list of commands. */
module Calendar {
  import opened Wrappers
  import opened Text
  import opened Dates
  import opened Colors
  import opened MonthGrid
  import opened Cells
  import opened CellStyle
  import opened Layout
  import opened Commands
  import opened Render

  /** The configuration: the geometry and the six colours, each a hex string
      or an RGB triple. */
  class Config {
    var dims: Dimensions
    var background: ColorSpec
    var text: ColorSpec
    var event: ColorSpec
    var grid: ColorSpec
    var todayCellBg: ColorSpec
    var todayEvent: ColorSpec

    /** `BaseConfig`'s defaults. */
    constructor ()
      ensures dims == DefaultDimensions
      ensures background == Hex("#000000") && grid == Hex("#141414")
      ensures text == Hex("#FFFFFF") && event == Hex("#646464")
      ensures todayCellBg == Hex("#0F0F0F") && todayEvent == Hex("#E0E0E0")
    {
      dims := DefaultDimensions;
      background := Hex("#000000");
      grid := Hex("#141414");
      text := Hex("#FFFFFF");
      event := Hex("#646464");
      todayCellBg := Hex("#0F0F0F");
      todayEvent := Hex("#E0E0E0");
    }

    /** Every colour is an RGB triple. */
    predicate Resolved()
      reads this
    {
      background.RgbValue? && text.RgbValue? && event.RgbValue? &&
      grid.RgbValue? && todayCellBg.RgbValue? && todayEvent.RgbValue?
    }

    function Colors(): (p: Palette)
      reads this
      requires Resolved()
      ensures p == Palette(background.rgb, grid.rgb, text.rgb, event.rgb, todayCellBg.rgb, todayEvent.rgb)
    {
      Palette(background.rgb, grid.rgb, text.rgb, event.rgb, todayCellBg.rgb, todayEvent.rgb)
    }

    /** `__init__`: background, text, event, grid, today cell and today event
        colours, in that order, each replaced by its `hex_to_rgb` value. A
        colour that does not decode raises: the colours before it stay
        replaced and the later ones stay as they were. */
    method ResolveColors() returns (ok: bool)
      modifies this
      ensures dims == old(dims)
      ensures ok <==> Decodes(old(background)) && Decodes(old(text)) && Decodes(old(event)) &&
                      Decodes(old(grid)) && Decodes(old(todayCellBg)) && Decodes(old(todayEvent))
      ensures background == Converted(old(background), true)
      ensures text == Converted(old(text), Decodes(old(background)))
      ensures event == Converted(old(event), Decodes(old(background)) && Decodes(old(text)))
      ensures grid == Converted(old(grid), Decodes(old(background)) && Decodes(old(text)) && Decodes(old(event)))
      ensures todayCellBg == Converted(old(todayCellBg), Decodes(old(background)) && Decodes(old(text)) &&
                                                         Decodes(old(event)) && Decodes(old(grid)))
      ensures todayEvent == Converted(old(todayEvent), Decodes(old(background)) && Decodes(old(text)) &&
                                                       Decodes(old(event)) && Decodes(old(grid)) && Decodes(old(todayCellBg)))
      ensures ok ==> Resolved()
      ensures old(Resolved()) ==> ok && background == old(background) && text == old(text) && event == old(event) &&
                                  grid == old(grid) && todayCellBg == old(todayCellBg) && todayEvent == old(todayEvent)
    {
      var c := HexToRgb(background);
      if c.None? { return false; }
      background := RgbValue(c.value);
      c := HexToRgb(text);
      if c.None? { return false; }
      text := RgbValue(c.value);
      c := HexToRgb(event);
      if c.None? { return false; }
      event := RgbValue(c.value);
      c := HexToRgb(grid);
      if c.None? { return false; }
      grid := RgbValue(c.value);
      c := HexToRgb(todayCellBg);
      if c.None? { return false; }
      todayCellBg := RgbValue(c.value);
      c := HexToRgb(todayEvent);
      if c.None? { return false; }
      todayEvent := RgbValue(c.value);
      ok := true;
    }
  }

  /** `hex_to_rgb` returns for this colour rather than raising. */
  predicate Decodes(spec: ColorSpec)
  {
    HexToRgb(spec).Some?
  }

  /** A colour after the resolution loop: its decoded triple when the loop
      reached it and it decodes, as it was otherwise. */
  function Converted(spec: ColorSpec, reached: bool): (r: ColorSpec)
    ensures r.RgbValue? <==> spec.RgbValue? || (reached && Decodes(spec))
    ensures spec.RgbValue? ==> r == spec
  {
    if reached && Decodes(spec) then RgbValue(HexToRgb(spec).value) else spec
  }

  /** The default colours all decode: black background, grid 20/20/20, white
      text, events 100/100/100, today's cell 15/15/15 and today's events
      224/224/224. */
  lemma DefaultColorsDecode()
    ensures HexToRgb(Hex("#000000")) == Some(Rgb(0, 0, 0))
    ensures HexToRgb(Hex("#141414")) == Some(Rgb(20, 20, 20))
    ensures HexToRgb(Hex("#FFFFFF")) == Some(Rgb(255, 255, 255))
    ensures HexToRgb(Hex("#646464")) == Some(Rgb(100, 100, 100))
    ensures HexToRgb(Hex("#0F0F0F")) == Some(Rgb(15, 15, 15))
    ensures HexToRgb(Hex("#E0E0E0")) == Some(Rgb(224, 224, 224))
  {
    GreyDecodes('0', '0', 0);
    GreyDecodes('1', '4', 20);
    GreyDecodes('F', 'F', 255);
    GreyDecodes('6', '4', 100);
    GreyDecodes('0', 'F', 15);
    GreyDecodes('E', '0', 224);
  }

  /** A grey "#xyxyxy" decodes to three equal channels, the value of "xy". */
  lemma GreyDecodes(x: char, y: char, v: int)
    requires IsHexDigit(x) && IsHexDigit(y) && v == 16 * HexDigitValue(x) + HexDigitValue(y)
    ensures HexToRgb(Hex(['#', x, y, x, y, x, y])) == Some(Rgb(v, v, v))
  {
    var code := [x, y, x, y, x, y];
    assert ['#', x, y, x, y, x, y] == "#" + code;
    assert LStripHash("#" + code) == LStripHash(code) by {
      assert ("#" + code)[1..] == code;
    }
    assert LStripHash(code) == code;
    assert code[0..2] == code[2..4] == code[4..6] == [x, y];
    ParseHexShort([x, y]);
  }

  /** `f"{calendar.month_name[month]} {year}"`: the month's name, a space and
      the year in decimal, which reads back as the year. */
  function Title(month: int, year: int): (t: string)
    requires 1 <= month <= 12
    ensures var name := MonthName[month];
      && |t| > |name| + 1
      && t[..|name|] == name
      && t[|name|] == ' '
      && t[|name| + 1..] == IntToString(year)
      && (year >= 0 ==> DecimalValue(t[|name| + 1..]) == year)
      && (year < 0 ==> t[|name| + 1] == '-' && DecimalValue(t[|name| + 2..]) == -year)
  {
    TitleSplit(MonthName[month], year);
    MonthName[month] + " " + IntToString(year)
  }

  /** The parts of `name + " " + str(year)`, for any name. */
  lemma TitleSplit(name: string, year: int)
    ensures var t := name + " " + IntToString(year);
      && |t| > |name| + 1
      && t[..|name|] == name
      && t[|name|] == ' '
      && t[|name| + 1..] == IntToString(year)
      && (year >= 0 ==> DecimalValue(t[|name| + 1..]) == year)
      && (year < 0 ==> t[|name| + 1] == '-' && DecimalValue(t[|name| + 2..]) == -year)
  {
    var digits := IntToString(year);
    var t := name + " " + digits;
    assert t[..|name|] == name;
    assert t[|name| + 1..] == digits;
    if year < 0 {
      assert digits == "-" + NatToString(-year);
      assert t[|name| + 2..] == digits[1..] == NatToString(-year);
    }
  }

  /** The seven weekday headers. */
  function Headers(l: Dimensions, cellWidth: real, text: Rgb, firstWeekday: int): (cmds: seq<DrawCmd>)
    ensures |cmds| == 7
  {
    seq(7, i => HeaderLabel(l, cellWidth, text, firstWeekday, i))
  }

  /** What `draw_day_boxes_and_events` is given for a month. */
  function MonthSheet(year: int, month: int, firstWeekday: int, events: map<Date, seq<string>>, dims: Dimensions,
                      palette: Palette, today: Date, eventWidth: string -> int): (s: Sheet)
    requires 1 <= month <= 12
    ensures s.WellFormed() && s.grid == MonthCalendar(year, month, firstWeekday)
  {
    MonthCalendarShape(year, month, firstWeekday);
    Sheet(year, month, MonthCalendar(year, month, firstWeekday), events, dims, palette, today, eventWidth)
  }

  /** The whole drawing of `draw_calendar`: the blank image in the
      background colour, the centred title, the weekday headers and the day
      boxes. */
  function CalendarCmds(s: Sheet, firstWeekday: int, titleWidth: string -> int): seq<DrawCmd>
    requires s.WellFormed()
  {
    var title := Title(s.month, s.year);
    var pos := TitlePosition(s.dims, titleWidth(title));
    [Blank(s.dims.imgWidth, s.dims.imgHeight, s.palette.background),
     Label(pos.0, pos.1, title, s.palette.text, TitleFont)]
    + Headers(s.dims, CellWidth(s.dims), s.palette.text, firstWeekday)
    + GridCmds(s, |s.grid|)
  }

  /** The drawing steps of `draw_calendar` once the grid is known. */
  method DrawSheet(s: Sheet, firstWeekday: int, titleWidth: string -> int) returns (ok: bool, cmds: seq<DrawCmd>)
    requires s.WellFormed()
    ensures ok <==> CellsValid(s)
    ensures ok ==> cmds == CalendarCmds(s, firstWeekday, titleWidth)
  {
    cmds := [Blank(s.dims.imgWidth, s.dims.imgHeight, s.palette.background)];
    var title := Title(s.month, s.year);
    var pos := TitlePosition(s.dims, titleWidth(title));
    cmds := cmds + [Label(pos.0, pos.1, title, s.palette.text, TitleFont)];
    var headers := DrawWeekdayHeaders(s.dims, CellWidth(s.dims), s.palette.text, firstWeekday);
    assert headers == Headers(s.dims, CellWidth(s.dims), s.palette.text, firstWeekday);
    cmds := cmds + headers;
    var boxes;
    ok, boxes := DrawDayBoxes(s);
    cmds := cmds + boxes;
  }

  /** `draw_calendar` for a resolved configuration. It completes exactly
      when no cell's date raises in `datetime(...)`, and then it has issued
      the whole drawing. */
  method DrawCalendar(cfg: Config, year: int, month: int, events: map<Date, seq<string>>, firstWeekday: int,
                      today: Date, titleWidth: string -> int, eventWidth: string -> int)
    returns (ok: bool, cmds: seq<DrawCmd>)
    requires cfg.Resolved()
    requires 1 <= month <= 12 && 0 <= firstWeekday < 7
    ensures var s := MonthSheet(year, month, firstWeekday, events, cfg.dims, cfg.Colors(), today, eventWidth);
      && (ok <==> CellsValid(s))
      && (ok ==> cmds == CalendarCmds(s, firstWeekday, titleWidth))
  {
    var s := MonthSheet(year, month, firstWeekday, events, cfg.dims, cfg.Colors(), today, eventWidth);
    ok, cmds := DrawSheet(s, firstWeekday, titleWidth);
  }

  /** Each day of the month sits under the header of its weekday. */
  lemma HeaderMatchesColumn(year: int, month: int, firstWeekday: int, l: Dimensions, cellWidth: real, text: Rgb,
                            w: nat, c: nat)
    requires 1 <= month <= 12 && 0 <= firstWeekday < 7
    requires w < |MonthCalendar(year, month, firstWeekday)| && c < 7
    requires MonthCalendar(year, month, firstWeekday)[w][c] != 0
    ensures Headers(l, cellWidth, text, firstWeekday)[c].text
         == DayAbbr[CalendarWeekday(year, month, MonthCalendar(year, month, firstWeekday)[w][c])]
  {
    MonthCalendarWeekday(year, month, firstWeekday, w, c);
  }

  /** Inside years 1..9999, with the adjacent days shown also inside them,
      no cell raises. */
  lemma MonthCellsValid(year: int, month: int, firstWeekday: int, events: map<Date, seq<string>>, dims: Dimensions,
                        palette: Palette, today: Date, eventWidth: string -> int)
    requires 1 <= month <= 12 && MinYear <= year <= MaxYear
    requires Lead(year, month, firstWeekday) > 0 ==> !(year == MinYear && month == 1)
    requires Trail(year, month, firstWeekday) > 0 ==> !(year == MaxYear && month == 12)
    ensures CellsValid(MonthSheet(year, month, firstWeekday, events, dims, palette, today, eventWidth))
  {
    var s := MonthSheet(year, month, firstWeekday, events, dims, palette, today, eventWidth);
    MonthCalendarShape(year, month, firstWeekday);
    forall w, c | 0 <= w < |s.grid| && 0 <= c < |s.grid[w]|
      ensures !CellRaises(s, w, c)
    {
      CellDatesValid(year, month, firstWeekday, w, c);
    }
  }

  /** The converse at the edges of the range: January of year 1 showing
      days of December of year 0, or December of 9999 showing days of January
      of 10000, raises. */
  lemma EdgeMonthRaises(year: int, month: int, firstWeekday: int, events: map<Date, seq<string>>, dims: Dimensions,
                        palette: Palette, today: Date, eventWidth: string -> int)
    requires 1 <= month <= 12
    requires || (year == MinYear && month == 1 && Lead(year, month, firstWeekday) > 0)
             || (year == MaxYear && month == 12 && Trail(year, month, firstWeekday) > 0)
    ensures !CellsValid(MonthSheet(year, month, firstWeekday, events, dims, palette, today, eventWidth))
  {
    var s := MonthSheet(year, month, firstWeekday, events, dims, palette, today, eventWidth);
    MonthCalendarShape(year, month, firstWeekday);
    if year == MinYear && month == 1 && Lead(year, month, firstWeekday) > 0 {
      MonthCalendarCellDate(year, month, firstWeekday, 0, 0);
      assert CellRaises(s, 0, 0);
    } else {
      var w := |s.grid| - 1;
      MonthCalendarCellDate(year, month, firstWeekday, w, 6);
      assert CellRaises(s, w, 6);
    }
  }

  /** A month outside years 1..9999 always raises: its own first day is not
      a `datetime.date`. */
  lemma MonthOutOfRangeRaises(year: int, month: int, firstWeekday: int, events: map<Date, seq<string>>,
                              dims: Dimensions, palette: Palette, today: Date, eventWidth: string -> int)
    requires 1 <= month <= 12 && (year < MinYear || year > MaxYear)
    ensures !CellsValid(MonthSheet(year, month, firstWeekday, events, dims, palette, today, eventWidth))
  {
    var s := MonthSheet(year, month, firstWeekday, events, dims, palette, today, eventWidth);
    var p := Lead(year, month, firstWeekday);
    MonthCalendarDay(year, month, firstWeekday, 1);
    assert CellRaises(s, p / 7, p % 7);
  }

  /** The today fill marks exactly one cell when today is a day of the
      displayed month, the cell of its position in the padded stream, and
      no cell otherwise. */
  lemma TodayHighlighted(s: Sheet, firstWeekday: int, w: nat, c: nat)
    requires s.WellFormed() && s.grid == MonthCalendar(s.year, s.month, firstWeekday)
    requires w < |s.grid| && c < 7
    ensures CellFill(s.palette, CellAt(s, w, c), s.today).Some?
        <==> && s.today.year == s.year && s.today.month == s.month
             && 1 <= s.today.day <= DaysInMonth(s.year, s.month)
             && 7 * w + c == Lead(s.year, s.month, firstWeekday) + s.today.day - 1
  {
    MonthCalendarShape(s.year, s.month, firstWeekday);
    MonthCalendarCell(s.year, s.month, firstWeekday, w, c);
  }
}
