/** The colour rules of `draw_day_boxes_and_events`: which cell gets the
    today fill, the colour of the day number, and the colour of the event
    lines. Dimming scales every channel by a factor, truncates toward zero
    (`int(...)`) and clamps at 0 (`max(0, ...)`). */
module CellStyle {
  import opened Wrappers
  import opened Dates
  import opened Colors
  import opened Cells

  /** The six configured colours once `hex_to_rgb` has resolved them. */
  datatype Palette = Palette(background: Rgb, grid: Rgb, text: Rgb, event: Rgb, todayCellBg: Rgb, todayEvent: Rgb)

  /** `int(x)` on a real number: truncation toward zero. */
  function Trunc(x: real): int
  {
    if x >= 0.0 then x.Floor else -((-x).Floor)
  }

  function Max(a: int, b: int): int
  {
    if a >= b then a else b
  }

  /** `max(0, int(c * 0.5))`, computed on integers. */
  function DimHalf(c: int): (r: int)
    ensures r == Max(0, Trunc(c as real * 0.5))
    ensures c >= 0 ==> 2 * r <= c < 2 * r + 2
    ensures c <= 0 ==> r == 0
  {
    if c <= 0 then 0
    else
      assert c as real * 0.5 == (c / 2) as real + (c % 2) as real * 0.5;
      c / 2
  }

  /** `max(0, int(c * 0.6))`, computed on integers. */
  function Dim60(c: int): (r: int)
    ensures r == Max(0, Trunc(c as real * 0.6))
    ensures c >= 0 ==> 10 * r <= 6 * c < 10 * r + 10
    ensures c <= 0 ==> r == 0
  {
    if c <= 0 then 0
    else
      assert c as real * 0.6 == ((6 * c) / 10) as real + ((6 * c) % 10) as real / 10.0;
      (6 * c) / 10
  }

  /** The day-number colour of an adjacent-month cell. */
  function HalfTone(c: Rgb): Rgb
  {
    Rgb(DimHalf(c.r), DimHalf(c.g), DimHalf(c.b))
  }

  /** The event colour of an adjacent-month cell that is not today. */
  function SixtyTone(c: Rgb): Rgb
  {
    Rgb(Dim60(c.r), Dim60(c.g), Dim60(c.b))
  }

  /** `is_current_day`: a day of the displayed month that is today. */
  predicate IsCurrentDay(cell: Cell, today: Date)
  {
    cell.inMonth && cell.date == Some(today)
  }

  /** The fill of the cell rectangle: the today colour on the current day,
      none elsewhere. */
  function CellFill(p: Palette, cell: Cell, today: Date): (fill: Option<Rgb>)
    ensures fill.Some? <==> cell.inMonth && cell.date == Some(today)
    ensures fill.Some? ==> fill.value == p.todayCellBg
  {
    if IsCurrentDay(cell, today) then Some(p.todayCellBg) else None
  }

  /** The day number is drawn in the text colour in the displayed month and
      at half intensity outside it. */
  function DayNumberColor(p: Palette, cell: Cell): (color: Rgb)
    ensures cell.inMonth ==> color == p.text
    ensures !cell.inMonth ==> color == Rgb(DimHalf(p.text.r), DimHalf(p.text.g), DimHalf(p.text.b))
  {
    if cell.inMonth then p.text else HalfTone(p.text)
  }

  /** The colour of a cell's event lines, case by case: today's events
      always use the today event colour, undimmed even in an adjacent-month
      cell; other dates use the event colour, dimmed to 60% exactly in
      adjacent-month cells. */
  function EventColor(p: Palette, cell: Cell, date: Date, today: Date): (color: Rgb)
    ensures date == today ==> color == p.todayEvent
    ensures date != today && cell.inMonth ==> color == p.event
    ensures date != today && !cell.inMonth ==> color == Rgb(Dim60(p.event.r), Dim60(p.event.g), Dim60(p.event.b))
  {
    var base := if date == today then p.todayEvent else p.event;
    if !cell.inMonth && date != today then SixtyTone(base) else base
  }

  /** Dimmed channels stay within 0..255 and never exceed the original. */
  lemma DimBounds(c: int)
    requires 0 <= c < 256
    ensures 0 <= DimHalf(c) <= c && 0 <= Dim60(c) <= c
    ensures DimHalf(c) < 128 && Dim60(c) < 154
  {
  }
}
