/** The drawing the calendar makes, as a list of commands in the order the
    program issues them to PIL: the blank image, rectangles and text. */
module Commands {
  import opened Wrappers
  import opened Colors
  import opened Layout

  /** The three fonts the calendar loads: title, day (numbers and weekday
      headers) and event. */
  datatype Font = TitleFont | DayFont | EventFont

  datatype DrawCmd =
    | Blank(width: int, height: int, color: Rgb)                    // `Image.new`
    | Rect(box: Box, fill: Option<Rgb>, outline: Rgb, lineWidth: int) // `draw.rectangle`
    | Label(x: real, y: real, text: string, color: Rgb, font: Font)   // `draw.text`
}
