# Calendar wallpaper generator: a verified model of its image core

This project models the part of the calendar wallpaper generator that turns
a month, a set of events and a colour configuration into a picture. It covers:

- how `read_events_db` projects the rows of the events table onto a
  dictionary from dates to display strings;
- how `CalendarImageGen.__init__` resolves the six configured colours in
  place with `hex_to_rgb`;
- how `draw_calendar` lays out the title, the weekday headers and the month
  grid;
- how `draw_day_boxes_and_events` fills each cell. A cell shows a
  current-month day or an adjacent-month day. The model covers its
  highlight and dimmed colours and the stacking of its word-wrapped event
  lines.

The drawing is modelled as the list of commands the program issues to PIL,
in order: the blank image, rectangles and text labels (`Commands.DrawCmd`).
The clock, the fonts and the text measurements are parameters.

Modules, one per concern:

| module | models |
|---|---|
| `Text` | `str.strip`, `str.split`, `str(int)` |
| `Dates` | proleptic Gregorian dates, `calendar.monthrange`, weekdays |
| `Timestamp` | `datetime.strptime(s, "%Y-%m-%d %H:%M")` and `strftime("%H:%M")` |
| `EventProjection` | the row loop of `read_events_db` |
| `TextWrap` | `wrap_text` |
| `Colors` | `hex_to_rgb` |
| `MonthGrid` | `calendar.monthcalendar` under `setfirstweekday` |
| `Cells` | which day and date a grid cell shows |
| `CellStyle` | the fill, day-number and event colours of a cell |
| `Layout` | cell boxes, header and title positions, the default geometry |
| `EventStack` | the event-line loops of one cell |
| `Render` | `draw_weekday_headers` and `draw_day_boxes_and_events` |
| `Calendar` | the configuration class and `draw_calendar` |

A `datetime(...)` call that raises `ValueError` is modelled as follows. A
cell whose date does not exist (a year outside 1..9999, such as year 0 or 10000 for an adjacent-month day) makes the drawing fail
(`ok == false`). `Render.CellsValid` says exactly when that happens.

## Model

| member | source | states |
|---|---|---|
| Text.Strip | models/calendar_image_gen.py:44 | the result is a slice of the input with only whitespace before and after it and none at its own ends, which is exactly what `strip()` returns |
| Text.StripSpaceSuffix | models/calendar_image_gen.py:44 | a trailing whitespace character does not change the stripped string |
| Text.StripKeeps | models/calendar_image_gen.py:47 | stripping a string with no edge whitespace leaves it unchanged |
| Text.StripSpacePrefix | models/calendar_image_gen.py:44 | a leading whitespace character does not change the stripped string |
| Text.Split | models/calendar_image_gen.py:200 | `split()` of the empty string is empty, and every word it yields is non-empty without whitespace |
| Text.SplitAtSpace | models/calendar_image_gen.py:200 | splitting at any whitespace character gives the words before it followed by the words after it, so `split()` cuts exactly at whitespace and keeps every other character in order |
| Text.Join | models/calendar_image_gen.py:205 | `" ".join` of no strings is empty and of one string is that string; otherwise it starts with the first string, followed by a space when more strings follow |
| Text.JoinConcat | models/calendar_image_gen.py:205 | joining two non-empty lists is joining each and putting one space between |
| Text.SplitWord | models/calendar_image_gen.py:200 | a single word splits into itself |
| Text.JoinOfWords | models/calendar_image_gen.py:205 | words joined by single spaces give the empty string exactly when there are no words, and never have edge whitespace |
| Text.NatToString | models/calendar_image_gen.py:271 | `str(n)` is a non-empty run of decimal digits, without a leading zero, whose value is n |
| Text.IntToString | models/calendar_image_gen.py:88 | `str(i)` is the digits of \|i\|, preceded by '-' when i is negative |
| Text.Pad4 | models/calendar_image_gen.py:44 | four digits whose decimal value is the year |
| Text.Pad2 | models/calendar_image_gen.py:46 | two digits giving n's tens and units |
| Dates.DaysInMonth | models/calendar_image_gen.py:247 | 28 to 31 days: February has 29 in leap years and 28 otherwise; April, June, September and November have 30; the other seven months have 31 |
| Dates.PrevMonth | models/calendar_image_gen.py:241-242 | the previous month is a month whose next month is the given one |
| Dates.NextMonth | models/calendar_image_gen.py:243-244 | the next month is (year, month + 1) for months 1 to 11, and (year + 1, 1) after December |
| Dates.NextDay | models/calendar_image_gen.py:281-293 | the day after: the same month while days remain, otherwise day 1 of the next month |
| Dates.NextDayValid | models/calendar_image_gen.py:283-293 | the day after a valid date other than 31 December 9999 is valid |
| Dates.CalendarWeekdayInMonth | models/calendar_image_gen.py:104 | the weekday of day d is the weekday of day 1 plus d - 1, modulo 7 |
| Dates.OrdinalNextDay | models/calendar_image_gen.py:104 | the proleptic ordinal of the next day is one more |
| Dates.WeekdayNextDay | models/calendar_image_gen.py:104 | the weekday advances by one each day, modulo 7 |
| Dates.Weekday | models/calendar_image_gen.py:104 | `date.weekday()` numbers the days 0 to 6; `Dates.WeekdayNextDay` and the reference value `Dates.FirstDayIsMonday` pin it down from 1 January of year 1 on |
| Dates.CalendarWeekday | models/calendar_image_gen.py:104 | `calendar.weekday` is in 0..6 and, for years 1 to 9999, is the date's `date.weekday()` |
| Dates.FirstDayIsMonday | models/calendar_image_gen.py:104 | reference value that anchors the numbering: 1 January of year 1 is weekday 0 (Monday) |
| Timestamp.ClockText | models/calendar_image_gen.py:46 | `strftime("%H:%M")` is five characters: two digits reading the hour, ':', two digits reading the minute |
| Timestamp.ParseTimestamp | models/calendar_image_gen.py:44 | every parsed timestamp is a valid date with an hour below 24 and a minute below 60 |
| Timestamp.ClockTextMidnight | models/calendar_image_gen.py:46 | `strftime("%H:%M") == "00:00"` exactly at midnight |
| Timestamp.FormatTimestamp | models/calendar_image_gen.py:44 | the canonical form "YYYY-MM-DD HH:MM", field by field |
| Timestamp.ParseFormat | models/calendar_image_gen.py:44 | parsing the canonical form of a valid date-time gives it back |
| Timestamp.ParseIgnoresSurroundingSpace | models/calendar_image_gen.py:44 | a whitespace character added before or after the stored string does not change the parse |
| Timestamp.ParseShortFields | models/calendar_image_gen.py:44 | unpadded fields such as "2025-3-5 9:07" are accepted |
| Timestamp.ParseRejectsSlashes | models/calendar_image_gen.py:44 | a date with slashes raises `ValueError` |
| Timestamp.ParseRejectsMissingDay | models/calendar_image_gen.py:44 | a well-formed string naming 29 February of a common year raises `ValueError` |
| Timestamp.ParseRejectsMinute60 | models/calendar_image_gen.py:44 | minute 60 raises `ValueError` |
| EventProjection.ReadEvents | models/calendar_image_gen.py:42-51 | the dictionary holds exactly the dates that have at least one parsable row, each with its rows' display strings in table order |
| EventProjection.ReadEventsDb | models/calendar_image_gen.py:42-51 | the same with the `strptime` model as the parser |
| EventProjection.DisplayText | models/calendar_image_gen.py:46-49 | the display string is the stripped title at midnight, otherwise the two-digit hour, ':', the two-digit minute, " - " and the stripped title |
| EventProjection.RowEntry | models/calendar_image_gen.py:44-49 | a row contributes an entry exactly when its timestamp parses; the entry is filed under the parsed date and carries the display string of the parsed date-time and the title |
| EventProjection.RowEntryFormatted | models/calendar_image_gen.py:44-49 | a row whose timestamp is written canonically lands on its own date with its display string |
| EventProjection.SkipUnparsable | models/calendar_image_gen.py:50-51 | a row that does not parse changes no date's list |
| EventProjection.EntriesOnConcat | models/calendar_image_gen.py:42-49 | the events of a date, read from two tables in sequence, are the first table's followed by the second's |
| EventProjection.GroupSelect | models/calendar_image_gen.py:45 | `setdefault` grouping keeps exactly the dates with entries, each with its entries in order |
| TextWrap.WrapText | models/calendar_image_gen.py:193-219 | the loop returns the greedy wrapping `Wrap` |
| TextWrap.WrapKeepsWords | models/calendar_image_gen.py:193-219 | the lines, joined by spaces, are the text's words joined by spaces: no word is lost, split or reordered |
| TextWrap.WrapLinesAcceptable | models/calendar_image_gen.py:209-217 | every line is non-empty and fits the width, unless it is a single word too wide for any line |
| TextWrap.WrapEmpty | models/calendar_image_gen.py:216-219 | no lines come out exactly when the text has no words |
| Colors.HexToRgb | utils/shared_utils.py:13-14 | a tuple is returned unchanged |
| Colors.LStripHash | utils/shared_utils.py:15 | `lstrip("#")` leaves a string that does not start with '#' |
| Colors.LStripHashSuffix | utils/shared_utils.py:15 | what `lstrip("#")` removes is a leading run of '#' only: the result is the rest of the string |
| Colors.Slice | utils/shared_utils.py:16 | Python's `s[i:j]` is the slice when j is within the string, the tail when only i is, and empty past the end |
| Colors.ParseHex | utils/shared_utils.py:16 | `int(s, 16)` succeeds exactly on a non-empty string of hex digits |
| Colors.HexToRgbSucceeds | utils/shared_utils.py:15-16 | decoding succeeds exactly when the '#'-stripped code is at least five characters long and its first six (or five) are hex digits |
| Colors.HexToRgbChannels | utils/shared_utils.py:16 | with six hex digits, channel i is the base-16 value of characters 2i and 2i+1 |
| Colors.HexToRgbRange | utils/shared_utils.py:16 | every decoded channel is in 0..255 |
| Colors.HashesIgnored | utils/shared_utils.py:15 | any number of leading '#' characters is ignored |
| Colors.HexRoundTrip | utils/shared_utils.py:6-18 | a colour written as "#rrggbb", in either case, decodes back to itself |
| Colors.HexToRgbIdempotent | utils/shared_utils.py:13-16 | converting an already converted colour changes nothing |
| MonthGrid.Lead | models/calendar_image_gen.py:104 | the number of blanks before day 1 is below 7 and moves the first weekday onto the weekday of day 1 |
| MonthGrid.Trail | models/calendar_image_gen.py:104 | the number of blanks after the last day is below 7 and completes the last week |
| MonthGrid.MonthDays | models/calendar_image_gen.py:104 | `itermonthdays` is the blanks, the days 1..n and the blanks, position by position |
| MonthGrid.MonthCalendar | models/calendar_image_gen.py:104 | `monthcalendar` cuts the padded days into weeks of exactly 7 |
| MonthGrid.MonthCalendarShape | models/calendar_image_gen.py:104 | the grid has 4 to 6 weeks of 7 cells, enough for the leading blanks and the days |
| MonthGrid.MonthCalendarZeros | models/calendar_image_gen.py:104 | zeros occur only before day 1 in the first week and after the last day in the last week |
| MonthGrid.MonthCalendarDay | models/calendar_image_gen.py:104 | every day of the month appears, at position lead + day - 1 |
| MonthGrid.MonthCalendarWeekday | models/calendar_image_gen.py:104 | a day in column c falls on weekday (first weekday + c) mod 7 |
| Cells.ClassifyCell | models/calendar_image_gen.py:262-297 | a non-zero cell is its own month's day; a zero cell in the first or last week is an adjacent-month day with its number shown; only a middle-week zero is blank and dateless |
| Cells.CountZeros | models/calendar_image_gen.py:252 | `sum(1 for d in s if d == 0)` counts at most the entries of s |
| Cells.CountZerosConcat | models/calendar_image_gen.py:252 | the count over two runs one after the other is the sum of their counts |
| Cells.CountZerosLeading | models/calendar_image_gen.py:280 | when the zeros are exactly the entries before index z, the first c entries hold min(c, z) of them |
| Cells.CountZerosTrailing | models/calendar_image_gen.py:288 | when the zeros are exactly the entries from index z on, the first c entries hold max(c - z, 0) of them |
| Cells.LeadingZeroCell | models/calendar_image_gen.py:279-285 | in a first week opening with `lead` zeros, the zero in column c shows day (days in the previous month - lead + 1 + c) of the previous month |
| Cells.TrailingZeroCell | models/calendar_image_gen.py:286-293 | in a last week whose zeros start at column z, the zero in column c shows day c - z + 1 of the next month |
| Cells.MonthCalendarCellDate | models/calendar_image_gen.py:268-297 | every cell of the month grid shows the date at its position in the run of days from the previous month through the next |
| Cells.CellDatesConsecutive | models/calendar_image_gen.py:268-297 | reading the grid row by row, each cell's date is the day after its predecessor's |
| Cells.CellDatesValid | models/calendar_image_gen.py:272-293 | within years 1 to 9999 every cell has a real date, unless it would leave that range |
| CellStyle.CellFill | models/calendar_image_gen.py:300-313 | a cell is filled, with the today background, exactly when it is today's cell of the displayed month |
| CellStyle.DayNumberColor | models/calendar_image_gen.py:316-321 | the text colour in the month, each channel halved and truncated outside it |
| CellStyle.EventColor | models/calendar_image_gen.py:335-342 | today's events use the today colour undimmed; other dates use the event colour, dimmed to 60% in adjacent-month cells |
| CellStyle.DimHalf | models/calendar_image_gen.py:320 | `max(0, int(c * 0.5))`: half of a non-negative channel rounded down, and 0 for a non-positive one |
| CellStyle.Dim60 | models/calendar_image_gen.py:342 | `max(0, int(c * 0.6))`: 60% of a non-negative channel rounded down, and 0 for a non-positive one |
| CellStyle.DimBounds | models/calendar_image_gen.py:320 | dimming keeps a channel in range and never brightens it |
| Layout.CellWidth | models/calendar_image_gen.py:107-109 | seven cells span the width between the side margins |
| Layout.CellHeight | models/calendar_image_gen.py:110-112 | the weeks share the height below the header band |
| Layout.CellBox | models/calendar_image_gen.py:257-260 | a cell's box is one cell width wide and one cell height high |
| Layout.CellBoxPosition | models/calendar_image_gen.py:257-258 | the cell in column c of week w has its left edge c cell widths right of the left margin and its top w cell heights below the header band |
| Layout.CellsTile | models/calendar_image_gen.py:257-260 | the cells of a column share their left edge across the weeks and the cells of a week share their top, neighbouring cells meet edge to edge, and the grid runs from the top-left to the bottom-right inside the margins and below the band |
| Layout.HeaderWeekday | models/calendar_image_gen.py:181 | each header shows a weekday in 0..6 |
| Layout.HeaderRotation | models/calendar_image_gen.py:180-182 | the headers show each weekday once, starting at the first weekday |
| Layout.HeaderPosition | models/calendar_image_gen.py:185-187 | header i sits 40 pixels right of its column's left edge and 60 below the top margin |
| Layout.TitlePosition | models/calendar_image_gen.py:92-95 | the title is centred horizontally at the top margin |
| Layout.DefaultCells | config/config.py:8-15 | the default cells are 920/7 pixels wide and 80 high in a six-week month |
| EventStack.LinesAtIndex | models/calendar_image_gen.py:347-354 | line k of an event is drawn 12k pixels below the first, in the event font and colour |
| EventStack.DrawLines | models/calendar_image_gen.py:347-354 | the inner loop draws the lines 12 apart and leaves the height 12 per line lower |
| EventStack.StackEvents | models/calendar_image_gen.py:343-359 | the outer loop draws the wrapped events in order and stops after the first that leaves the height below the cell |
| EventStack.StackShape | models/calendar_image_gen.py:343-359 | the cell shows all lines of its first drawn events, one under another |
| EventStack.DrawnStops | models/calendar_image_gen.py:355-359 | at least one event is drawn when there is one; drawing stops exactly after the first event that passes the bottom |
| Render.EventsShown | models/calendar_image_gen.py:330-359 | a cell without a date, or whose date has no events, draws no event text; otherwise the lines of the drawn events are stacked from 25 below the top, starting at the first, and any undrawn event follows an overflow |
| Render.CellLayout | models/calendar_image_gen.py:299-359 | a cell draws its outlined rectangle (filled only for today), then its day number at (+7, +5) when it has one, then its events |
| Render.DrawEvents | models/calendar_image_gen.py:330-359 | the event commands of a cell are those of `EventCmds` |
| Render.DrawBox | models/calendar_image_gen.py:299-359 | a cell's commands are its rectangle, its day number and its events |
| Render.DrawCell | models/calendar_image_gen.py:256-359 | a cell raises exactly when its date does not exist, and otherwise draws its box |
| Render.DrawWeek | models/calendar_image_gen.py:256-359 | a week draws its cells left to right, or one of its cells raises |
| Render.DrawDayBoxes | models/calendar_image_gen.py:221-363 | the grid draws without raising exactly when every cell's date exists, and then it draws every cell week by week |
| Render.DrawWeekdayHeaders | models/calendar_image_gen.py:169-191 | seven labels, label i being weekday (first weekday + i) mod 7 at its header position |
| Calendar.Config.constructor | config/config.py:8-31 | the default geometry and the six default colour strings |
| Calendar.Config.ResolveColors | models/calendar_image_gen.py:14-22 | the colours are converted in order and the first that fails stops it; success leaves all six resolved; an already resolved configuration is unchanged |
| Calendar.Converted | models/calendar_image_gen.py:17-22 | a field is a triple afterwards exactly when it was one or was reached and decodes |
| Calendar.DefaultColorsDecode | config/config.py:21-31 | reference values: the default colours decode to (0,0,0), (20,20,20), (255,255,255), (100,100,100), (15,15,15) and (224,224,224) |
| Calendar.Title | models/calendar_image_gen.py:88 | the title is the month name, a space and the year in decimal, which reads back as the year |
| Calendar.MonthSheet | models/calendar_image_gen.py:104 | the sheet's grid is `calendar.monthcalendar` of the month |
| Calendar.DrawSheet | models/calendar_image_gen.py:77-129 | the drawing succeeds exactly when every cell's date exists, and then it is the background, the title, the headers and the cells |
| Calendar.DrawCalendar | models/calendar_image_gen.py:60-129 | the same for the month's grid with the configuration's geometry and colours |
| Calendar.HeaderMatchesColumn | models/calendar_image_gen.py:179-191 | each column's header names the weekday of every day in that column |
| Calendar.MonthCellsValid | models/calendar_image_gen.py:268-297 | a sufficient condition: for years 1 to 9999 the drawing does not raise unless January of year 1 or December of 9999 shows an adjacent-month day |
| Calendar.EdgeMonthRaises | models/calendar_image_gen.py:272-293 | the converse: January of year 1 with leading blanks, or December of 9999 with trailing blanks, raises, since an adjacent day falls in year 0 or 10000 |
| Calendar.MonthOutOfRangeRaises | models/calendar_image_gen.py:272 | for years outside 1 to 9999 the drawing raises |
| Calendar.TodayHighlighted | models/calendar_image_gen.py:268-313 | the today fill marks exactly the cell at today's position when today is in the displayed month, and no cell otherwise |

## Left out

- The database access is left out: connecting, the query, closing and the catch-all exception handler. The rows of `SELECT event_datetime, title FROM events` are a parameter of `EventProjection.ReadEvents`, and that parameter is a sequence of strings, so a NULL column is not modelled.
- Logging is left out everywhere.
- The fonts are left out: loading, the fallback to the default font, `textbbox` and `textsize`. The width of a text is a parameter `string -> int`.
- Saving the image is left out. The drawing is returned as a command list; pixels and anti-aliasing are not modelled.
- `datetime.today()` is left out; today's date is a parameter.
- `calendar.setfirstweekday` is global state in the program. Here the first weekday is a parameter (0 Monday … 6 Sunday). The program passes 6 or 0.
- Floating point is left out. Cell geometry is exact real arithmetic. `int(c * 0.5)` and `int(c * 0.6)` truncate the exact product, so a float product that rounds just below an integer is not modelled.
- `Text.Split` and `Text.Strip` use the whitespace set of Python's `str.isspace`. Non-ASCII decimal digits, which `strptime` and `int` also accept, are not modelled.
- Colors.ParseHex: does not model the leniency of Python's `int(s, 16)`. Python accepts surrounding whitespace and a sign ("+f", "-f", " f"), so such colour codes decode there (and "-f" gives a negative channel), while the model rejects them.
- Colors.HexToRgb: a tuple configuration value is taken to be a triple of integers; a tuple of another shape is passed through by the program and is not modelled.
- The order in which dictionary keys were inserted is not modelled. Events are a `map`; each date's list keeps the table order.
- Render.DrawWeek and Render.DrawDayBoxes: on failure they do not state which commands were already issued. The program stops at the raising `datetime` call with a partly drawn image. The model states only that the failure happens, and exactly when.
- Calendar.Config.ResolveColors: the `ValueError` the program raises (from `int(s, 16)`) is modelled as `ok == false`. The fields already converted stay converted.
- Calendar.DrawCalendar: a month outside 1..12 is a precondition. In the program `calendar.month_name[month]` either fails or picks a wrong name before anything else.
- `Layout.MonthName` and `Layout.DayAbbr` fix the English names. `calendar.month_name` and `calendar.day_abbr` depend on the locale; the program never sets one, so the C locale's English names apply.
- `CALENDAR_MIN_NUM_ROWS` (config/config.py:18) is never read. The grid has as many weeks as `calendar.monthcalendar` returns (4 to 6).
- The event loop breaks only after an event's lines are drawn. An overflowing event's lines can therefore extend below the cell's bottom edge. The model follows the code (see `EventStack.DrawnStops`).
- cli/cli.py, gui/gui.py, models/common.py and utils/logger.py are not part of this model.
