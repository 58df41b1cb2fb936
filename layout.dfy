/** The geometry of the wallpaper: the title position, the weekday header
    positions and the cell boxes of the month grid, in exact real arithmetic
    (the program computes them in floating point). The grid fills the image
    inside its margins, below a 100-pixel band for the title and headers. */
module Layout {

  /** The image size and margins of the configuration, in pixels. */
  datatype Dimensions = Dimensions(imgWidth: int, imgHeight: int, marginTop: int, marginBottom: int, marginLeft: int, marginRight: int)

  datatype Box = Box(left: real, top: real, right: real, bottom: real)

  /** The default configuration: a 1920x1080 image with margins 50 (top),
      450 (bottom), 500 (left) and 500 (right). */
  const DefaultDimensions := Dimensions(1920, 1080, 50, 450, 500, 500)

  /** The space between the header band and the bottom margin. */
  function GridHeight(l: Dimensions): int
  {
    l.imgHeight - l.marginTop - l.marginBottom - 100
  }

  /** `cell_width`: a seventh of the width between the side margins. */
  function CellWidth(l: Dimensions): (w: real)
    ensures 7.0 * w == (l.imgWidth - l.marginLeft - l.marginRight) as real
  {
    (l.imgWidth - l.marginLeft - l.marginRight) as real / 7.0
  }

  /** `cell_height`: the grid height shared among the weeks. */
  function CellHeight(l: Dimensions, weeks: nat): (h: real)
    requires weeks > 0
    ensures weeks as real * h == GridHeight(l) as real
  {
    GridHeight(l) as real / weeks as real
  }

  /** The box of the cell in column c of week w. */
  function CellBox(l: Dimensions, weeks: nat, w: int, c: int): (b: Box)
    requires weeks > 0
    ensures b.right - b.left == CellWidth(l) && b.bottom - b.top == CellHeight(l, weeks)
  {
    var left := l.marginLeft as real + c as real * CellWidth(l);
    var top := (l.marginTop + 100) as real + w as real * CellHeight(l, weeks);
    Box(left, top, left + CellWidth(l), top + CellHeight(l, weeks))
  }

  /** The cell in column c of week w starts c cell widths right of the left
      margin and w cell heights below the header band. */
  lemma CellBoxPosition(l: Dimensions, weeks: nat, w: int, c: int)
    requires weeks > 0
    ensures CellBox(l, weeks, w, c).left == l.marginLeft as real + c as real * CellWidth(l)
    ensures CellBox(l, weeks, w, c).top == (l.marginTop + 100) as real + w as real * CellHeight(l, weeks)
  {
  }

  /** The cells tile the grid area: the cells of a column line up across
      the weeks and the cells of a week line up across the columns,
      neighbours share their edges, the first
      cell starts at the top-left corner inside the margins and the header
      band, and the last cell ends at the bottom-right corner inside the
      margins. */
  lemma CellsTile(l: Dimensions, weeks: nat, w: int, c: int)
    requires weeks > 0
    ensures CellBox(l, weeks, w, c).left == CellBox(l, weeks, w + 1, c).left
    ensures CellBox(l, weeks, w, c).top == CellBox(l, weeks, w, c + 1).top
    ensures CellBox(l, weeks, w, c).right == CellBox(l, weeks, w, c + 1).left
    ensures CellBox(l, weeks, w, c).bottom == CellBox(l, weeks, w + 1, c).top
    ensures CellBox(l, weeks, 0, 0).left == l.marginLeft as real
    ensures CellBox(l, weeks, 0, 0).top == (l.marginTop + 100) as real
    ensures CellBox(l, weeks, weeks - 1, 6).right == (l.imgWidth - l.marginRight) as real
    ensures CellBox(l, weeks, weeks - 1, 6).bottom == (l.imgHeight - l.marginBottom) as real
  {
    var h := CellHeight(l, weeks);
    assert (weeks - 1) as real * h + h == weeks as real * h;
  }

  /** `calendar.day_abbr`, Monday first. */
  const DayAbbr: seq<string> := ["Mon", "Tue", "Wed", "Thu", "Fri", "Sat", "Sun"]

  /** `calendar.month_name`; index 0 is the empty name. */
  const MonthName: seq<string> := ["", "January", "February", "March", "April", "May", "June",
                                   "July", "August", "September", "October", "November", "December"]

  /** The weekday shown in header column i: `(start_of_week + i) % 7`. */
  function HeaderWeekday(firstWeekday: int, i: int): (d: int)
    ensures 0 <= d < 7
  {
    (firstWeekday + i) % 7
  }

  /** The header columns show each weekday exactly once, starting with the
      first weekday: column i shows weekday d exactly when i is d's distance
      after the first weekday. */
  lemma HeaderRotation(firstWeekday: int, i: int, d: int)
    requires 0 <= firstWeekday < 7 && 0 <= i < 7 && 0 <= d < 7
    ensures HeaderWeekday(firstWeekday, i) == d <==> i == (d - firstWeekday) % 7
    ensures HeaderWeekday(firstWeekday, 0) == firstWeekday
  {
  }

  /** Where the header of column i is drawn: 40 pixels right of the
      column's left edge, 60 below the top margin. */
  function HeaderPosition(l: Dimensions, cellWidth: real, i: int): (pos: (real, real))
    ensures pos.0 == l.marginLeft as real + i as real * cellWidth + 40.0
    ensures pos.1 == (l.marginTop + 60) as real
  {
    var x := l.marginLeft as real + i as real * cellWidth + 20.0;
    (x + 20.0, (l.marginTop + 60) as real)
  }

  /** The title is centred horizontally on the top margin. */
  function TitlePosition(l: Dimensions, titleWidth: int): (pos: (real, real))
    ensures pos.0 + titleWidth as real / 2.0 == l.imgWidth as real / 2.0
    ensures pos.1 == l.marginTop as real
  {
    ((l.imgWidth - titleWidth) as real / 2.0, l.marginTop as real)
  }

  /** With the default configuration the cells are 920/7 pixels wide and the
      grid is 480 pixels high: 80 per week for six weeks, 120 for four. */
  lemma DefaultCells()
    ensures CellWidth(DefaultDimensions) == 920.0 / 7.0
    ensures CellHeight(DefaultDimensions, 6) == 80.0 && CellHeight(DefaultDimensions, 4) == 120.0
  {
  }
}
