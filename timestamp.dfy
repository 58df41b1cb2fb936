/** `datetime.strptime(s, "%Y-%m-%d %H:%M")` and `dt.strftime("%H:%M")`.

    The parser follows the regular expression the standard library builds
    for that format: a four-digit year; a month written `1[0-2]`, `0[1-9]`
    or `[1-9]`; a day written `3[01]`, `[12]\d`, `0[1-9]`, `[1-9]` or
    ` [1-9]`; one or more whitespace characters; an hour written `2[0-3]`,
    `[01]\d` or `\d`; a minute written `[0-5]\d` or `\d`; and nothing after
    it. Alternatives are tried in that order, and an alternative of a field
    that is followed by a separator is kept only when the separator follows
    it, which is where the regular expression's backtracking ends up. A
    match whose date does not exist (year 0, 30 February) raises
    `ValueError` like a string that does not match. */
module Timestamp {
  import opened Wrappers
  import opened Text
  import opened Dates

  /** A `datetime` with minute resolution. */
  datatype DateTime = DateTime(date: Date, hour: int, minute: int)

  predicate IsValidDateTime(dt: DateTime) {
    IsValidDate(dt.date) && 0 <= dt.hour < 24 && 0 <= dt.minute < 60
  }

  /** A parsed field: its value and the position just after it. */
  datatype Field = Field(value: int, next: nat)

  predicate InRange(c: char, lo: char, hi: char) {
    lo <= c <= hi
  }

  /** The year group `\d\d\d\d` at the start, followed by '-'. */
  function YearField(t: string): (r: Option<Field>)
    ensures r.Some? ==> r.value.next == 4 && 0 <= r.value.value <= 9999
  {
    if |t| > 4 && (forall k :: 0 <= k < 4 ==> IsDigit(t[k])) && t[4] == '-'
    then
      DecimalValueBound(t[..4]);
      Some(Field(DecimalValue(t[..4]), 4))
    else None
  }

  /** The month group at position p, followed by '-'. */
  function MonthField(t: string, p: nat): (r: Option<Field>)
    ensures r.Some? ==> p < r.value.next < |t| && t[r.value.next] == '-' && 1 <= r.value.value <= 12
  {
    if p + 2 < |t| && t[p] == '1' && InRange(t[p + 1], '0', '2') && t[p + 2] == '-' then
      Some(Field(10 + DigitValue(t[p + 1]), p + 2))
    else if p + 2 < |t| && t[p] == '0' && InRange(t[p + 1], '1', '9') && t[p + 2] == '-' then
      Some(Field(DigitValue(t[p + 1]), p + 2))
    else if p + 1 < |t| && InRange(t[p], '1', '9') && t[p + 1] == '-' then
      Some(Field(DigitValue(t[p]), p + 1))
    else None
  }

  /** The day group at position p, followed by whitespace. */
  function DayField(t: string, p: nat): (r: Option<Field>)
    ensures r.Some? ==> p < r.value.next < |t| && IsSpace(t[r.value.next]) && 1 <= r.value.value <= 31
  {
    if p + 2 < |t| && t[p] == '3' && InRange(t[p + 1], '0', '1') && IsSpace(t[p + 2]) then
      Some(Field(30 + DigitValue(t[p + 1]), p + 2))
    else if p + 2 < |t| && InRange(t[p], '1', '2') && IsDigit(t[p + 1]) && IsSpace(t[p + 2]) then
      Some(Field(10 * DigitValue(t[p]) + DigitValue(t[p + 1]), p + 2))
    else if p + 2 < |t| && t[p] == '0' && InRange(t[p + 1], '1', '9') && IsSpace(t[p + 2]) then
      Some(Field(DigitValue(t[p + 1]), p + 2))
    else if p + 1 < |t| && InRange(t[p], '1', '9') && IsSpace(t[p + 1]) then
      Some(Field(DigitValue(t[p]), p + 1))
    else if p + 2 < |t| && t[p] == ' ' && InRange(t[p + 1], '1', '9') && IsSpace(t[p + 2]) then
      Some(Field(DigitValue(t[p + 1]), p + 2))
    else None
  }

  /** Number of whitespace characters starting at position p (the `\s+` of the format). */
  function SpaceRun(t: string, p: nat): (n: nat)
    requires p <= |t|
    ensures p + n <= |t|
    ensures forall k :: p <= k < p + n ==> IsSpace(t[k])
    ensures p + n < |t| ==> !IsSpace(t[p + n])
    decreases |t| - p
  {
    if p < |t| && IsSpace(t[p]) then 1 + SpaceRun(t, p + 1) else 0
  }

  /** The hour group at position p, followed by ':'. */
  function HourField(t: string, p: nat): (r: Option<Field>)
    ensures r.Some? ==> p < r.value.next < |t| && t[r.value.next] == ':' && 0 <= r.value.value <= 23
  {
    if p + 2 < |t| && t[p] == '2' && InRange(t[p + 1], '0', '3') && t[p + 2] == ':' then
      Some(Field(20 + DigitValue(t[p + 1]), p + 2))
    else if p + 2 < |t| && InRange(t[p], '0', '1') && IsDigit(t[p + 1]) && t[p + 2] == ':' then
      Some(Field(10 * DigitValue(t[p]) + DigitValue(t[p + 1]), p + 2))
    else if p + 1 < |t| && IsDigit(t[p]) && t[p + 1] == ':' then
      Some(Field(DigitValue(t[p]), p + 1))
    else None
  }

  /** The minute group at position p, the last of the format: the first
      alternative that matches is taken, whatever follows it. */
  function MinuteField(t: string, p: nat): (r: Option<Field>)
    ensures r.Some? ==> p < r.value.next <= |t| && 0 <= r.value.value <= 59
  {
    if p + 1 < |t| && InRange(t[p], '0', '5') && IsDigit(t[p + 1]) then
      Some(Field(10 * DigitValue(t[p]) + DigitValue(t[p + 1]), p + 2))
    else if p < |t| && IsDigit(t[p]) then
      Some(Field(DigitValue(t[p]), p + 1))
    else None
  }

  /** The five numbers a successful match of the format yields. */
  datatype Fields = Fields(year: int, month: int, day: int, hour: int, minute: int)

  /** The match of the whole format against an already stripped string, with
      the check that nothing is left over after the minute. */
  function MatchFormat(t: string): (r: Option<Fields>)
    ensures r.Some? ==> 0 <= r.value.year <= 9999 && 1 <= r.value.month <= 12 && 1 <= r.value.day <= 31
    ensures r.Some? ==> 0 <= r.value.hour < 24 && 0 <= r.value.minute < 60
  {
    var year :- YearField(t);
    var month :- MonthField(t, year.next + 1);
    var day :- DayField(t, month.next + 1);
    var hourAt := day.next + SpaceRun(t, day.next);
    var hour :- HourField(t, hourAt);
    var minute :- MinuteField(t, hour.next + 1);
    if minute.next != |t| then None  // "unconverted data remains"
    else Some(Fields(year.value, month.value, day.value, hour.value, minute.value))
  }

  /** `datetime.strptime(t, "%Y-%m-%d %H:%M")`: the match, then the check that
      the date exists; None where either raises `ValueError`. */
  function ParseStripped(t: string): (r: Option<DateTime>)
    ensures r.Some? ==> IsValidDateTime(r.value)
  {
    var f :- MatchFormat(t);
    var dt := DateTime(Date(f.year, f.month, f.day), f.hour, f.minute);
    if IsValidDate(dt.date) then Some(dt) else None
  }

  /** `datetime.strptime(raw.strip(), "%Y-%m-%d %H:%M")`. */
  function ParseTimestamp(raw: string): (r: Option<DateTime>)
    ensures r.Some? ==> IsValidDateTime(r.value)
  {
    ParseStripped(Strip(raw))
  }

  /** `dt.strftime("%H:%M")`. */
  function ClockText(dt: DateTime): (s: string)
    requires IsValidDateTime(dt)
    ensures |s| == 5 && s[2] == ':'
    ensures IsDigit(s[0]) && IsDigit(s[1]) && IsDigit(s[3]) && IsDigit(s[4])
    ensures 10 * DigitValue(s[0]) + DigitValue(s[1]) == dt.hour
    ensures 10 * DigitValue(s[3]) + DigitValue(s[4]) == dt.minute
  {
    Pad2(dt.hour) + ":" + Pad2(dt.minute)
  }

  /** The clock reads "00:00" exactly at midnight. */
  lemma ClockTextMidnight(dt: DateTime)
    requires IsValidDateTime(dt)
    ensures ClockText(dt) == "00:00" <==> dt.hour == 0 && dt.minute == 0
  {
    var s := ClockText(dt);
    if s == "00:00" {
      assert DigitValue(s[0]) == 0 && DigitValue(s[1]) == 0;
      assert DigitValue(s[3]) == 0 && DigitValue(s[4]) == 0;
    }
  }

  /** The canonical spelling "YYYY-MM-DD HH:MM" of a valid date and time. */
  function FormatTimestamp(dt: DateTime): (s: string)
    requires IsValidDateTime(dt)
    ensures |s| == 16 && s[..4] == Pad4(dt.date.year) && s[4] == '-' && s[7] == '-' && s[10] == ' ' && s[13] == ':'
    ensures s[5] == Pad2(dt.date.month)[0] && s[6] == Pad2(dt.date.month)[1]
    ensures s[8] == Pad2(dt.date.day)[0] && s[9] == Pad2(dt.date.day)[1]
    ensures s[11] == Pad2(dt.hour)[0] && s[12] == Pad2(dt.hour)[1]
    ensures s[14] == Pad2(dt.minute)[0] && s[15] == Pad2(dt.minute)[1]
  {
    var y, mo, d, c := Pad4(dt.date.year), Pad2(dt.date.month), Pad2(dt.date.day), ClockText(dt);
    [y[0], y[1], y[2], y[3], '-', mo[0], mo[1], '-', d[0], d[1], ' ', c[0], c[1], c[2], c[3], c[4]]
  }

  /** A zero-padded year followed by '-' is read back by the year group. */
  lemma YearFieldPadded(t: string, y: int)
    requires 0 <= y < 10000 && |t| > 4
    requires t[..4] == Pad4(y) && t[4] == '-'
    ensures YearField(t) == Some(Field(y, 4))
  {
    assert forall k :: 0 <= k < 4 ==> t[k] == t[..4][k];
  }

  /** A zero-padded month followed by '-' is read back by the month group. */
  lemma MonthFieldPadded(t: string, p: nat, m: int)
    requires 1 <= m <= 12 && p + 2 < |t|
    requires t[p] == Pad2(m)[0] && t[p + 1] == Pad2(m)[1] && t[p + 2] == '-'
    ensures MonthField(t, p) == Some(Field(m, p + 2))
  {
  }

  /** A zero-padded day followed by whitespace is read back by the day group. */
  lemma DayFieldPadded(t: string, p: nat, d: int)
    requires 1 <= d <= 31 && p + 2 < |t|
    requires t[p] == Pad2(d)[0] && t[p + 1] == Pad2(d)[1] && IsSpace(t[p + 2])
    ensures DayField(t, p) == Some(Field(d, p + 2))
  {
  }

  /** A zero-padded hour followed by ':' is read back by the hour group. */
  lemma HourFieldPadded(t: string, p: nat, h: int)
    requires 0 <= h < 24 && p + 2 < |t|
    requires t[p] == Pad2(h)[0] && t[p + 1] == Pad2(h)[1] && t[p + 2] == ':'
    ensures HourField(t, p) == Some(Field(h, p + 2))
  {
  }

  /** A zero-padded minute is read back by the minute group. */
  lemma MinuteFieldPadded(t: string, p: nat, m: int)
    requires 0 <= m < 60 && p + 1 < |t|
    requires t[p] == Pad2(m)[0] && t[p + 1] == Pad2(m)[1]
    ensures MinuteField(t, p) == Some(Field(m, p + 2))
  {
  }

  /** The format matches any 16-character string laid out as
      "YYYY-MM-DD HH:MM" with zero-padded fields in range. */
  lemma MatchPadded(t: string, f: Fields)
    requires 0 <= f.year < 10000 && 1 <= f.month <= 12 && 1 <= f.day <= 31
    requires 0 <= f.hour < 24 && 0 <= f.minute < 60
    requires |t| == 16 && t[..4] == Pad4(f.year) && t[4] == '-' && t[7] == '-' && t[10] == ' ' && t[13] == ':'
    requires t[5] == Pad2(f.month)[0] && t[6] == Pad2(f.month)[1]
    requires t[8] == Pad2(f.day)[0] && t[9] == Pad2(f.day)[1]
    requires t[11] == Pad2(f.hour)[0] && t[12] == Pad2(f.hour)[1]
    requires t[14] == Pad2(f.minute)[0] && t[15] == Pad2(f.minute)[1]
    ensures MatchFormat(t) == Some(f)
  {
    YearFieldPadded(t, f.year);
    MonthFieldPadded(t, 5, f.month);
    DayFieldPadded(t, 8, f.day);
    assert SpaceRun(t, 11) == 0;
    assert SpaceRun(t, 10) == 1;
    HourFieldPadded(t, 11, f.hour);
    MinuteFieldPadded(t, 14, f.minute);
  }

  /** Parsing the canonical spelling of a valid date and time gives it back. */
  lemma ParseFormat(dt: DateTime)
    requires IsValidDateTime(dt)
    ensures ParseTimestamp(FormatTimestamp(dt)) == Some(dt)
  {
    var s := FormatTimestamp(dt);
    MatchPadded(s, Fields(dt.date.year, dt.date.month, dt.date.day, dt.hour, dt.minute));
    assert ParseStripped(s) == Some(dt);
    StripKeeps(s);
  }

  /** Surrounding whitespace is stripped before parsing. */
  lemma ParseIgnoresSurroundingSpace(c: char, raw: string)
    requires IsSpace(c)
    ensures ParseTimestamp([c] + raw) == ParseTimestamp(raw)
    ensures ParseTimestamp(raw + [c]) == ParseTimestamp(raw)
  {
    StripSpacePrefix(c, raw);
    StripSpaceSuffix(raw, c);
  }

  /** Single-digit month, day and hour fields are accepted, as `strptime` accepts them. */
  lemma ParseShortFields()
    ensures ParseTimestamp("2025-3-5 9:07") == Some(DateTime(Date(2025, 3, 5), 9, 7))
  {
    var s := "2025-3-5 9:07";
    assert s[..4] == "2025";
    assert DecimalValue(s[..4]) == 2025 by {
      assert s[..4][..3] == "202" && "202"[..2] == "20" && "20"[..1] == "2" && "2"[..0] == [];
    }
    assert YearField(s) == Some(Field(2025, 4));
    assert MonthField(s, 5) == Some(Field(3, 6));
    assert DayField(s, 7) == Some(Field(5, 8));
    assert SpaceRun(s, 8) == 1;
    assert HourField(s, 9) == Some(Field(9, 10));
    assert MinuteField(s, 11) == Some(Field(7, 13));
    assert ParseStripped(s) == Some(DateTime(Date(2025, 3, 5), 9, 7));
    StripKeeps(s);
  }

  /** A date written with slashes does not match the format. */
  lemma ParseRejectsSlashes()
    ensures ParseTimestamp("2025/03/10") == None
  {
    var a := "2025/03/10";
    assert YearField(a) == None;
    assert ParseStripped(a) == None;
    StripKeeps(a);
  }

  /** 29 February 2025 matches the format but does not exist. */
  lemma ParseRejectsMissingDay()
    ensures ParseTimestamp("2025-02-29 10:00") == None
  {
    var b := "2025-02-29 10:00";
    MissingDayDate();
    MissingDayClock();
    assert MatchFormat(b) == Some(Fields(2025, 2, 29, 10, 0));
    assert ParseStripped(b) == None;
    StripKeeps(b);
  }

  lemma MissingDayDate()
    ensures var b := "2025-02-29 10:00";
      && YearField(b) == Some(Field(2025, 4))
      && MonthField(b, 5) == Some(Field(2, 7))
      && DayField(b, 8) == Some(Field(29, 10))
  {
    var b := "2025-02-29 10:00";
    assert b[0] == '2' && b[1] == '0' && b[2] == '2' && b[3] == '5' && b[4] == '-';
    assert b[5] == '0' && b[6] == '2' && b[7] == '-';
    assert b[..4] == "2025";
    assert DecimalValue(b[..4]) == 2025 by {
      assert b[..4][..3] == "202" && "202"[..2] == "20" && "20"[..1] == "2" && "2"[..0] == [];
    }
  }

  lemma MissingDayClock()
    ensures var b := "2025-02-29 10:00";
      && SpaceRun(b, 10) == 1
      && HourField(b, 11) == Some(Field(10, 13))
      && MinuteField(b, 14) == Some(Field(0, 16))
  {
  }

  /** Minute 60 leaves its second digit unconverted. */
  lemma ParseRejectsMinute60()
    ensures ParseTimestamp("2025-03-10 10:60") == None
  {
    var c := "2025-03-10 10:60";
    MatchMinute60();
    assert ParseStripped(c) == None;
    StripKeeps(c);
  }

  lemma MatchMinute60()
    ensures MatchFormat("2025-03-10 10:60") == None
  {
    Minute60Date();
    Minute60Clock();
  }

  lemma Minute60Date()
    ensures var c := "2025-03-10 10:60";
      && YearField(c).Some? && YearField(c).value.next == 4
      && MonthField(c, 5) == Some(Field(3, 7))
      && DayField(c, 8) == Some(Field(10, 10))
  {
  }

  lemma Minute60Clock()
    ensures var c := "2025-03-10 10:60";
      && SpaceRun(c, 10) == 1
      && HourField(c, 11) == Some(Field(10, 13))
      && MinuteField(c, 14) == Some(Field(6, 15))
  {
  }
}
