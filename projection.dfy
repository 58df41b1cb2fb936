/** The row loop of `CalendarImageGen.read_events_db`: stored
    (timestamp, title) rows become a map from date to the display strings of
    that date's events, in row order. The database connection and query are
    left out; the rows they return are the input.

    The loop is stated for any timestamp parser that only yields valid date
    and times; the program's parser is `Timestamp.ParseTimestamp`
    (`strptime` of the stripped text), which is what `ReadEventsDb` passes. */
module EventProjection {
  import opened Wrappers
  import opened Text
  import opened Dates
  import opened Timestamp

  /** One row of `SELECT event_datetime, title FROM events`. */
  datatype Row = Row(timestamp: string, title: string)

  /** A timestamp parser whose successes are valid date and times. */
  ghost predicate ValidParser(parse: string -> Option<DateTime>) {
    forall s :: parse(s).Some? ==> IsValidDateTime(parse(s).value)
  }

  /** What an event shows: the stripped title alone at midnight, otherwise
      "HH:MM - " before it. */
  function DisplayText(dt: DateTime, title: string): (text: string)
    requires IsValidDateTime(dt)
    ensures dt.hour == 0 && dt.minute == 0 ==> text == Strip(title)
    ensures !(dt.hour == 0 && dt.minute == 0) ==> text == Pad2(dt.hour) + ":" + Pad2(dt.minute) + " - " + Strip(title)
  {
    ClockTextMidnight(dt);
    if ClockText(dt) == "00:00" then Strip(title)
    else ClockText(dt) + " - " + Strip(title)
  }

  /** The date and display text a row contributes, or None when its
      timestamp does not parse. */
  function RowEntry(parse: string -> Option<DateTime>, row: Row): (e: Option<(Date, string)>)
    requires ValidParser(parse)
    ensures e.Some? <==> parse(row.timestamp).Some?
    ensures e.Some? ==> e.value.0 == parse(row.timestamp).value.date
    ensures e.Some? ==> e.value.1 == DisplayText(parse(row.timestamp).value, row.title)
  {
    var dt :- parse(row.timestamp);
    Some((dt.date, DisplayText(dt, row.title)))
  }

  /** The texts of the entries dated d, in order. */
  function Select(es: seq<Option<(Date, string)>>, d: Date): seq<string>
  {
    if es == [] then []
    else
      var e := es[|es| - 1];
      Select(es[..|es| - 1], d) + (if e.Some? && e.value.0 == d then [e.value.1] else [])
  }

  /** What each row contributes, in row order. */
  function Entries(parse: string -> Option<DateTime>, rows: seq<Row>): (es: seq<Option<(Date, string)>>)
    requires ValidParser(parse)
    ensures |es| == |rows|
  {
    if rows == [] then [] else Entries(parse, rows[..|rows| - 1]) + [RowEntry(parse, rows[|rows| - 1])]
  }

  /** Reference definition: the display texts of the rows dated d, in row order. */
  function EntriesOn(parse: string -> Option<DateTime>, rows: seq<Row>, d: Date): seq<string>
    requires ValidParser(parse)
  {
    Select(Entries(parse, rows), d)
  }

  /** The entries grouped by date as the loop groups them: each entry is
      appended to the list of its date, the list made on the date's first entry. */
  function Group(es: seq<Option<(Date, string)>>): map<Date, seq<string>>
  {
    if es == [] then map[]
    else
      var m, e := Group(es[..|es| - 1]), es[|es| - 1];
      if e.None? then m
      else m[e.value.0 := (if e.value.0 in m then m[e.value.0] else []) + [e.value.1]]
  }

  /** The loop: each row that parses is appended to the list of its date,
      creating the list on the date's first row; a row that does not parse is
      skipped and the loop goes on. Every date with at least one parsed row
      is a key, no other date is, and its list holds exactly that date's
      display texts in row order (so no list is empty). */
  method ReadEvents(parse: string -> Option<DateTime>, rows: seq<Row>) returns (events: map<Date, seq<string>>)
    requires ValidParser(parse)
    ensures forall d :: d in events <==> EntriesOn(parse, rows, d) != []
    ensures forall d :: d in events ==> events[d] == EntriesOn(parse, rows, d)
  {
    events := map[];
    var i := 0;
    while i < |rows|
      invariant 0 <= i <= |rows|
      invariant events == Group(Entries(parse, rows[..i]))
    {
      var e := RowEntry(parse, rows[i]);
      ReadStep(parse, rows, i);
      if e.Some? {
        var (day, text) := e.value;
        var list := if day in events then events[day] else [];
        events := events[day := list + [text]];
      }
      i := i + 1;
    }
    assert rows[..|rows|] == rows;
    forall d
      ensures d in events <==> EntriesOn(parse, rows, d) != []
      ensures d in events ==> events[d] == EntriesOn(parse, rows, d)
    {
      GroupSelect(Entries(parse, rows), d);
    }
  }

  /** `read_events_db` as the program runs it, with `strptime` of the stripped timestamp. */
  method ReadEventsDb(rows: seq<Row>) returns (events: map<Date, seq<string>>)
    ensures forall d :: d in events <==> EntriesOn(ParseTimestamp, rows, d) != []
    ensures forall d :: d in events ==> events[d] == EntriesOn(ParseTimestamp, rows, d)
  {
    events := ReadEvents(ParseTimestamp, rows);
  }

  lemma SelectSnoc(es: seq<Option<(Date, string)>>, e: Option<(Date, string)>, d: Date)
    ensures Select(es + [e], d) == Select(es, d) + (if e.Some? && e.value.0 == d then [e.value.1] else [])
  {
    assert (es + [e])[..|es|] == es;
  }

  lemma EntriesSnoc(parse: string -> Option<DateTime>, rows: seq<Row>, i: int)
    requires ValidParser(parse)
    requires 0 <= i < |rows|
    ensures Entries(parse, rows[..i + 1]) == Entries(parse, rows[..i]) + [RowEntry(parse, rows[i])]
  {
    assert rows[..i + 1][..i] == rows[..i];
  }

  /** One turn of the loop: the row at i is appended to the list of its date. */
  lemma ReadStep(parse: string -> Option<DateTime>, rows: seq<Row>, i: int)
    requires ValidParser(parse)
    requires 0 <= i < |rows|
    ensures var m, e := Group(Entries(parse, rows[..i])), RowEntry(parse, rows[i]);
      Group(Entries(parse, rows[..i + 1]))
      == if e.None? then m else m[e.value.0 := (if e.value.0 in m then m[e.value.0] else []) + [e.value.1]]
  {
    EntriesSnoc(parse, rows, i);
    GroupSnoc(Entries(parse, rows[..i]), RowEntry(parse, rows[i]));
  }

  lemma GroupSnoc(es: seq<Option<(Date, string)>>, e: Option<(Date, string)>)
    ensures var m := Group(es);
      Group(es + [e]) == if e.None? then m else m[e.value.0 := (if e.value.0 in m then m[e.value.0] else []) + [e.value.1]]
  {
    assert (es + [e])[..|es|] == es;
  }

  /** Grouping keeps exactly the dates with a non-empty selection, each with
      its selection. */
  lemma {:induction false} GroupSelect(es: seq<Option<(Date, string)>>, d: Date)
    ensures d in Group(es) <==> Select(es, d) != []
    ensures d in Group(es) ==> Group(es)[d] == Select(es, d)
  {
    if es != [] {
      GroupSelect(es[..|es| - 1], d);
    }
  }

  /** Selecting from two batches of entries selects from the first, then from the second. */
  lemma {:induction false} SelectConcat(a: seq<Option<(Date, string)>>, b: seq<Option<(Date, string)>>, d: Date)
    ensures Select(a + b, d) == Select(a, d) + Select(b, d)
  {
    if b == [] {
      assert a + b == a;
    } else {
      var init, last := b[..|b| - 1], b[|b| - 1];
      assert a + b == (a + init) + [last];
      assert b == init + [last];
      SelectSnoc(a + init, last, d);
      SelectSnoc(init, last, d);
      SelectConcat(a, init, d);
    }
  }

  /** The entries of two batches of rows are those of the first followed by
      those of the second: the order of the rows is the order of the list. */
  lemma EntriesOnConcat(parse: string -> Option<DateTime>, a: seq<Row>, b: seq<Row>, d: Date)
    requires ValidParser(parse)
    ensures EntriesOn(parse, a + b, d) == EntriesOn(parse, a, d) + EntriesOn(parse, b, d)
  {
    EntriesConcat(parse, a, b);
    SelectConcat(Entries(parse, a), Entries(parse, b), d);
  }

  lemma {:induction false} EntriesConcat(parse: string -> Option<DateTime>, a: seq<Row>, b: seq<Row>)
    requires ValidParser(parse)
    ensures Entries(parse, a + b) == Entries(parse, a) + Entries(parse, b)
  {
    if b == [] {
      assert a + b == a;
    } else {
      var init := b[..|b| - 1];
      assert (a + b)[..|a + b| - 1] == a + init;
      assert (a + b)[|a + b| - 1] == b[|b| - 1];
      EntriesConcat(parse, a, init);
    }
  }

  /** A row whose timestamp does not parse adds nothing, wherever it stands. */
  lemma SkipUnparsable(parse: string -> Option<DateTime>, before: seq<Row>, bad: Row, after: seq<Row>, d: Date)
    requires ValidParser(parse)
    requires parse(bad.timestamp) == None
    ensures EntriesOn(parse, before + [bad] + after, d) == EntriesOn(parse, before + after, d)
  {
    EntriesOnConcat(parse, before + [bad], after, d);
    EntriesOnConcat(parse, before, [bad], d);
    EntriesOnConcat(parse, before, after, d);
    EntriesOnUnparsable(parse, bad, d);
  }

  lemma EntriesOnUnparsable(parse: string -> Option<DateTime>, bad: Row, d: Date)
    requires ValidParser(parse)
    requires parse(bad.timestamp) == None
    ensures EntriesOn(parse, [bad], d) == []
  {
    assert Entries(parse, [bad]) == [RowEntry(parse, bad)] by {
      assert [bad][..0] == [];
    }
    SelectSnoc([], RowEntry(parse, bad), d);
    assert [] + [RowEntry(parse, bad)] == [RowEntry(parse, bad)];
  }

  /** A row whose timestamp is spelled "YYYY-MM-DD HH:MM" is read back to
      its date and time. */
  lemma RowEntryFormatted(dt: DateTime, title: string)
    requires IsValidDateTime(dt)
    ensures RowEntry(ParseTimestamp, Row(FormatTimestamp(dt), title)) == Some((dt.date, DisplayText(dt, title)))
  {
    ParseFormat(dt);
  }
}
