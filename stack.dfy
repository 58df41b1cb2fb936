/** The event lines of one cell in `draw_day_boxes_and_events`: the cell's
    events are taken in order, each is wrapped to the cell width and all of
    its lines are drawn 12 pixels apart from `cell_top + 25` down; after an
    event whose last line leaves the running height below the cell's
    bottom, no further event is drawn. The event that overflows is still
    drawn in full. */
module EventStack {
  import opened Colors
  import opened TextWrap
  import opened Commands

  /** The line spacing of event text. */
  const LineStep: real := 12.0

  /** Lines ls drawn one under another from height y. */
  function LinesAt(ls: seq<string>, x: real, y: real, color: Rgb): (cmds: seq<DrawCmd>)
    ensures |cmds| == |ls|
  {
    if ls == [] then []
    else LinesAt(ls[..|ls| - 1], x, y, color) + [Label(x, y + LineStep * (|ls| - 1) as real, ls[|ls| - 1], color, EventFont)]
  }

  /** Line k is drawn at height y + 12k, at the same x, in the same colour
      and the event font. */
  lemma {:induction false} LinesAtIndex(ls: seq<string>, x: real, y: real, color: Rgb, k: int)
    requires 0 <= k < |ls|
    ensures LinesAt(ls, x, y, color)[k] == Label(x, y + LineStep * k as real, ls[k], color, EventFont)
  {
    if k < |ls| - 1 {
      LinesAtIndex(ls[..|ls| - 1], x, y, color, k);
    }
  }

  /** The wrapped lines of each event, in order. */
  function WrapAll(events: seq<string>, measure: string -> int, maxWidth: real): (blocks: seq<seq<string>>)
    ensures |blocks| == |events|
  {
    if events == [] then [] else [Wrap(events[0], measure, maxWidth)] + WrapAll(events[1..], measure, maxWidth)
  }

  /** Block i is the wrapping of event i. */
  lemma {:induction false} WrapAllAt(events: seq<string>, measure: string -> int, maxWidth: real, i: int)
    requires 0 <= i < |events|
    ensures WrapAll(events, measure, maxWidth)[i] == Wrap(events[i], measure, maxWidth)
  {
    if i > 0 {
      WrapAllAt(events[1..], measure, maxWidth, i - 1);
    }
  }

  /** What the loop draws for the wrapped events `blocks` from height y: the
      lines of the first event, then, unless they took the height past
      `bottom`, the rest. */
  function StackFrom(blocks: seq<seq<string>>, x: real, y: real, bottom: real, color: Rgb): seq<DrawCmd>
  {
    if blocks == [] then []
    else
      var next := y + LineStep * |blocks[0]| as real;
      LinesAt(blocks[0], x, y, color) + (if next > bottom then [] else StackFrom(blocks[1..], x, next, bottom, color))
  }

  /** All lines of `blocks`, in order. */
  function Concat(blocks: seq<seq<string>>): seq<string>
  {
    if blocks == [] then [] else blocks[0] + Concat(blocks[1..])
  }

  /** How many events get drawn. */
  function Drawn(blocks: seq<seq<string>>, y: real, bottom: real): nat
  {
    if blocks == [] then 0
    else
      var next := y + LineStep * |blocks[0]| as real;
      1 + (if next > bottom then 0 else Drawn(blocks[1..], next, bottom))
  }

  /** The inner loop of the event drawing: each line at the running height,
      which then moves down by 12. */
  method DrawLines(lines: seq<string>, x: real, y0: real, color: Rgb) returns (cmds: seq<DrawCmd>, y: real)
    ensures cmds == LinesAt(lines, x, y0, color)
    ensures y == y0 + LineStep * |lines| as real
  {
    cmds := [];
    y := y0;
    var j := 0;
    while j < |lines|
      invariant 0 <= j <= |lines|
      invariant y == y0 + LineStep * j as real
      invariant cmds == LinesAt(lines[..j], x, y0, color)
    {
      assert lines[..j + 1][..j] == lines[..j];
      cmds := cmds + [Label(x, y, lines[j], color, EventFont)];
      y := y + LineStep;
      j := j + 1;
    }
    assert lines[..|lines|] == lines;
  }

  /** The outer loop of the event drawing: the events in order, stopping
      after the one whose lines leave the height below the cell bottom. */
  method StackEvents(events: seq<string>, x: real, y0: real, bottom: real, maxWidth: real, color: Rgb,
                     measure: string -> int) returns (cmds: seq<DrawCmd>)
    ensures cmds == StackFrom(WrapAll(events, measure, maxWidth), x, y0, bottom, color)
  {
    ghost var blocks := WrapAll(events, measure, maxWidth);
    cmds := [];
    var y := y0;
    var i := 0;
    while i < |events|
      invariant 0 <= i <= |events|
      invariant cmds + StackFrom(blocks[i..], x, y, bottom, color) == StackFrom(blocks, x, y0, bottom, color)
    {
      var lines := WrapText(events[i], maxWidth, measure);
      WrapAllAt(events, measure, maxWidth, i);
      ghost var cmds0, y1 := cmds, y;
      var drawn;
      drawn, y := DrawLines(lines, x, y, color);
      cmds := cmds + drawn;
      StackInvariantStep(blocks, i, cmds0, cmds, x, y1, y, y0, bottom, color);
      if y > bottom {
        break;
      }
      i := i + 1;
    }
  }

  /** The outer loop's invariant is kept by drawing the lines of event i:
      either drawing stops there, or it goes on with the next event from the
      height reached. */
  lemma StackInvariantStep(blocks: seq<seq<string>>, i: int, cmds0: seq<DrawCmd>, cmds: seq<DrawCmd>,
                           x: real, y1: real, y: real, y0: real, bottom: real, color: Rgb)
    requires 0 <= i < |blocks|
    requires cmds0 + StackFrom(blocks[i..], x, y1, bottom, color) == StackFrom(blocks, x, y0, bottom, color)
    requires cmds == cmds0 + LinesAt(blocks[i], x, y1, color)
    requires y == y1 + LineStep * |blocks[i]| as real
    ensures y > bottom ==> cmds == StackFrom(blocks, x, y0, bottom, color)
    ensures y <= bottom ==> cmds + StackFrom(blocks[i + 1..], x, y, bottom, color) == StackFrom(blocks, x, y0, bottom, color)
  {
    StackFromStep(blocks, i, x, y1, bottom, color);
    var rest := if y > bottom then [] else StackFrom(blocks[i + 1..], x, y, bottom, color);
    Regroup(cmds0, LinesAt(blocks[i], x, y1, color), rest, StackFrom(blocks, x, y0, bottom, color));
  }

  /** Commands drawn before the rest, regrouped. */
  lemma Regroup<T>(before: seq<T>, drawn: seq<T>, rest: seq<T>, whole: seq<T>)
    requires before + (drawn + rest) == whole
    ensures (before + drawn) + rest == whole
    ensures rest == [] ==> before + drawn == whole
  {
    assert (before + drawn) + rest == before + (drawn + rest);
    if rest == [] {
      assert (before + drawn) + rest == before + drawn;
    }
  }

  /** One turn of the outer loop. */
  lemma StackFromStep(blocks: seq<seq<string>>, i: int, x: real, y: real, bottom: real, color: Rgb)
    requires 0 <= i < |blocks|
    ensures var next := y + LineStep * |blocks[i]| as real;
      StackFrom(blocks[i..], x, y, bottom, color)
      == LinesAt(blocks[i], x, y, color) + (if next > bottom then [] else StackFrom(blocks[i + 1..], x, next, bottom, color))
  {
    assert blocks[i..][1..] == blocks[i + 1..];
  }

  /** Drawing two runs of lines one after the other is drawing their
      concatenation. */
  lemma LinesAtConcat(a: seq<string>, b: seq<string>, x: real, y: real, color: Rgb)
    ensures LinesAt(a + b, x, y, color) == LinesAt(a, x, y, color) + LinesAt(b, x, y + LineStep * |a| as real, color)
  {
    var l, r := LinesAt(a + b, x, y, color), LinesAt(a, x, y, color) + LinesAt(b, x, y + LineStep * |a| as real, color);
    forall k | 0 <= k < |l|
      ensures l[k] == r[k]
    {
      LinesAtIndex(a + b, x, y, color, k);
      if k < |a| {
        LinesAtIndex(a, x, y, color, k);
      } else {
        LinesAtIndex(b, x, y + LineStep * |a| as real, color, k - |a|);
        assert (a + b)[k] == b[k - |a|];
        assert y + LineStep * k as real == (y + LineStep * |a| as real) + LineStep * (k - |a|) as real;
      }
    }
  }

  lemma ConcatCons(blocks: seq<seq<string>>, n: nat)
    requires 1 <= n <= |blocks|
    ensures Concat(blocks[..n]) == blocks[0] + Concat(blocks[1..][..n - 1])
  {
    assert blocks[..n][1..] == blocks[1..][..n - 1];
  }

  /** The cell shows all lines of its first `Drawn` events, one under
      another, 12 pixels apart from the starting height. */
  lemma {:induction false} StackShape(blocks: seq<seq<string>>, x: real, y: real, bottom: real, color: Rgb)
    ensures var n := Drawn(blocks, y, bottom);
      && n <= |blocks|
      && StackFrom(blocks, x, y, bottom, color) == LinesAt(Concat(blocks[..n]), x, y, color)
    decreases |blocks|
  {
    var n := Drawn(blocks, y, bottom);
    if blocks == [] {
      assert blocks[..n] == [];
    } else {
      var next := y + LineStep * |blocks[0]| as real;
      if next > bottom {
        assert n == 1;
        ConcatCons(blocks, 1);
        assert blocks[1..][..0] == [];
        assert blocks[0] + [] == blocks[0];
        assert LinesAt(blocks[0], x, y, color) + [] == LinesAt(blocks[0], x, y, color);
      } else {
        var m := Drawn(blocks[1..], next, bottom);
        assert n == 1 + m;
        StackShape(blocks[1..], x, next, bottom, color);
        ConcatCons(blocks, n);
        LinesAtConcat(blocks[0], Concat(blocks[1..][..m]), x, y, color);
      }
    }
  }

  /** Where drawing stops: every event is drawn when none before the last
      takes the height past the bottom; otherwise drawing stops right after
      the first event that does. At least one event is drawn when there is
      one, however tall. */
  /** What the outer loop draws, summed up: the lines of the first `Drawn`
      events, at least one of them when there is one, stopping after the
      first that passes the bottom. */
  lemma StackDrawn(blocks: seq<seq<string>>, x: real, y: real, bottom: real, color: Rgb)
    ensures var n := Drawn(blocks, y, bottom);
      && n <= |blocks|
      && (blocks != [] ==> n >= 1)
      && (n < |blocks| ==> y + LineStep * |Concat(blocks[..n])| as real > bottom)
      && StackFrom(blocks, x, y, bottom, color) == LinesAt(Concat(blocks[..n]), x, y, color)
  {
    StackShape(blocks, x, y, bottom, color);
    DrawnStops(blocks, y, bottom);
  }

  lemma {:induction false} DrawnStops(blocks: seq<seq<string>>, y: real, bottom: real)
    ensures var n := Drawn(blocks, y, bottom);
      && n <= |blocks|
      && (blocks != [] ==> n >= 1)
      && (n < |blocks| ==> y + LineStep * |Concat(blocks[..n])| as real > bottom)
      && (forall j :: 1 <= j < n ==> y + LineStep * |Concat(blocks[..j])| as real <= bottom)
    decreases |blocks|
  {
    var n := Drawn(blocks, y, bottom);
    if blocks != [] {
      var next := y + LineStep * |blocks[0]| as real;
      if next > bottom {
        assert n == 1;
        ConcatCons(blocks, 1);
        assert blocks[1..][..0] == [];
      } else {
        var m := Drawn(blocks[1..], next, bottom);
        assert n == 1 + m;
        DrawnStops(blocks[1..], next, bottom);
        ConcatCons(blocks, n);
        forall j | 1 <= j < n
          ensures y + LineStep * |Concat(blocks[..j])| as real <= bottom
        {
          ConcatCons(blocks, j);
          if j == 1 {
            assert blocks[1..][..0] == [];
          }
        }
      }
    }
  }
}
