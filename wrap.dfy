/** `CalendarImageGen.wrap_text`: greedy word wrap of an event text into
    lines no wider than a pixel budget. The text width PIL measures for a
    font is an arbitrary function `measure` from strings to integer widths,
    so everything proved here holds whatever the font. */
module TextWrap {
  import opened Text

  /** The lines the loop emits from the remaining `words`, given the line
      `current` under construction: each word is tried on the current line
      (joined with a space, then stripped); it stays there when the trial
      fits, and otherwise the current line, if any, is emitted and the word
      starts the next one. The last line is emitted at the end. */
  function WrapFrom(words: seq<string>, current: string, measure: string -> int, maxWidth: real): seq<string>
  {
    if words == [] then (if current != "" then [current] else [])
    else
      var trial := Strip(current + " " + words[0]);
      if measure(trial) as real <= maxWidth then WrapFrom(words[1..], trial, measure, maxWidth)
      else (if current != "" then [current] else []) + WrapFrom(words[1..], words[0], measure, maxWidth)
  }

  /** The lines of `text`. */
  function Wrap(text: string, measure: string -> int, maxWidth: real): seq<string>
  {
    WrapFrom(Split(text), "", measure, maxWidth)
  }

  /** The loop of `wrap_text`. */
  method WrapText(text: string, maxWidth: real, measure: string -> int) returns (lines: seq<string>)
    ensures lines == Wrap(text, measure, maxWidth)
  {
    var words := Split(text);
    ghost var target := WrapFrom(words, "", measure, maxWidth);
    lines := [];
    var current := "";
    var i := 0;
    while i < |words|
      invariant 0 <= i <= |words|
      invariant lines + WrapFrom(words[i..], current, measure, maxWidth) == target
    {
      var word := words[i];
      var trial := Strip(current + " " + word);
      WrapInvariantStep(words, i, lines, current, target, measure, maxWidth);
      if measure(trial) as real <= maxWidth {
        current := trial;
      } else {
        if current != "" {
          lines := lines + [current];
        }
        current := word;
      }
      i := i + 1;
    }
    assert words[|words|..] == [];
    if current != "" {
      lines := lines + [current];
    }
  }

  /** One turn of the loop: the word at i is tried on the current line. */
  lemma WrapFromStep(words: seq<string>, i: int, current: string, measure: string -> int, maxWidth: real)
    requires 0 <= i < |words|
    ensures var trial := Strip(current + " " + words[i]);
      WrapFrom(words[i..], current, measure, maxWidth)
      == if measure(trial) as real <= maxWidth then WrapFrom(words[i + 1..], trial, measure, maxWidth)
         else (if current != "" then [current] else []) + WrapFrom(words[i + 1..], words[i], measure, maxWidth)
  {
    assert words[i..][1..] == words[i + 1..];
  }

  /** The loop invariant of `WrapText` is kept by each of the three ways a
      word can be placed. */
  lemma WrapInvariantStep(words: seq<string>, i: int, lines: seq<string>, current: string, target: seq<string>,
                          measure: string -> int, maxWidth: real)
    requires 0 <= i < |words|
    requires lines + WrapFrom(words[i..], current, measure, maxWidth) == target
    ensures var trial := Strip(current + " " + words[i]);
      && (measure(trial) as real <= maxWidth ==> lines + WrapFrom(words[i + 1..], trial, measure, maxWidth) == target)
      && (measure(trial) as real > maxWidth && current != "" ==>
            (lines + [current]) + WrapFrom(words[i + 1..], words[i], measure, maxWidth) == target)
      && (measure(trial) as real > maxWidth && current == "" ==>
            lines + WrapFrom(words[i + 1..], words[i], measure, maxWidth) == target)
  {
    WrapFromStep(words, i, current, measure, maxWidth);
    var rest := WrapFrom(words[i + 1..], words[i], measure, maxWidth);
    Regroup(lines, current, rest);
  }

  /** Emitting a line before the rest of the lines, regrouped. */
  lemma Regroup<T>(lines: seq<T>, x: T, rest: seq<T>)
    ensures lines + ([x] + rest) == (lines + [x]) + rest
    ensures [] + rest == rest
  {
  }

  /** Trying a word on a line made of words gives that line with the word
      appended after one space (the word alone on an empty line). */
  lemma TrialLine(cw: seq<string>, w: string)
    requires AllWords(cw) && IsWord(w)
    ensures AllWords(cw + [w])
    ensures Strip(Join(cw) + " " + w) == Join(cw + [w])
  {
    var ws := cw + [w];
    assert AllWords(ws) by {
      assert forall i :: 0 <= i < |cw| ==> ws[i] == cw[i];
    }
    JoinOfWords(ws);
    if cw == [] {
      assert Join(cw) + " " + w == [' '] + w;
      StripSpacePrefix(' ', w);
      assert ws == [w];
      WordEdges(w);
      StripKeeps(w);
    } else {
      JoinConcat(cw, [w]);
      StripKeeps(Join(ws));
    }
  }

  /** Wrapping neither loses, adds nor reorders words: rejoining the lines
      with single spaces gives the words of the current line followed by the
      remaining words. */
  lemma {:induction false} WrapFromJoin(words: seq<string>, cw: seq<string>, measure: string -> int, maxWidth: real)
    requires AllWords(words) && AllWords(cw)
    ensures Join(WrapFrom(words, Join(cw), measure, maxWidth)) == Join(cw + words)
    decreases |words|, 1
  {
    if words == [] {
      JoinOfWords(cw);
      assert cw + words == cw;
    } else {
      if measure(Join(cw + [words[0]])) as real <= maxWidth {
        WrapFromJoinFits(words, cw, measure, maxWidth);
      } else {
        WrapFromJoinBreaks(words, cw, measure, maxWidth);
      }
    }
  }

  /** The first word fits on the current line. */
  lemma {:induction false} WrapFromJoinFits(words: seq<string>, cw: seq<string>, measure: string -> int, maxWidth: real)
    requires AllWords(words) && AllWords(cw) && words != []
    requires measure(Join(cw + [words[0]])) as real <= maxWidth
    ensures Join(WrapFrom(words, Join(cw), measure, maxWidth)) == Join(cw + words)
    decreases |words|, 0
  {
    var w, rest := words[0], words[1..];
    assert AllWords(rest) by {
      assert forall i :: 0 <= i < |rest| ==> rest[i] == words[i + 1];
    }
    var next := cw + [w];
    TrialLine(cw, w);
    WrapFromStep(words, 0, Join(cw), measure, maxWidth);
    assert words[0..] == words;
    WrapFromJoin(rest, next, measure, maxWidth);
    MoveFirst(cw, words);
  }

  /** Moving the first element of b to the end of a leaves a + b unchanged. */
  lemma MoveFirst<T>(a: seq<T>, b: seq<T>)
    requires b != []
    ensures (a + [b[0]]) + b[1..] == a + b
  {
    assert b == [b[0]] + b[1..];
  }

  /** The first word does not fit: the current line, if any, is emitted and
      the word starts the next line. */
  lemma {:induction false} WrapFromJoinBreaks(words: seq<string>, cw: seq<string>, measure: string -> int, maxWidth: real)
    requires AllWords(words) && AllWords(cw) && words != []
    requires !(measure(Join(cw + [words[0]])) as real <= maxWidth)
    ensures Join(WrapFrom(words, Join(cw), measure, maxWidth)) == Join(cw + words)
    decreases |words|, 0
  {
    var w, rest := words[0], words[1..];
    var tail := WrapFrom(rest, w, measure, maxWidth);
    var head := if Join(cw) != "" then [Join(cw)] else [];
    assert WrapFrom(words, Join(cw), measure, maxWidth) == head + tail by {
      TrialLine(cw, w);
      WrapFromStep(words, 0, Join(cw), measure, maxWidth);
      assert words[0..] == words;
    }
    assert Join(tail) == Join(words) by {
      assert AllWords(rest) by {
        assert forall i :: 0 <= i < |rest| ==> rest[i] == words[i + 1];
      }
      assert Join([w]) == w;
      WrapFromJoin(rest, [w], measure, maxWidth);
      assert [w] + rest == words;
    }
    if cw == [] {
      assert Join(cw) == "";
      assert head + tail == tail;
      assert cw + words == words;
    } else {
      JoinOfWords(cw);
      JoinOfWords(words);
      assert tail != [];
      JoinConcat([Join(cw)], tail);
      JoinConcat(cw, words);
    }
  }

  /** `" ".join(wrap_text(text))` is `" ".join(text.split())`. */
  lemma WrapKeepsWords(text: string, measure: string -> int, maxWidth: real)
    ensures Join(Wrap(text, measure, maxWidth)) == Join(Split(text))
  {
    assert Join([]) == "";
    WrapFromJoin(Split(text), [], measure, maxWidth);
    assert [] + Split(text) == Split(text);
  }

  /** A line is acceptable when it fits the budget or is a single word. */
  predicate Acceptable(line: string, measure: string -> int, maxWidth: real) {
    line != "" && (measure(line) as real <= maxWidth || IsWord(line))
  }

  /** Every emitted line is non-empty and fits, unless it is one word too
      wide to fit on any line: the current line always is one of these. */
  lemma {:induction false} WrapFromLines(words: seq<string>, cw: seq<string>, current: string, measure: string -> int, maxWidth: real)
    requires AllWords(words) && AllWords(cw) && current == Join(cw)
    requires current == "" || Acceptable(current, measure, maxWidth)
    ensures forall k :: 0 <= k < |WrapFrom(words, current, measure, maxWidth)| ==>
              Acceptable(WrapFrom(words, current, measure, maxWidth)[k], measure, maxWidth)
    decreases |words|
  {
    if words != [] {
      var w := words[0];
      assert AllWords(words[1..]) by {
        assert forall i :: 0 <= i < |words[1..]| ==> words[1..][i] == words[i + 1];
      }
      TrialLine(cw, w);
      var trial := Strip(current + " " + w);
      WrapFromStep(words, 0, current, measure, maxWidth);
      assert words[0..] == words;
      if measure(trial) as real <= maxWidth {
        var next := cw + [w];
        JoinOfWords(next);
        assert trial != "";
        WrapFromLines(words[1..], next, trial, measure, maxWidth);
      } else {
        assert Join([w]) == w;
        WordEdges(w);
        WrapFromLines(words[1..], [w], w, measure, maxWidth);
        AcceptablePrefix(current, WrapFrom(words[1..], w, measure, maxWidth), measure, maxWidth);
      }
    }
  }

  /** Emitting an acceptable current line before acceptable lines keeps every line acceptable. */
  lemma AcceptablePrefix(current: string, rest: seq<string>, measure: string -> int, maxWidth: real)
    requires current == "" || Acceptable(current, measure, maxWidth)
    requires forall k :: 0 <= k < |rest| ==> Acceptable(rest[k], measure, maxWidth)
    ensures var lines := (if current != "" then [current] else []) + rest;
      forall k :: 0 <= k < |lines| ==> Acceptable(lines[k], measure, maxWidth)
  {
    if current == "" {
      assert [] + rest == rest;
    }
  }

  /** Every line of `wrap_text` is non-empty, and it fits the budget or is a single word. */
  lemma WrapLinesAcceptable(text: string, measure: string -> int, maxWidth: real)
    ensures forall k :: 0 <= k < |Wrap(text, measure, maxWidth)| ==>
              Acceptable(Wrap(text, measure, maxWidth)[k], measure, maxWidth)
  {
    assert Join([]) == "";
    WrapFromLines(Split(text), [], "", measure, maxWidth);
  }

  /** Empty or whitespace-only text gives no lines, and any other text gives some. */
  lemma WrapEmpty(text: string, measure: string -> int, maxWidth: real)
    ensures Wrap(text, measure, maxWidth) == [] <==> Split(text) == []
  {
    WrapKeepsWords(text, measure, maxWidth);
    JoinOfWords(Split(text));
  }
}
