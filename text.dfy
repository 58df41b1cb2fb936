/** The Python string primitives the calendar core leans on: whitespace as
    `str.isspace` sees it, `strip`, `split()` with no separator, `" ".join`,
    and the decimal spellings produced by `str(n)` and `f"{n:02}"`. */
module Text {

  /** `str.isspace()` for one character: the ASCII controls TAB..CR, the
      separators 0x1C..0x1F, the space, NEL, NBSP and the Unicode space,
      line and paragraph separators. */
  predicate IsSpace(c: char) {
    || c == ' '
    || ('\t' <= c <= '\r')
    || ('\U{1C}' <= c <= '\U{1F}')
    || c == '\U{85}' || c == '\U{A0}' || c == '\U{1680}'
    || ('\U{2000}' <= c <= '\U{200A}')
    || c == '\U{2028}' || c == '\U{2029}' || c == '\U{202F}' || c == '\U{205F}' || c == '\U{3000}'
  }

  /** True when no character of s is whitespace. */
  predicate NoSpace(s: string) {
    s == [] || (!IsSpace(s[0]) && NoSpace(s[1..]))
  }

  lemma {:induction false} NoSpaceAt(s: string, k: int)
    requires NoSpace(s) && 0 <= k < |s|
    ensures !IsSpace(s[k])
  {
    if k > 0 {
      NoSpaceAt(s[1..], k - 1);
    }
  }

  /** A word as `split()` yields it: non-empty, no whitespace inside. */
  predicate IsWord(w: string) {
    w != [] && NoSpace(w)
  }

  /** Every string of ws is a word. */
  predicate AllWords(ws: seq<string>) {
    forall i :: 0 <= i < |ws| ==> IsWord(ws[i])
  }

  /** A word neither starts nor ends with whitespace. */
  lemma WordEdges(w: string)
    requires IsWord(w)
    ensures NoEdgeSpace(w)
  {
    NoSpaceAt(w, |w| - 1);
  }

  /** True when the string neither starts nor ends with whitespace. */
  predicate NoEdgeSpace(s: string) {
    s == [] || (!IsSpace(s[0]) && !IsSpace(s[|s| - 1]))
  }

  /** r is s with a run of whitespace cut from each end. */
  ghost predicate TrimmedOf(s: string, r: string) {
    exists i, j :: 0 <= i <= j <= |s| && r == s[i..j]
      && (forall k :: 0 <= k < i ==> IsSpace(s[k]))
      && (forall k :: j <= k < |s| ==> IsSpace(s[k]))
  }

  /** `s.strip()`: leading, then trailing whitespace removed. The result is
      a slice of s with only whitespace outside it and none at its edges,
      which determines it. */
  function Strip(s: string): (r: string)
    ensures TrimmedOf(s, r)
    ensures NoEdgeSpace(r)
    ensures |r| <= |s|
    decreases |s|
  {
    if s != [] && IsSpace(s[0]) then
      var r := Strip(s[1..]);
      TrimmedDropFirst(s, r);
      r
    else if s != [] && IsSpace(s[|s| - 1]) then
      var r := Strip(s[..|s| - 1]);
      TrimmedDropLast(s, r);
      r
    else
      assert s[0..|s|] == s;
      s
  }

  lemma TrimmedDropFirst(s: string, r: string)
    requires s != [] && IsSpace(s[0]) && TrimmedOf(s[1..], r)
    ensures TrimmedOf(s, r)
  {
    var i, j :| 0 <= i <= j <= |s[1..]| && r == s[1..][i..j]
      && (forall k :: 0 <= k < i ==> IsSpace(s[1..][k]))
      && (forall k :: j <= k < |s[1..]| ==> IsSpace(s[1..][k]));
    assert r == s[i + 1..j + 1];
    assert forall k :: 0 <= k < i + 1 ==> IsSpace(s[k]) by {
      forall k | 0 <= k < i + 1
        ensures IsSpace(s[k])
      {
        if k > 0 {
          assert s[k] == s[1..][k - 1];
        }
      }
    }
    assert forall k :: j + 1 <= k < |s| ==> IsSpace(s[k]) by {
      forall k | j + 1 <= k < |s|
        ensures IsSpace(s[k])
      {
        assert s[k] == s[1..][k - 1];
      }
    }
  }

  lemma TrimmedDropLast(s: string, r: string)
    requires s != [] && IsSpace(s[|s| - 1]) && TrimmedOf(s[..|s| - 1], r)
    ensures TrimmedOf(s, r)
  {
    var t := s[..|s| - 1];
    var i, j :| 0 <= i <= j <= |t| && r == t[i..j]
      && (forall k :: 0 <= k < i ==> IsSpace(t[k]))
      && (forall k :: j <= k < |t| ==> IsSpace(t[k]));
    assert t[i..j] == s[i..j];
    assert forall k :: 0 <= k < i ==> IsSpace(s[k]) by {
      forall k | 0 <= k < i
        ensures IsSpace(s[k])
      {
        assert s[k] == t[k];
      }
    }
    assert forall k :: j <= k < |s| ==> IsSpace(s[k]) by {
      forall k | j <= k < |s|
        ensures IsSpace(s[k])
      {
        if k < |t| {
          assert s[k] == t[k];
        }
      }
    }
  }

  /** Stripping leaves a string without edge whitespace as it is. */
  lemma StripKeeps(s: string)
    requires NoEdgeSpace(s)
    ensures Strip(s) == s
  {
  }

  /** Stripping a string with leading whitespace is stripping what follows it. */
  lemma StripSpacePrefix(c: char, s: string)
    requires IsSpace(c)
    ensures Strip([c] + s) == Strip(s)
  {
    assert ([c] + s)[1..] == s;
  }

  /** Stripping a string with trailing whitespace is stripping what comes
      before it. */
  lemma {:induction false} StripSpaceSuffix(s: string, c: char)
    requires IsSpace(c)
    ensures Strip(s + [c]) == Strip(s)
    decreases |s|
  {
    var t := s + [c];
    if s == [] {
      assert t[1..] == [];
    } else if IsSpace(s[0]) {
      assert t[1..] == s[1..] + [c];
      StripSpaceSuffix(s[1..], c);
    } else {
      assert t[..|t| - 1] == s;
    }
  }

  /** Length of the maximal run of non-whitespace characters at the start. */
  function WordLen(s: string): (n: nat)
    ensures n <= |s|
    ensures NoSpace(s[..n])
    ensures n < |s| ==> IsSpace(s[n])
  {
    if s == [] || IsSpace(s[0]) then 0
    else
      var n := 1 + WordLen(s[1..]);
      assert s[..n][1..] == s[1..][..n - 1];
      n
  }

  /** `s.split()`: the maximal whitespace-free runs, in order. */
  function Split(s: string): (words: seq<string>)
    ensures s == [] ==> words == []
    ensures AllWords(words)
    decreases |s|
  {
    if s == [] then []
    else if IsSpace(s[0]) then Split(s[1..])
    else
      var n := WordLen(s);
      [s[..n]] + Split(s[n..])
  }

  /** `" ".join(ws)`: the strings in order, one space between neighbours. */
  function Join(ws: seq<string>): (r: string)
    ensures ws == [] ==> r == ""
    ensures |ws| == 1 ==> r == ws[0]
    ensures ws != [] ==> |r| >= |ws[0]| && r[..|ws[0]|] == ws[0]
    ensures |ws| > 1 ==> |r| > |ws[0]| && r[|ws[0]|] == ' '
  {
    if |ws| == 0 then ""
    else if |ws| == 1 then ws[0]
    else ws[0] + " " + Join(ws[1..])
  }

  /** Joining two non-empty groups joins their joins with one space. */
  lemma {:induction false} JoinConcat(a: seq<string>, b: seq<string>)
    requires a != [] && b != []
    ensures Join(a + b) == Join(a) + " " + Join(b)
  {
    if |a| == 1 {
      assert a + b == [a[0]] + b;
      assert (a + b)[1..] == b;
    } else {
      assert (a + b)[1..] == a[1..] + b;
      JoinConcat(a[1..], b);
    }
  }

  /** The join of words is empty exactly when there are no words, and it has
      no whitespace at either edge. */
  lemma {:induction false} JoinOfWords(ws: seq<string>)
    requires AllWords(ws)
    ensures (Join(ws) == []) == (ws == [])
    ensures NoEdgeSpace(Join(ws))
  {
    if |ws| == 1 {
      WordEdges(ws[0]);
    } else if |ws| > 1 {
      assert AllWords(ws[1..]) by {
        forall i | 0 <= i < |ws[1..]|
          ensures IsWord(ws[1..][i])
        {
          assert ws[1..][i] == ws[i + 1];
        }
      }
      JoinOfWords(ws[1..]);
      var j := Join(ws[1..]);
      assert Join(ws) == ws[0] + " " + j;
      assert Join(ws)[0] == ws[0][0];
      assert Join(ws)[|Join(ws)| - 1] == j[|j| - 1];
    }
  }

  /** A word that was split out of a string contains no whitespace, so
      splitting it again gives it back alone. */
  lemma {:induction false} SplitWord(w: string)
    requires IsWord(w)
    ensures Split(w) == [w]
  {
    WordLenAll(w);
    assert w[..|w|] == w;
    assert w[|w|..] == [];
    assert Split(w) == [w[..|w|]] + Split(w[|w|..]);
  }

  /** Whitespace separates words: splitting around a whitespace character
      splits the two sides apart. With `Split("") == []` and `SplitWord`,
      this determines `split()` on every string. */
  lemma {:induction false} SplitAtSpace(a: string, c: char, b: string)
    requires IsSpace(c)
    ensures Split(a + [c] + b) == Split(a) + Split(b)
    decreases |a|
  {
    var s := a + [c] + b;
    if a == [] {
      assert s[1..] == b;
    } else if IsSpace(a[0]) {
      assert s[1..] == a[1..] + [c] + b;
      SplitAtSpace(a[1..], c, b);
    } else {
      WordLenSpaceAfter(a, [c] + b);
      assert s == a + ([c] + b);
      var n := WordLen(a);
      assert s[..n] == a[..n];
      assert s[n..] == a[n..] + [c] + b;
      SplitAtSpace(a[n..], c, b);
    }
  }

  /** A word run ends at the first whitespace, so whitespace after a string
      does not lengthen its first word. */
  lemma {:induction false} WordLenSpaceAfter(a: string, t: string)
    requires t != [] && IsSpace(t[0])
    ensures WordLen(a + t) == WordLen(a)
    decreases |a|
  {
    if a == [] {
      assert a + t == t;
    } else if !IsSpace(a[0]) {
      assert (a + t)[1..] == a[1..] + t;
      WordLenSpaceAfter(a[1..], t);
    }
  }

  lemma {:induction false} WordLenAll(w: string)
    requires NoSpace(w)
    ensures WordLen(w) == |w|
  {
    if w != [] {
      WordLenAll(w[1..]);
    }
  }

  predicate IsDigit(c: char) {
    '0' <= c <= '9'
  }

  function DigitValue(c: char): (v: nat)
    requires IsDigit(c)
    ensures v < 10
  {
    (c - '0') as nat
  }

  function DigitChar(v: nat): (c: char)
    requires v < 10
    ensures IsDigit(c) && DigitValue(c) == v
  {
    ('0' as int + v) as char
  }

  /** Value of a string of decimal digits. */
  function DecimalValue(s: string): (v: nat)
    requires forall k :: 0 <= k < |s| ==> IsDigit(s[k])
  {
    if s == [] then 0 else 10 * DecimalValue(s[..|s| - 1]) + DigitValue(s[|s| - 1])
  }

  function Pow10(n: nat): (p: nat)
    ensures p >= 1
  {
    if n == 0 then 1 else 10 * Pow10(n - 1)
  }

  /** n decimal digits spell a value below 10^n. */
  lemma {:induction false} DecimalValueBound(s: string)
    requires forall k :: 0 <= k < |s| ==> IsDigit(s[k])
    ensures DecimalValue(s) < Pow10(|s|)
  {
    if s != [] {
      DecimalValueBound(s[..|s| - 1]);
    }
  }

  /** `str(n)` for a natural number: shortest decimal spelling. */
  function NatToString(n: nat): (s: string)
    ensures s != [] && (forall k :: 0 <= k < |s| ==> IsDigit(s[k]))
    ensures DecimalValue(s) == n
    ensures |s| > 1 ==> s[0] != '0'
  {
    if n < 10 then [DigitChar(n)]
    else
      var p := NatToString(n / 10);
      var s := p + [DigitChar(n % 10)];
      assert s[..|s| - 1] == p;
      s
  }

  /** `str(i)` for any integer. */
  function IntToString(i: int): (s: string)
    ensures s != []
    ensures i >= 0 ==> s == NatToString(i)
    ensures i < 0 ==> s == "-" + NatToString(-i)
  {
    if i < 0 then "-" + NatToString(-i) else NatToString(i)
  }

  /** `f"{n:02}"` for 0 <= n < 100: exactly two digits, zero-padded. */
  function Pad2(n: nat): (s: string)
    requires n < 100
    ensures |s| == 2 && IsDigit(s[0]) && IsDigit(s[1])
    ensures DigitValue(s[0]) == n / 10 && DigitValue(s[1]) == n % 10
  {
    [DigitChar(n / 10), DigitChar(n % 10)]
  }

  /** Four zero-padded digits, for 0 <= n < 10000. */
  function Pad4(n: nat): (s: string)
    requires n < 10000
    ensures |s| == 4 && forall k :: 0 <= k < 4 ==> IsDigit(s[k])
    ensures DecimalValue(s) == n
  {
    var q3 := n / 10;
    var q2 := q3 / 10;
    var q1 := q2 / 10;
    var s := [DigitChar(q1), DigitChar(q2 % 10), DigitChar(q3 % 10), DigitChar(n % 10)];
    assert s[..3][..2] == s[..2] && s[..2][..1] == s[..1] && s[..1][..0] == [] && s[..4] == s;
    assert DecimalValue(s[..1]) == q1;
    assert DecimalValue(s[..2]) == q2;
    assert DecimalValue(s[..3]) == q3;
    s
  }
}
