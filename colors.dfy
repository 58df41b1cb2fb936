/** `hex_to_rgb` of utils/shared_utils.py: a configured colour is either an
    RGB tuple, returned as it is, or a hex string, whose leading '#'
    characters are dropped and whose first three two-character slices are
    each read as a base-16 integer. A slice that is not a hex number makes
    `int(..., 16)` raise `ValueError`; that failure is `None` here. */
module Colors {
  import opened Wrappers

  datatype Rgb = Rgb(r: int, g: int, b: int)

  /** A colour as the configuration may hold it: an RGB tuple or a hex string. */
  datatype ColorSpec = RgbValue(rgb: Rgb) | Hex(code: string)

  predicate IsHexDigit(c: char) {
    ('0' <= c <= '9') || ('a' <= c <= 'f') || ('A' <= c <= 'F')
  }

  function HexDigitValue(c: char): (v: nat)
    requires IsHexDigit(c)
    ensures v < 16
  {
    if '0' <= c <= '9' then (c - '0') as nat
    else if 'a' <= c <= 'f' then (c - 'a') as nat + 10
    else (c - 'A') as nat + 10
  }

  /** True when every character of s is a hex digit. */
  predicate HexDigits(s: string) {
    s == [] || (HexDigits(s[..|s| - 1]) && IsHexDigit(s[|s| - 1]))
  }

  lemma {:induction false} HexDigitsConcat(a: string, b: string)
    ensures HexDigits(a + b) <==> HexDigits(a) && HexDigits(b)
    decreases |b|
  {
    if b != [] {
      assert (a + b)[..|a + b| - 1] == a + b[..|b| - 1];
      HexDigitsConcat(a, b[..|b| - 1]);
    } else {
      assert a + b == a;
    }
  }

  /** Base-16 value of a string of hex digits. */
  function HexValue(s: string): (v: nat)
    requires HexDigits(s)
  {
    if s == [] then 0 else 16 * HexValue(s[..|s| - 1]) + HexDigitValue(s[|s| - 1])
  }

  /** `int(s, 16)` on a string of hex digits; anything else (including the
      empty string) raises, which is `None`. */
  function ParseHex(s: string): (r: Option<int>)
    ensures r.Some? <==> s != [] && HexDigits(s)
    ensures r.Some? ==> r.value >= 0
  {
    if s != [] && HexDigits(s) then Some(HexValue(s)) else None
  }

  /** One or two characters: hex digits, and the value they spell. */
  lemma ParseHexShort(s: string)
    requires 1 <= |s| <= 2
    ensures HexDigits(s) <==> forall k :: 0 <= k < |s| ==> IsHexDigit(s[k])
    ensures |s| == 1 && HexDigits(s) ==> ParseHex(s) == Some(HexDigitValue(s[0]))
    ensures |s| == 2 && HexDigits(s) ==> ParseHex(s) == Some(16 * HexDigitValue(s[0]) + HexDigitValue(s[1]))
  {
    if |s| == 1 {
      assert s[..|s| - 1] == [];
      assert HexDigits(s) <==> IsHexDigit(s[0]);
      if HexDigits(s) {
        assert HexValue(s) == HexDigitValue(s[0]);
      }
    } else {
      var a := s[..1];
      assert a[..0] == [];
      assert HexDigits(a) <==> IsHexDigit(s[0]);
      assert HexDigits(s) <==> HexDigits(a) && IsHexDigit(s[1]);
      if HexDigits(s) {
        assert HexValue(a) == HexDigitValue(s[0]);
      }
    }
  }

  /** `s.lstrip("#")`. */
  function LStripHash(s: string): (r: string)
    ensures r == [] || r[0] != '#'
  {
    if s != [] && s[0] == '#' then LStripHash(s[1..]) else s
  }

  /** What `lstrip` removes is a run of '#' characters at the start: the
      result is the rest of the string. */
  lemma {:induction false} LStripHashSuffix(s: string)
    ensures var r := LStripHash(s);
      && |r| <= |s| && r == s[|s| - |r|..]
      && (forall k :: 0 <= k < |s| - |r| ==> s[k] == '#')
    decreases |s|
  {
    if s != [] && s[0] == '#' {
      LStripHashSuffix(s[1..]);
      var r := LStripHash(s);
      assert r == LStripHash(s[1..]);
      assert s[1..][|s[1..]| - |r|..] == s[|s| - |r|..];
      forall k | 0 <= k < |s| - |r|
        ensures s[k] == '#'
      {
        if k > 0 {
          assert s[k] == s[1..][k - 1];
        }
      }
    } else {
      assert s[0..] == s;
    }
  }

  /** Python's `s[i:j]` for 0 <= i <= j: indices past the end are clipped. */
  function Slice(s: string, i: nat, j: nat): (r: string)
    requires i <= j
    ensures j <= |s| ==> r == s[i..j]
    ensures i <= |s| < j ==> r == s[i..]
    ensures |s| < i ==> r == []
  {
    if i >= |s| then [] else if j >= |s| then s[i..] else s[i..j]
  }

  /** `hex_to_rgb`: a tuple is returned unchanged; a string is stripped of
      its leading '#' characters and its slices [0:2], [2:4] and [4:6] are
      decoded. A tuple result is returned unchanged by a second call. */
  function HexToRgb(spec: ColorSpec): (r: Option<Rgb>)
    ensures spec.RgbValue? ==> r == Some(spec.rgb)
  {
    match spec
    case RgbValue(rgb) => Some(rgb)
    case Hex(code) =>
      var h := LStripHash(code);
      var r :- ParseHex(Slice(h, 0, 2));
      var g :- ParseHex(Slice(h, 2, 4));
      var b :- ParseHex(Slice(h, 4, 6));
      Some(Rgb(r, g, b))
  }

  /** Any number of leading '#' characters are ignored. */
  lemma HashesIgnored(n: nat, code: string)
    ensures HexToRgb(Hex(Hashes(n) + code)) == HexToRgb(Hex(code))
  {
    LStripHashes(n, code);
  }

  lemma {:induction false} LStripHashes(n: nat, code: string)
    ensures LStripHash(Hashes(n) + code) == LStripHash(code)
  {
    if n > 0 {
      var s := Hashes(n) + code;
      assert s == "#" + (Hashes(n - 1) + code);
      assert s[1..] == Hashes(n - 1) + code;
      assert LStripHash(s) == LStripHash(s[1..]);
      LStripHashes(n - 1, code);
    } else {
      assert Hashes(n) + code == code;
    }
  }

  /** n '#' characters. */
  function Hashes(n: nat): (s: string)
    ensures |s| == n && forall k :: 0 <= k < n ==> s[k] == '#'
  {
    if n == 0 then "" else "#" + Hashes(n - 1)
  }

  /** The decoding succeeds exactly when, once the '#'s are stripped, at
      least five characters remain and the first six (or all, if fewer) are
      hex digits. In particular four characters or fewer always fail: the
      third slice is empty. */
  lemma HexToRgbSucceeds(code: string)
    ensures var h := LStripHash(code);
      HexToRgb(Hex(code)).Some? <==> |h| >= 5 && HexDigits(h[..if |h| < 6 then |h| else 6])
  {
    var h := LStripHash(code);
    if |h| >= 5 {
      var n := if |h| < 6 then |h| else 6;
      assert h[..n] == h[0..2] + h[2..4] + h[4..n];
      HexDigitsConcat(h[0..2] + h[2..4], h[4..n]);
      HexDigitsConcat(h[0..2], h[2..4]);
    }
  }

  /** Whatever the string, a decoded channel lies in 0..255. */
  lemma HexToRgbRange(code: string)
    requires HexToRgb(Hex(code)).Some?
    ensures var c := HexToRgb(Hex(code)).value;
      0 <= c.r < 256 && 0 <= c.g < 256 && 0 <= c.b < 256
  {
    var h := LStripHash(code);
    ParseHexShort(Slice(h, 0, 2));
    ParseHexShort(Slice(h, 2, 4));
    ParseHexShort(Slice(h, 4, 6));
  }

  /** With six hex digits after the '#'s, channel i is the base-16 value of
      characters 2i and 2i+1, upper or lower case alike. */
  lemma HexToRgbChannels(code: string)
    requires var h := LStripHash(code); |h| >= 6 && forall k :: 0 <= k < 6 ==> IsHexDigit(h[k])
    ensures var h := LStripHash(code);
      HexToRgb(Hex(code)) == Some(Rgb(16 * HexDigitValue(h[0]) + HexDigitValue(h[1]),
                                      16 * HexDigitValue(h[2]) + HexDigitValue(h[3]),
                                      16 * HexDigitValue(h[4]) + HexDigitValue(h[5])))
  {
    var h := LStripHash(code);
    ParseHexShort(h[0..2]);
    ParseHexShort(h[2..4]);
    ParseHexShort(h[4..6]);
  }

  /** Hex digit of a value below 16, in upper or lower case. */
  function HexDigitChar(v: nat, upper: bool): (c: char)
    requires v < 16
    ensures IsHexDigit(c) && HexDigitValue(c) == v
  {
    if v < 10 then ('0' as int + v) as char
    else if upper then ('A' as int + v - 10) as char
    else ('a' as int + v - 10) as char
  }

  /** The "#RRGGBB" spelling of a colour with channels in 0..255. */
  function RgbToHex(c: Rgb, upper: bool): (s: string)
    requires 0 <= c.r < 256 && 0 <= c.g < 256 && 0 <= c.b < 256
    ensures |s| == 7 && s[0] == '#'
  {
    "#" + [HexDigitChar(c.r / 16, upper), HexDigitChar(c.r % 16, upper),
           HexDigitChar(c.g / 16, upper), HexDigitChar(c.g % 16, upper),
           HexDigitChar(c.b / 16, upper), HexDigitChar(c.b % 16, upper)]
  }

  /** Decoding the hex spelling of any colour gives the colour back. */
  lemma HexRoundTrip(c: Rgb, upper: bool)
    requires 0 <= c.r < 256 && 0 <= c.g < 256 && 0 <= c.b < 256
    ensures HexToRgb(Hex(RgbToHex(c, upper))) == Some(c)
  {
    var s := RgbToHex(c, upper);
    var h := s[1..];
    assert LStripHash(s) == h;
    HexToRgbChannels(s);
  }

  /** Decoding is idempotent: a decoded colour, fed back as a tuple, comes
      back unchanged. */
  lemma HexToRgbIdempotent(spec: ColorSpec)
    requires HexToRgb(spec).Some?
    ensures HexToRgb(RgbValue(HexToRgb(spec).value)) == HexToRgb(spec)
  {
  }
}
