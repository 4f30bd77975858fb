/**
 The integer part of the colour-from-hex initializer: the string is trimmed of
 surrounding non-alphanumeric characters, read as a hexadecimal number, and
 split into alpha, red, green and blue channels according to its length
 (3 digits RGB, 6 digits RRGGBB, 8 digits AARRGGBB, anything else a fixed
 fallback).

 Alphanumeric means ASCII letters and digits. The scanner reads the run of
 hex digits at the front of the trimmed string, after an optional "0x" or
 "0X", and yields 0 when there is none. On the non-negative values met here
 `v >> n` is `v / 2^n` and `v & (2^n - 1)` is `v % 2^n`, which is how the
 shifts and masks are written. A string of length 3, 6 or 8 scans to a value
 below 2^32, so the 64-bit arithmetic never overflows.
 */
module HexColor {
  predicate IsAlphanumeric(c: char) {
    'a' <= c <= 'z' || 'A' <= c <= 'Z' || '0' <= c <= '9'
  }

  predicate IsHexDigit(c: char) {
    '0' <= c <= '9' || 'a' <= c <= 'f' || 'A' <= c <= 'F'
  }

  predicate AllHex(s: string) {
    forall i :: 0 <= i < |s| ==> IsHexDigit(s[i])
  }

  // ----- Trimming -----

  /** The first position at or after `i` holding an alphanumeric character, or the end. */
  function SkipLeading(s: string, i: nat): (k: nat)
    requires i <= |s|
    ensures i <= k <= |s|
    ensures forall m :: i <= m < k ==> !IsAlphanumeric(s[m])
    ensures k < |s| ==> IsAlphanumeric(s[k])
    decreases |s| - i
  {
    if i == |s| || IsAlphanumeric(s[i]) then i else SkipLeading(s, i + 1)
  }

  /** The end of the last alphanumeric character before `j` and not before `lo`, or `lo`. */
  function SkipTrailing(s: string, lo: nat, j: nat): (k: nat)
    requires lo <= j <= |s|
    ensures lo <= k <= j
    ensures forall m :: k <= m < j ==> !IsAlphanumeric(s[m])
    ensures k > lo ==> IsAlphanumeric(s[k - 1])
    decreases j
  {
    if j == lo || IsAlphanumeric(s[j - 1]) then j else SkipTrailing(s, lo, j - 1)
  }

  /** `s[i..j]` is what is left when only leading and trailing non-alphanumerics are cut. */
  predicate TrimmedAt(s: string, i: int, j: int) {
    && 0 <= i <= j <= |s|
    && (forall m :: 0 <= m < i ==> !IsAlphanumeric(s[m]))
    && (forall m :: j <= m < |s| ==> !IsAlphanumeric(s[m]))
    && (i < j ==> IsAlphanumeric(s[i]) && IsAlphanumeric(s[j - 1]))
  }

  /** `trimmingCharacters(in: CharacterSet.alphanumerics.inverted)` */
  function Trim(s: string): (t: string)
    ensures |t| <= |s|
    ensures exists i, j :: TrimmedAt(s, i, j) && t == s[i..j]
  {
    var i := SkipLeading(s, 0);
    var j := SkipTrailing(s, i, |s|);
    assert TrimmedAt(s, i, j);
    s[i..j]
  }

  /** There is only one way to trim: the cut positions are determined by the string. */
  lemma TrimmedAtUnique(s: string, i: int, j: int, i': int, j': int)
    requires TrimmedAt(s, i, j) && TrimmedAt(s, i', j')
    ensures s[i..j] == s[i'..j']
  {
    if i < j && i' < j' {
      assert i == i' && j == j';
    }
  }

  /** A string that starts and ends with an alphanumeric character is left alone. */
  lemma TrimKeepsCleanText(s: string)
    requires s != [] && IsAlphanumeric(s[0]) && IsAlphanumeric(s[|s| - 1])
    ensures Trim(s) == s
  {
    var i := SkipLeading(s, 0);
    var j := SkipTrailing(s, i, |s|);
    assert TrimmedAt(s, i, j) && Trim(s) == s[i..j];
    assert TrimmedAt(s, 0, |s|);
    TrimmedAtUnique(s, i, j, 0, |s|);
  }

  /** Trimming twice is the same as trimming once. */
  lemma TrimIdempotent(s: string)
    ensures Trim(Trim(s)) == Trim(s)
  {
    var t := Trim(s);
    if t != [] {
      var i := SkipLeading(s, 0);
      var j := SkipTrailing(s, i, |s|);
      assert TrimmedAt(s, i, j) && t == s[i..j];
      TrimKeepsCleanText(t);
    }
  }

  /** A leading '#' is cut, as in "#4169E1". */
  lemma TrimHashPrefix(d: string)
    requires d != [] && AllHex(d)
    ensures Trim(['#'] + d) == d
  {
    var s := ['#'] + d;
    assert s[1..] == d;
    assert TrimmedAt(s, 1, |s|);
    var i := SkipLeading(s, 0);
    var j := SkipTrailing(s, i, |s|);
    assert TrimmedAt(s, i, j) && Trim(s) == s[i..j];
    TrimmedAtUnique(s, i, j, 1, |s|);
  }

  // ----- Hexadecimal value -----

  function HexDigitValue(c: char): (v: nat)
    requires IsHexDigit(c)
    ensures v < 16
  {
    if '0' <= c <= '9' then (c - '0') as nat
    else if 'a' <= c <= 'f' then (c - 'a') as nat + 10
    else (c - 'A') as nat + 10
  }

  function Pow16(n: nat): (p: nat)
    ensures p >= 1
  {
    if n == 0 then 1 else 16 * Pow16(n - 1)
  }

  lemma {:induction false} Pow16Monotone(m: nat, n: nat)
    requires m <= n
    ensures Pow16(m) <= Pow16(n)
    decreases n
  {
    if m < n {
      Pow16Monotone(m, n - 1);
    }
  }

  lemma Pow16Values()
    ensures Pow16(1) == 0x10 && Pow16(2) == 0x100 && Pow16(3) == 0x1000
    ensures Pow16(4) == 0x1_0000 && Pow16(6) == 0x100_0000 && Pow16(8) == 0x1_0000_0000
  {
  }

  /** The value of a string of hex digits, most significant digit first. */
  function ParseHex(s: string): (v: nat)
    requires AllHex(s)
    ensures v < Pow16(|s|)
  {
    if s == [] then 0
    else
      var init := s[..|s| - 1];
      var d := HexDigitValue(s[|s| - 1]);
      var w := ParseHex(init);
      assert w * 16 + d < Pow16(|s|) by {
        assert w <= Pow16(|init|) - 1;
        assert w * 16 <= (Pow16(|init|) - 1) * 16;
      }
      w * 16 + d
  }

  lemma AllHexAppend(a: string, b: string)
    requires AllHex(a) && AllHex(b)
    ensures AllHex(a + b)
  {
    forall i | 0 <= i < |a + b|
      ensures IsHexDigit((a + b)[i])
    {
      if i < |a| {
        assert (a + b)[i] == a[i];
      } else {
        assert (a + b)[i] == b[i - |a|];
      }
    }
  }

  /** Appending one digit shifts the value by one hex position. */
  lemma ParseHexSnoc(s: string, c: char)
    requires AllHex(s) && IsHexDigit(c)
    ensures AllHex(s + [c])
    ensures ParseHex(s + [c]) == ParseHex(s) * 16 + HexDigitValue(c)
  {
    AllHexAppend(s, [c]);
    assert (s + [c])[..|s|] == s;
  }

  /** Reading a concatenation: the left part is shifted by one hex position per digit on the right. */
  lemma {:induction false} ParseHexAppend(a: string, b: string)
    requires AllHex(a) && AllHex(b)
    ensures AllHex(a + b)
    ensures ParseHex(a + b) == ParseHex(a) * Pow16(|b|) + ParseHex(b)
    decreases |b|
  {
    if b == [] {
      assert a + b == a;
    } else {
      ParseHexAppend(a, b[..|b| - 1]);
      ParseHexAppendStep(a, b);
    }
  }

  /** The inductive step of `ParseHexAppend`: from all of `b` but its last digit to all of `b`. */
  lemma ParseHexAppendStep(a: string, b: string)
    requires AllHex(a) && AllHex(b) && b != []
    requires AllHex(a + b[..|b| - 1])
    requires ParseHex(a + b[..|b| - 1]) == ParseHex(a) * Pow16(|b| - 1) + ParseHex(b[..|b| - 1])
    ensures AllHex(a + b)
    ensures ParseHex(a + b) == ParseHex(a) * Pow16(|b|) + ParseHex(b)
  {
    var b', last := b[..|b| - 1], b[|b| - 1];
    assert AllHex(b') && b' + [last] == b by {
      assert forall i :: 0 <= i < |b'| ==> b'[i] == b[i];
    }
    AllHexAppend(a, b);
    var x, p, y, d := ParseHex(a), Pow16(|b'|), ParseHex(b'), HexDigitValue(last);
    var w := ParseHex(a + b');
    assert ParseHex(a + b) == w * 16 + d by {
      assert a + b == (a + b') + [last];
      ParseHexSnoc(a + b', last);
    }
    assert ParseHex(b) == y * 16 + d by {
      ParseHexSnoc(b', last);
    }
    assert Pow16(|b|) == p * 16;
    ShiftDigit(x, p, Pow16(|b|), y, d);
  }

  lemma ShiftDigit(x: int, p: int, p16: int, y: int, d: int)
    requires p16 == p * 16
    ensures (x * p + y) * 16 + d == x * p16 + (y * 16 + d)
  {
  }

  /** Two hex digits read as one byte. */
  lemma ParseHexPair(s: string)
    requires |s| == 2 && AllHex(s)
    ensures ParseHex(s) == HexDigitValue(s[0]) * 16 + HexDigitValue(s[1])
  {
    assert s[..1][..0] == [];
    assert s[..1][0] == s[0];
  }

  // ----- Scanning -----

  /** The length of the run of hex digits at the front of `s`. */
  function HexRun(s: string): (k: nat)
    ensures k <= |s| && AllHex(s[..k])
    ensures k < |s| ==> !IsHexDigit(s[k])
  {
    if s == [] || !IsHexDigit(s[0]) then 0
    else
      var k := 1 + HexRun(s[1..]);
      assert forall m :: 1 <= m < k ==> s[..k][m] == s[1..][..k - 1][m - 1];
      k
  }

  /** `s` opens with a "0x" or "0X" marker that a hex digit follows. */
  predicate HasHexMarker(s: string) {
    |s| >= 3 && s[0] == '0' && (s[1] == 'x' || s[1] == 'X') && IsHexDigit(s[2])
  }

  /**
   `scanHexInt64` as used here: the value of the hex digits at the front of
   `s`, after a "0x" marker if there is one; 0 when there are no digits,
   which is the value the variable keeps when the scan fails.
   */
  function ScanHex(s: string): (v: nat)
    ensures v < Pow16(|s|)
  {
    var body := if HasHexMarker(s) then s[2..] else s;
    var digits := body[..HexRun(body)];
    Pow16Monotone(|digits|, |s|);
    ParseHex(digits)
  }

  /** A run of hex digits ended by the end of the string or by another character. */
  lemma {:induction false} HexRunStops(d: string, rest: string)
    requires AllHex(d)
    requires rest == [] || !IsHexDigit(rest[0])
    ensures HexRun(d + rest) == |d|
    decreases |d|
  {
    if d == [] {
      assert d + rest == rest;
    } else {
      assert (d + rest)[1..] == d[1..] + rest;
      HexRunStops(d[1..], rest);
    }
  }

  /** The scanner reads exactly the leading hex digits and ignores what follows them. */
  lemma ScanLeadingDigits(d: string, rest: string)
    requires AllHex(d) && !HasHexMarker(d + rest)
    requires rest == [] || !IsHexDigit(rest[0])
    ensures ScanHex(d + rest) == ParseHex(d)
  {
    HexRunStops(d, rest);
    assert (d + rest)[..|d|] == d;
  }

  /** After a "0x" marker the scanner reads the hex digits that follow it. */
  lemma ScanAfterMarker(x: char, d: string, rest: string)
    requires x == 'x' || x == 'X'
    requires d != [] && AllHex(d)
    requires rest == [] || !IsHexDigit(rest[0])
    ensures ScanHex(['0', x] + d + rest) == ParseHex(d)
  {
    var s := ['0', x] + d + rest;
    assert s[2] == d[0] && HasHexMarker(s);
    assert s[2..] == d + rest;
    HexRunStops(d, rest);
    assert (d + rest)[..|d|] == d;
  }

  /** A string of hex digits scans to its value. */
  lemma ScanAllHex(t: string)
    requires AllHex(t)
    ensures ScanHex(t) == ParseHex(t)
  {
    assert t + [] == t;
    ScanLeadingDigits(t, []);
  }

  // ----- Channels -----

  /** Alpha, red, green and blue, each meant to be a byte. */
  datatype Argb = Argb(a: int, r: int, g: int, b: int)

  /** The channels for a string of any length other than 3, 6 or 8. */
  const Fallback: Argb := Argb(1, 1, 1, 0)

  predicate InByteRange(c: Argb) {
    0 <= c.a <= 255 && 0 <= c.r <= 255 && 0 <= c.g <= 255 && 0 <= c.b <= 255
  }

  /** The three recognised lengths of the switch, with the parsed value `v`. */
  function Channels(n: nat, v: nat): (c: Argb)
    requires n == 3 || n == 6 || n == 8
    requires v < Pow16(n)
    ensures InByteRange(c)
  {
    Pow16Values();
    if n == 3 then
      // each of the three nibbles, high first, times 17
      Argb(255, (v / 0x100) * 17, (v / 0x10 % 0x10) * 17, (v % 0x10) * 17)
    else if n == 6 then
      // the three bytes, high first
      Argb(255, v / 0x1_0000, v / 0x100 % 0x100, v % 0x100)
    else
      // the four bytes, high first: alpha, red, green, blue
      Argb(v / 0x100_0000, v / 0x1_0000 % 0x100, v / 0x100 % 0x100, v % 0x100)
  }

  /**
   The channels for a colour string: the trimmed string's length picks the
   layout, and its scanned value fills it.
   */
  function ColorFromHex(hex: string): (c: Argb)
    ensures InByteRange(c)
    ensures |Trim(hex)| !in {3, 6, 8} ==> c == Fallback
    ensures |Trim(hex)| in {3, 6} ==> c.a == 255
  {
    var t := Trim(hex);
    if |t| == 3 || |t| == 6 || |t| == 8 then Channels(|t|, ScanHex(t))
    else Fallback
  }

  /** `q` and `r` are the quotient and remainder of `v` by the power of two `m`. */
  lemma DivModBy(v: int, m: int, q: int, r: int)
    requires m == 0x10 || m == 0x100 || m == 0x1_0000 || m == 0x100_0000
    requires 0 <= r < m && v == q * m + r
    ensures v / m == q && v % m == r
  {
  }

  /** The 12-bit case on a value given by its three nibbles. */
  lemma NibbleChannels(v: nat, d0: nat, d1: nat, d2: nat)
    requires d0 < 16 && d1 < 16 && d2 < 16 && v == d0 * 0x100 + d1 * 0x10 + d2
    ensures v < Pow16(3) && Channels(3, v) == Argb(255, d0 * 17, d1 * 17, d2 * 17)
  {
    Pow16Values();
    DivModBy(v, 0x100, d0, d1 * 0x10 + d2);
    DivModBy(v, 0x10, d0 * 0x10 + d1, d2);
    DivModBy(d0 * 0x10 + d1, 0x10, d0, d1);
  }

  /** The 24-bit case on a value given by its three bytes. */
  lemma ByteChannels24(v: nat, x0: nat, x1: nat, x2: nat)
    requires x0 < 0x100 && x1 < 0x100 && x2 < 0x100 && v == (x0 * 0x100 + x1) * 0x100 + x2
    ensures v < Pow16(6) && Channels(6, v) == Argb(255, x0, x1, x2)
  {
    Pow16Values();
    DivModBy(v, 0x1_0000, x0, x1 * 0x100 + x2);
    DivModBy(v, 0x100, x0 * 0x100 + x1, x2);
    DivModBy(x0 * 0x100 + x1, 0x100, x0, x1);
  }

  /** The 32-bit case on a value given by its four bytes. */
  lemma ByteChannels32(v: nat, x0: nat, x1: nat, x2: nat, x3: nat)
    requires x0 < 0x100 && x1 < 0x100 && x2 < 0x100 && x3 < 0x100
    requires v == ((x0 * 0x100 + x1) * 0x100 + x2) * 0x100 + x3
    ensures v < Pow16(8) && Channels(8, v) == Argb(x0, x1, x2, x3)
  {
    Pow16Values();
    var hi := (x0 * 0x100 + x1) * 0x100 + x2;
    DivModBy(v, 0x100_0000, x0, (x1 * 0x100 + x2) * 0x100 + x3);
    DivModBy(v, 0x1_0000, x0 * 0x100 + x1, x2 * 0x100 + x3);
    DivModBy(x0 * 0x100 + x1, 0x100, x0, x1);
    DivModBy(v, 0x100, hi, x3);
    DivModBy(hi, 0x100, x0 * 0x100 + x1, x2);
  }

  /** A hex string split in front of its last two digits. */
  lemma ParseHexLastPair(t: string)
    requires |t| >= 2 && AllHex(t)
    ensures ParseHex(t) == ParseHex(t[..|t| - 2]) * 0x100 + ParseHex(t[|t| - 2..])
    ensures ParseHex(t[|t| - 2..]) < 0x100
  {
    assert t == t[..|t| - 2] + t[|t| - 2..];
    ParseHexAppend(t[..|t| - 2], t[|t| - 2..]);
    Pow16Values();
  }

  /** Three digits: each digit `n` becomes the channel `n * 17`, so 0 gives 0 and F gives 255. */
  lemma ShortFormChannels(t: string)
    requires |t| == 3 && AllHex(t)
    ensures Channels(3, ParseHex(t)) ==
      Argb(255, HexDigitValue(t[0]) * 17, HexDigitValue(t[1]) * 17, HexDigitValue(t[2]) * 17)
  {
    assert t == [t[0], t[1]] + [t[2]];
    ParseHexSnoc([t[0], t[1]], t[2]);
    ParseHexPair([t[0], t[1]]);
    NibbleChannels(ParseHex(t), HexDigitValue(t[0]), HexDigitValue(t[1]), HexDigitValue(t[2]));
  }

  /** Six digits: the channels are the three digit pairs, and they recombine to the value. */
  lemma RgbChannels(t: string)
    requires |t| == 6 && AllHex(t)
    ensures var c := Channels(6, ParseHex(t));
      && c == Argb(255, ParseHex(t[0..2]), ParseHex(t[2..4]), ParseHex(t[4..6]))
      && c.r * 0x1_0000 + c.g * 0x100 + c.b == ParseHex(t)
  {
    var four := t[..4];
    var x0, x1, x2 := ParseHex(t[0..2]), ParseHex(t[2..4]), ParseHex(t[4..6]);
    assert ParseHex(four) == x0 * 0x100 + x1 && x0 < 0x100 && x1 < 0x100 by {
      assert four[..2] == t[0..2] && four[2..] == t[2..4];
      ParseHexLastPair(four);
      Pow16Values();
    }
    assert ParseHex(t) == ParseHex(four) * 0x100 + x2 && x2 < 0x100 by {
      assert t[..4] == four && t[4..] == t[4..6];
      ParseHexLastPair(t);
    }
    ByteChannels24(ParseHex(t), x0, x1, x2);
  }

  /** Eight digits: alpha is the first pair, then red, green and blue. */
  lemma ArgbChannels(t: string)
    requires |t| == 8 && AllHex(t)
    ensures Channels(8, ParseHex(t)) ==
      Argb(ParseHex(t[0..2]), ParseHex(t[2..4]), ParseHex(t[4..6]), ParseHex(t[6..8]))
  {
    var six, four := t[..6], t[..4];
    var x0, x1, x2, x3 := ParseHex(t[0..2]), ParseHex(t[2..4]), ParseHex(t[4..6]), ParseHex(t[6..8]);
    assert ParseHex(four) == x0 * 0x100 + x1 && x0 < 0x100 && x1 < 0x100 by {
      assert four[..2] == t[0..2] && four[2..] == t[2..4];
      ParseHexLastPair(four);
      Pow16Values();
    }
    assert ParseHex(six) == ParseHex(four) * 0x100 + x2 && x2 < 0x100 by {
      assert six[..4] == four && six[4..] == t[4..6];
      ParseHexLastPair(six);
    }
    assert ParseHex(t) == ParseHex(six) * 0x100 + x3 && x3 < 0x100 by {
      assert t[..6] == six && t[6..] == t[6..8];
      ParseHexLastPair(t);
    }
    ByteChannels32(ParseHex(t), x0, x1, x2, x3);
  }

  /** A string of hex digits of a recognised length is read whole, with or without a '#'. */
  lemma HexDigitsColor(t: string)
    requires (|t| == 3 || |t| == 6 || |t| == 8) && AllHex(t)
    ensures ColorFromHex(t) == Channels(|t|, ParseHex(t))
    ensures ColorFromHex(['#'] + t) == Channels(|t|, ParseHex(t))
  {
    TrimKeepsCleanText(t);
    TrimHashPrefix(t);
    ScanAllHex(t);
  }

  /** With no hex digit at the front the scan yields 0: "zzzzzz" gives opaque black. */
  lemma NoDigitsIsBlack()
    ensures ColorFromHex("zzzzzz") == Argb(255, 0, 0, 0)
  {
    var t := "zzzzzz";
    TrimKeepsCleanText(t);
    assert HexRun(t) == 0;
    Pow16Values();
  }

  /** A "0x" marker counts toward the length but not the value: "0x1" gives (255, 0, 0, 17). */
  lemma MarkerCountsInLength()
    ensures ColorFromHex("0x1") == Argb(255, 0, 0, 17)
  {
    var t := "0x1";
    TrimKeepsCleanText(t);
    assert t == ['0', 'x'] + "1" + [];
    ScanAfterMarker('x', "1", []);
    assert ParseHex("1") == 1 by { assert "1" == [] + ['1']; }
    Pow16Values();
  }

  /** "4169E1" splits into 65, 105 and 225; the literal is a parameter so the solver does not unfold on it. */
  lemma RoyalBlueChannels(t: string)
    requires t == "4169E1"
    ensures AllHex(t) && Channels(6, ParseHex(t)) == Argb(255, 65, 105, 225)
  {
    assert AllHex(t);
    assert t[0..2] == "41" && t[2..4] == "69" && t[4..6] == "E1";
    assert ParseHex(t[0..2]) == 65 by { ParseHexPair("41"); }
    assert ParseHex(t[2..4]) == 105 by { ParseHexPair("69"); }
    assert ParseHex(t[4..6]) == 225 by { ParseHexPair("E1"); }
    RgbChannels(t);
  }

  /**
   "4169E1" and "#4169E1" both give royal blue: (255, 65, 105, 225). The
   literals are parameters so that the solver does not unfold on them.
   */
  lemma RoyalBlue(t: string, h: string)
    requires t == "4169E1" && h == "#4169E1"
    ensures ColorFromHex(t) == Argb(255, 65, 105, 225)
    ensures ColorFromHex(h) == Argb(255, 65, 105, 225)
  {
    var c := Argb(255, 65, 105, 225);
    assert |t| == 6 && AllHex(t) && Channels(6, ParseHex(t)) == c by {
      RoyalBlueChannels(t);
    }
    assert h == ['#'] + t;
    HexDigitsColor(t);
  }
}
