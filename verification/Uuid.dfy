/** UUID text (section 4 of RFC 9562) for two 64-bit halves. */
module Uuid {
  import opened Wire

  const TWO64: int := 0x1_0000_0000_0000_0000

  function Unsigned(x: int64): (u: int)
    ensures 0 <= u < TWO64
  {
    if x < 0 then x + TWO64 else x
  }

  function SignedHalf(u: int): int64
    requires 0 <= u < TWO64
  {
    if u >= 0x8000_0000_0000_0000 then u - TWO64 else u
  }

  function HexChar(d: int): char
    requires 0 <= d < 16
  {
    "0123456789abcdef"[d]
  }

  /** The value of a hexadecimal digit of either case, or -1. */
  function HexDigit(c: char): (v: int)
    ensures -1 <= v < 16
  {
    if '0' <= c <= '9' then c as int - '0' as int
    else if 'a' <= c <= 'f' then c as int - 'a' as int + 10
    else if 'A' <= c <= 'F' then c as int - 'A' as int + 10
    else -1
  }

  predicate IsHex(s: string) {
    forall i | 0 <= i < |s| :: HexDigit(s[i]) >= 0
  }

  function Pow16(k: nat): (p: int)
    ensures p >= 1
  {
    if k == 0 then 1 else 16 * Pow16(k - 1)
  }

  /** Exactly `k` lower-case hexadecimal digits of `n`, most significant first. */
  function Hex(n: nat, k: nat): (s: string)
    ensures |s| == k && IsHex(s)
    decreases k
  {
    if k == 0 then "" else
      assert HexDigit(HexChar(n % 16)) == n % 16;
      Hex(n / 16, k - 1) + [HexChar(n % 16)]
  }

  function HexVal(s: string): (v: int)
    requires IsHex(s)
    ensures 0 <= v < Pow16(|s|)
  {
    if s == "" then 0 else 16 * HexVal(s[..|s| - 1]) + HexDigit(s[|s| - 1])
  }

  function Format(high: int64, low: int64): string {
    var h, l := Unsigned(high), Unsigned(low);
    Hex(h / 0x1_0000_0000, 8) + ("-" + (Hex(h / 0x1_0000 % 0x1_0000, 4) + ("-" + (Hex(h % 0x1_0000, 4) + ("-" +
    (Hex(l / 0x1_0000_0000_0000, 4) + ("-" + Hex(l % 0x1_0000_0000_0000, 12))))))))
  }

  // ---- Parsing ----

  datatype Parsed = Ok(high: int64, low: int64) | Invalid | Panic

  /** White space in one byte. */
  predicate IsSpace(c: char) {
    c == ' ' || c == '\t' || c == '\n' || c == '\r' || c == 11 as char || c == 12 as char
  }

  predicate Is(c: char, b: int) { c as int == b }

  /** U+0085 and U+00A0 in UTF-8. */
  predicate WideSpace2(a: char, b: char) { Is(a, 0xc2) && (Is(b, 0x85) || Is(b, 0xa0)) }

  /** U+1680, U+2000 to U+200A, U+2028, U+2029, U+202F, U+205F and U+3000 in UTF-8. */
  predicate WideSpace3(a: char, b: char, c: char) {
    || (Is(a, 0xe1) && Is(b, 0x9a) && Is(c, 0x80))
    || (Is(a, 0xe2) && Is(b, 0x80) && (0x80 <= c as int <= 0x8a || Is(c, 0xa8) || Is(c, 0xa9) || Is(c, 0xaf)))
    || (Is(a, 0xe2) && Is(b, 0x81) && Is(c, 0x9f))
    || (Is(a, 0xe3) && Is(b, 0x80) && Is(c, 0x80))
  }

  /** Width of the white-space rune a byte string starts with, or 0. */
  function LeadSpace(s: string): (w: nat)
    ensures w <= |s|
  {
    if |s| >= 1 && IsSpace(s[0]) then 1
    else if |s| >= 2 && WideSpace2(s[0], s[1]) then 2
    else if |s| >= 3 && WideSpace3(s[0], s[1], s[2]) then 3
    else 0
  }

  /** Width of the white-space rune a byte string ends with, or 0. */
  function TailSpace(s: string): (w: nat)
    ensures w <= |s|
  {
    var n := |s|;
    if n >= 1 && IsSpace(s[n - 1]) then 1
    else if n >= 2 && WideSpace2(s[n - 2], s[n - 1]) then 2
    else if n >= 3 && WideSpace3(s[n - 3], s[n - 2], s[n - 1]) then 3
    else 0
  }

  function TrimLeft(s: string): string {
    if LeadSpace(s) > 0 then TrimLeft(s[LeadSpace(s)..]) else s
  }

  function TrimRight(s: string): string {
    if TailSpace(s) > 0 then TrimRight(s[..|s| - TailSpace(s)]) else s
  }

  /** The text without the Unicode white space around it. */
  function Trim(s: string): string { TrimRight(TrimLeft(s)) }

  /** Removes every hyphen. */
  function Strip(s: string): (t: string)
    ensures |t| <= |s|
  {
    if s == "" then "" else if s[0] == '-' then Strip(s[1..]) else [s[0]] + Strip(s[1..])
  }

  /** Hyphens in a text. */
  function Hyphens(s: string): nat {
    if s == "" then 0 else (if s[0] == '-' then 1 else 0) + Hyphens(s[1..])
  }

  lemma {:induction false} StripLength(s: string)
    ensures |Strip(s)| + Hyphens(s) == |s|
  {
    if s != "" { StripLength(s[1..]); }
  }

  predicate HyphenPlaces(t: string) {
    |t| == 36 && t[8] == '-' && t[13] == '-' && t[18] == '-' && t[23] == '-'
  }

  lemma {:induction false} HyphensDrop(s: string, i: nat)
    requires i <= |s|
    ensures Hyphens(s) >= Hyphens(s[i..])
  {
    if i > 0 {
      HyphensDrop(s[1..], i - 1);
      assert s[1..][i - 1..] == s[i..];
    }
  }

  lemma StripFour(t: string)
    requires HyphenPlaces(t)
    ensures |Strip(t)| <= 32
  {
    hide Hyphens, Strip;
    HyphenFrom(t, 0, 8);
    HyphenFrom(t, 9, 13);
    HyphenFrom(t, 14, 18);
    HyphenFrom(t, 19, 23);
    assert t[0..] == t;
    StripLength(t);
  }

  lemma HyphenFrom(t: string, i: nat, j: nat)
    requires i <= j < |t| && t[j] == '-'
    ensures Hyphens(t[i..]) >= 1 + Hyphens(t[j + 1..])
  {
    HyphensDrop(t[i..], j - i);
    assert t[i..][j - i..] == t[j..];
    assert t[j..][1..] == t[j + 1..];
  }

  function Parse(s: string): Parsed { ParseTrimmed(Trim(s)) }

  function ParseTrimmed(t: string): Parsed {
    if |t| == 36 then
      if t[8] != '-' || t[13] != '-' || t[18] != '-' || t[23] != '-' then Invalid else
        StripFour(t);
        Halves(Strip(t))
    else if |t| == 32 then Halves(t)
    else Invalid
  }

  /** The first sixteen characters and the rest as hexadecimal numbers; slicing a shorter text panics. */
  function Halves(t: string): Parsed
    requires |t| <= 32
  {
    if |t| < 16 then Panic
    else if !IsHex(t[..16]) || !IsHex(t[16..]) || t[16..] == "" then Invalid
    else
      SixtyFour();
      PowMonotone(|t| - 16, 16);
      Ok(SignedHalf(HexVal(t[..16])), SignedHalf(HexVal(t[16..])))
  }

  // ---- Properties ----

  lemma SixtyFour()
    ensures Pow16(4) == 0x1_0000 && Pow16(8) == 0x1_0000_0000
    ensures Pow16(12) == 0x1_0000_0000_0000 && Pow16(16) == TWO64
  {
    assert Pow16(7) == 16 * Pow16(6) && Pow16(6) == 16 * Pow16(5);
    assert Pow16(9) == 16 * Pow16(8) && Pow16(10) == 16 * Pow16(9) && Pow16(11) == 16 * Pow16(10);
    assert Pow16(13) == 16 * Pow16(12) && Pow16(14) == 16 * Pow16(13) && Pow16(15) == 16 * Pow16(14);
  }

  lemma {:induction false} PowMonotone(a: nat, b: nat)
    requires a <= b
    ensures Pow16(a) <= Pow16(b)
  {
    if a < b { PowMonotone(a, b - 1); }
  }

  lemma {:induction false} HexValOfHex(n: nat, k: nat)
    requires n < Pow16(k)
    ensures HexVal(Hex(n, k)) == n
    decreases k
  {
    if k > 0 {
      Shorter(n, Pow16(k - 1));
      HexValOfHex(n / 16, k - 1);
      assert HexDigit(HexChar(n % 16)) == n % 16;
      hide HexVal, Pow16;
      HexSnoc(Hex(n / 16, k - 1), HexChar(n % 16));
    }
  }

  lemma Shorter(n: nat, p: int)
    requires n < 16 * p
    ensures n / 16 < p
  {
  }

  lemma HexSnoc(s: string, c: char)
    requires IsHex(s) && HexDigit(c) >= 0
    ensures IsHex(s + [c]) && HexVal(s + [c]) == 16 * HexVal(s) + HexDigit(c)
  {
    assert (s + [c])[..|s|] == s;
  }

  lemma PowStep(k: nat)
    ensures Pow16(k + 1) == 16 * Pow16(k)
  {
  }

  lemma Distribute(x: int, p: int, y: int)
    ensures 16 * (x * p + y) == x * (16 * p) + 16 * y
  {
  }

  lemma {:induction false} HexAppend(a: string, b: string)
    requires IsHex(a) && IsHex(b)
    ensures IsHex(a + b) && HexVal(a + b) == HexVal(a) * Pow16(|b|) + HexVal(b)
  {
    if b == "" {
      assert a + b == a;
    } else {
      var b', c := b[..|b| - 1], b[|b| - 1];
      HexAppend(a, b');
      HexSnoc(b', c);
      HexSnoc(a + b', c);
      assert b == b' + [c] && a + b == (a + b') + [c];
      PowStep(|b'|);
      hide HexVal, Pow16, IsHex;
      Distribute(HexVal(a), Pow16(|b'|), HexVal(b'));
    }
  }

  lemma {:induction false} StripHex(s: string, rest: string)
    requires IsHex(s)
    ensures Strip(s + rest) == s + Strip(rest)
  {
    if s == "" {
      assert s + rest == rest;
    } else {
      assert (s + rest)[1..] == s[1..] + rest;
      assert (s + rest)[0] == s[0];
      StripHex(s[1..], rest);
    }
  }

  lemma StripHyphen(rest: string)
    ensures Strip("-" + rest) == Strip(rest)
  {
    assert ("-" + rest)[1..] == rest;
  }

  /** A visible ASCII character. */
  predicate Visible(c: char) { c as int < 0x80 && !IsSpace(c) }

  lemma NotSpace(s: string)
    requires s != "" && Visible(s[0]) && Visible(s[|s| - 1])
    ensures Trim(s) == s
  {
  }

  /** The bytes of one white-space rune. */
  predicate SpaceRune(w: Bytes) {
    || (|w| == 1 && (9 <= w[0] <= 13 || w[0] == 32))
    || w == [0xc2, 0x85] || w == [0xc2, 0xa0] || w == [0xe1, 0x9a, 0x80]
    || (|w| == 3 && w[..2] == [0xe2, 0x80] &&
        (0x80 <= w[2] <= 0x8a || w[2] == 0xa8 || w[2] == 0xa9 || w[2] == 0xaf))
    || w == [0xe2, 0x81, 0x9f] || w == [0xe3, 0x80, 0x80]
  }

  function Bytewise(w: Bytes): string {
    seq(|w|, i requires 0 <= i < |w| => w[i] as char)
  }

  predicate AllSpaces(ws: seq<Bytes>) { forall i | 0 <= i < |ws| :: SpaceRune(ws[i]) }

  function Blank(ws: seq<Bytes>): string
    requires AllSpaces(ws)
  {
    if ws == [] then "" else Bytewise(ws[0]) + Blank(ws[1..])
  }

  lemma OneBlank(w: Bytes, s: string)
    requires SpaceRune(w)
    ensures TrimLeft(Bytewise(w) + s) == TrimLeft(s) && TrimRight(s + Bytewise(w)) == TrimRight(s)
  {
    var b := Bytewise(w);
    assert LeadSpace(b + s) == |w| && (b + s)[|w|..] == s;
    assert TailSpace(s + b) == |w| && (s + b)[..|s|] == s;
  }

  lemma BlankIs(ws: seq<Bytes>)
    requires AllSpaces(ws)
    ensures ws == [] ==> Blank(ws) == ""
    ensures ws != [] ==> SpaceRune(ws[0]) && AllSpaces(ws[1..]) && Blank(ws) == Bytewise(ws[0]) + Blank(ws[1..])
  {
    hide SpaceRune, Bytewise;
  }

  lemma {:induction false} BlankLeft(ws: seq<Bytes>, s: string)
    requires AllSpaces(ws)
    ensures TrimLeft(Blank(ws) + s) == TrimLeft(s)
  {
    hide *;
    BlankIs(ws);
    if ws == [] {
      assert "" + s == s;
    } else {
      BlankLeft(ws[1..], s);
      OneBlank(ws[0], Blank(ws[1..]) + s);
      Cut(Bytewise(ws[0]), Blank(ws[1..]), s);
    }
  }

  lemma {:induction false} BlankRight(ws: seq<Bytes>, s: string)
    requires AllSpaces(ws)
    ensures TrimRight(s + Blank(ws)) == TrimRight(s)
    decreases |ws|
  {
    hide *;
    BlankIs(ws);
    if ws == [] {
      assert s + "" == s;
    } else {
      BlankRight(ws[1..], s + Bytewise(ws[0]));
      OneBlank(ws[0], s);
      Cut(s, Bytewise(ws[0]), Blank(ws[1..]));
    }
  }

  /** Unicode white space around a text makes no difference. */
  lemma SpacesIgnored(before: seq<Bytes>, s: string, after: seq<Bytes>)
    requires AllSpaces(before) && AllSpaces(after) && s != "" && Visible(s[0]) && Visible(s[|s| - 1])
    ensures Parse(Blank(before) + (s + Blank(after))) == Parse(s)
  {
    NotSpace(s);
    BlankLeft(before, s + Blank(after));
    Leads(s + Blank(after));
    BlankRight(after, s);
    Leads(s);
    hide Blank, TrimRight, LeadSpace, TrimLeft, ParseTrimmed;
  }

  lemma Leads(s: string)
    requires s != "" && Visible(s[0])
    ensures TrimLeft(s) == s
  {
  }

  /** The ends of the ranges of hexadecimal digits, of either case. */
  lemma HexRanges()
    ensures HexDigit('0') == 0 && HexDigit('9') == 9 && HexDigit('a') == 10 && HexDigit('f') == 15
    ensures HexDigit('A') == 10 && HexDigit('F') == 15
    ensures forall c | c in "/:@G`g" :: HexDigit(c) == -1
  {
  }

  /** The three groups of the high half denote it. */
  lemma HighGroups(h: nat)
    requires h < TWO64
    ensures var g := Hex(h / 0x1_0000_0000, 8) + (Hex(h / 0x1_0000 % 0x1_0000, 4) + Hex(h % 0x1_0000, 4));
            |g| == 16 && IsHex(g) && HexVal(g) == h
  {
    SixtyFour();
    Recombine(h);
    var a, b, c := h / 0x1_0000_0000, h / 0x1_0000 % 0x1_0000, h % 0x1_0000;
    HexValOfHex(a, 8);
    HexValOfHex(b, 4);
    HexValOfHex(c, 4);
    hide Hex, HexVal, Pow16, IsHex;
    HexAppend(Hex(b, 4), Hex(c, 4));
    HexAppend(Hex(a, 8), Hex(b, 4) + Hex(c, 4));
  }

  lemma Recombine(h: nat)
    ensures h == h / 0x1_0000_0000 * 0x1_0000_0000 + (h / 0x1_0000 % 0x1_0000 * 0x1_0000 + h % 0x1_0000)
    ensures h < TWO64 ==> h / 0x1_0000_0000 < 0x1_0000_0000
  {
    var q := h / 0x1_0000;
    assert q / 0x1_0000 == h / 0x1_0000_0000;
  }

  lemma LowGroups(l: nat)
    requires l < TWO64
    ensures var g := Hex(l / 0x1_0000_0000_0000, 4) + Hex(l % 0x1_0000_0000_0000, 12);
            |g| == 16 && IsHex(g) && HexVal(g) == l
  {
    SixtyFour();
    HexValOfHex(l / 0x1_0000_0000_0000, 4);
    HexValOfHex(l % 0x1_0000_0000_0000, 12);
    hide Hex, HexVal, Pow16, IsHex;
    HexAppend(Hex(l / 0x1_0000_0000_0000, 4), Hex(l % 0x1_0000_0000_0000, 12));
  }

  lemma SignedUnsigned(x: int64)
    ensures SignedHalf(Unsigned(x)) == x
  {
  }

  /** Two groups of sixteen hexadecimal digits parse to the halves they denote. */
  lemma HalvesOf(g: string, k: string)
    requires |g| == 16 && |k| == 16 && IsHex(g) && IsHex(k)
    ensures HexVal(g) < TWO64 && HexVal(k) < TWO64
    ensures Halves(g + k) == Ok(SignedHalf(HexVal(g)), SignedHalf(HexVal(k)))
  {
    SixtyFour();
    assert (g + k)[..16] == g && (g + k)[16..] == k;
  }

  /** The hyphens sit where the parser expects them, and stripping them leaves the groups. */
  lemma Grouped(a: string, b: string, c: string, d: string, e: string)
    requires |a| == 8 && |b| == 4 && |c| == 4 && |d| == 4 && |e| == 12
    requires IsHex(a) && IsHex(b) && IsHex(c) && IsHex(d) && IsHex(e)
    ensures var t := a + ("-" + (b + ("-" + (c + ("-" + (d + ("-" + e)))))));
            && |t| == 36 && t[8] == '-' && t[13] == '-' && t[18] == '-' && t[23] == '-'
            && t[0] == a[0] && t[35] == e[11]
            && Strip(t) == a + (b + (c + (d + e)))
  {
    hide IsHex;
    var t4 := d + ("-" + e);
    var t3 := c + ("-" + t4);
    var t2 := b + ("-" + t3);
    assert e + "" == e;
    StripHex(e, "");
    StripHyphen(e);
    StripHex(d, "-" + e);
    StripHyphen(t4);
    StripHex(c, "-" + t4);
    StripHyphen(t3);
    StripHex(b, "-" + t3);
    StripHyphen(t2);
    StripHex(a, "-" + t2);
  }

  lemma FiveGroups(a: string, b: string, c: string, d: string, e: string)
    ensures a + (b + (c + (d + e))) == (a + (b + c)) + (d + e)
  {
    Cut(b, c, d + e);
    Cut(a, b + c, d + e);
  }

  /** UUID round trip: for all 128 bits, parsing the printed text gives both halves back. */
  lemma RoundTrip(high: int64, low: int64)
    ensures Parse(Format(high, low)) == Ok(high, low)
  {
    var h, l := Unsigned(high), Unsigned(low);
    var a, b, c := Hex(h / 0x1_0000_0000, 8), Hex(h / 0x1_0000 % 0x1_0000, 4), Hex(h % 0x1_0000, 4);
    var d, e := Hex(l / 0x1_0000_0000_0000, 4), Hex(l % 0x1_0000_0000_0000, 12);
    HighGroups(h);
    LowGroups(l);
    Grouped(a, b, c, d, e);
    FiveGroups(a, b, c, d, e);
    HexNotSpace(a[0]);
    HexNotSpace(e[11]);
    NotSpace(Format(high, low));
    HalvesOf(a + (b + c), d + e);
    hide Hex, HexVal, IsHex, Halves, Strip, Trim, Visible;
    SignedUnsigned(high);
    SignedUnsigned(low);
  }

  /** Lower-case hexadecimal digits and hyphens. */
  predicate Lower(s: string) {
    forall i | 0 <= i < |s| :: '0' <= s[i] <= '9' || 'a' <= s[i] <= 'f' || s[i] == '-'
  }

  lemma {:induction false} HexLower(n: nat, k: nat)
    ensures Lower(Hex(n, k))
    decreases k
  {
    if k > 0 { HexLower(n / 16, k - 1); }
  }

  lemma LowerJoin(a: string, b: string)
    requires Lower(a) && Lower(b)
    ensures Lower(a + ("-" + b))
  {
  }

  /** The printed text has lower-case digits only. */
  lemma FormatLower(high: int64, low: int64)
    ensures Lower(Format(high, low))
  {
    var h, l := Unsigned(high), Unsigned(low);
    var a, b, c := Hex(h / 0x1_0000_0000, 8), Hex(h / 0x1_0000 % 0x1_0000, 4), Hex(h % 0x1_0000, 4);
    var d, e := Hex(l / 0x1_0000_0000_0000, 4), Hex(l % 0x1_0000_0000_0000, 12);
    HexLower(h / 0x1_0000_0000, 8);
    HexLower(h / 0x1_0000 % 0x1_0000, 4);
    HexLower(h % 0x1_0000, 4);
    HexLower(l / 0x1_0000_0000_0000, 4);
    HexLower(l % 0x1_0000_0000_0000, 12);
    assert Format(high, low) == a + ("-" + (b + ("-" + (c + ("-" + (d + ("-" + e)))))));
    hide Hex, Lower, Format;
    LowerJoin(d, e);
    LowerJoin(c, d + ("-" + e));
    LowerJoin(b, c + ("-" + (d + ("-" + e))));
    LowerJoin(a, b + ("-" + (c + ("-" + (d + ("-" + e))))));
  }

  lemma HexNotSpace(c: char)
    requires HexDigit(c) >= 0
    ensures Visible(c)
  {
  }

  /** The compact form of 32 hexadecimal digits of either case parses to the halves it denotes. */
  lemma Compact(s: string)
    requires |s| == 32 && IsHex(s)
    ensures HexVal(s[..16]) < TWO64 && HexVal(s[16..]) < TWO64
    ensures Parse(s) == Ok(SignedHalf(HexVal(s[..16])), SignedHalf(HexVal(s[16..])))
  {
    HexNotSpace(s[0]);
    HexNotSpace(s[31]);
    NotSpace(s);
    HalvesOf(s[..16], s[16..]);
    assert s == s[..16] + s[16..];
  }

  /** Accepted are 32 hexadecimal digits, and 36 bytes with the four hyphens in place and more than 16 digits left. */
  lemma AcceptsExactly(s: string)
    ensures Parse(s).Ok? <==>
            var t := Trim(s);
            if |t| == 32 then IsHex(t) else HyphenPlaces(t) && 16 < |Strip(t)| && IsHex(Strip(t))
  {
    hide Trim, Strip, HexVal;
    var t := Trim(s);
    var d := if |t| == 32 then t else Strip(t);
    if |d| >= 16 { assert d == d[..16] + d[16..]; }
  }

  /**
    * Not every text is handled: slicing leaves the range exactly on 36 bytes with the four hyphens in place and more
    * than twenty hyphens in all, once the white space around them is gone.
    */
  lemma PanicsExactly(s: string)
    ensures Parse(s).Panic? <==> HyphenPlaces(Trim(s)) && Hyphens(Trim(s)) > 20
  {
    hide Trim;
    StripLength(Trim(s));
  }

  function Repeat(c: char, k: nat): string { seq(k, i => c) }

  lemma {:induction false} AllHyphens(k: nat)
    ensures Hyphens(Repeat('-', k)) == k
  {
    if k > 0 {
      AllHyphens(k - 1);
      assert Repeat('-', k)[1..] == Repeat('-', k - 1);
    }
  }

  lemma PanicExample()
    ensures Parse(Repeat('-', 36)).Panic?
  {
    AllHyphens(36);
    NotSpace(Repeat('-', 36));
    PanicsExactly(Repeat('-', 36));
  }
}
