/** UTF-8 (section 3 of RFC 3629) and UTF-16 (sections 2.1 and 2.2 of RFC 2781) as used by the string frames. */
module Unicode {
  import opened Wire

  type Scalar = x: int | 0 <= x <= 0x10_ffff && !(0xd800 <= x <= 0xdfff)
  type Unit = x: int | 0 <= x < 0x1_0000
  type Text = seq<Scalar>

  const REPLACEMENT: Scalar := 0xfffd

  predicate High(u: int) { 0xd800 <= u <= 0xdbff }
  predicate Low(u: int) { 0xdc00 <= u <= 0xdfff }
  predicate Surrogate(u: int) { 0xd800 <= u <= 0xdfff }

  // ---- UTF-8 ----

  /** Bytes appended by writing one rune to a string builder. */
  function Utf8Rune(r: Scalar): (s: Bytes)
    ensures 1 <= |s| <= 4
  {
    if r < 0x80 then [r]
    else if r < 0x800 then [0xc0 + r / 64, 0x80 + r % 64]
    else if r < 0x1_0000 then [0xe0 + r / 4096, 0x80 + r / 64 % 64, 0x80 + r % 64]
    else [0xf0 + r / 0x4_0000, 0x80 + r / 4096 % 64, 0x80 + r / 64 % 64, 0x80 + r % 64]
  }

  function Utf8(t: Text): Bytes {
    if t == [] then [] else Utf8Rune(t[0]) + Utf8(t[1..])
  }

  /** The payload bits of a byte whose marker bits are `mark`. */
  function Above(b: int, mark: int): int { b - mark }

  predicate Cont(b: byte) { 0x80 <= b < 0xc0 }

  /** Second-byte range that keeps three- and four-byte forms shortest, off surrogates and in range. */
  function SecondLow(b0: byte): byte {
    if b0 == 0xe0 then 0xa0 else if b0 == 0xf0 then 0x90 else 0x80
  }

  function SecondHigh(b0: byte): byte {
    if b0 == 0xed then 0x9f else if b0 == 0xf4 then 0x8f else 0xbf
  }

  /** First rune of a non-empty byte string and its width; malformed input gives U+FFFD and width 1. */
  function DecodeRune(s: Bytes): (r: (Scalar, nat))
    requires s != []
    ensures 1 <= r.1 <= |s|
    ensures |Units(r.0)| <= r.1
  {
    var b0 := s[0];
    if b0 < 0x80 then (b0, 1)
    else if 0xc2 <= b0 <= 0xdf && |s| >= 2 && Cont(s[1]) then
      (Above(b0, 0xc0) * 64 + Above(s[1], 0x80), 2)
    else if 0xe0 <= b0 <= 0xef && |s| >= 3 && SecondLow(b0) <= s[1] <= SecondHigh(b0) && Cont(s[2]) then
      (Above(b0, 0xe0) * 4096 + Above(s[1], 0x80) * 64 + Above(s[2], 0x80), 3)
    else if 0xf0 <= b0 <= 0xf4 && |s| >= 4 && SecondLow(b0) <= s[1] <= SecondHigh(b0) && Cont(s[2]) && Cont(s[3]) then
      (Above(b0, 0xf0) * 0x4_0000 + Above(s[1], 0x80) * 4096 + Above(s[2], 0x80) * 64 + Above(s[3], 0x80), 4)
    else (REPLACEMENT, 1)
  }

  /** The runes a `range` loop visits. */
  function Runes(s: Bytes): Text {
    if s == [] then [] else
      var (r, w) := DecodeRune(s);
      [r] + Runes(s[w..])
  }

  lemma DecodeRuneEncoded(r: Scalar, t: Bytes)
    ensures DecodeRune(Utf8Rune(r) + t) == (r, |Utf8Rune(r)|)
  {
    var e := Utf8Rune(r);
    var s := e + t;
    assert forall i | 0 <= i < |e| :: s[i] == e[i];
    hide Units;
    if r < 0x80 {
    } else if r < 0x800 {
      assert r == r / 64 * 64 + r % 64;
    } else if r < 0x1_0000 {
      Split3(r);
    } else {
      Split4(r);
    }
  }

  lemma Split3(r: int)
    requires 0x800 <= r < 0x1_0000
    ensures r == r / 4096 * 4096 + r / 64 % 64 * 64 + r % 64
    ensures r / 4096 < 16
    ensures r / 4096 == 0 ==> r / 64 % 64 >= 0x20
    ensures r / 4096 == 13 ==> (r / 64 % 64 >= 0x20 <==> r >= 0xd800)
  {
    var a, b := r / 64, r % 64;
    assert a / 64 == r / 4096;
  }

  lemma Split4(r: int)
    requires 0x1_0000 <= r <= 0x10_ffff
    ensures r == r / 0x4_0000 * 0x4_0000 + r / 4096 % 64 * 4096 + r / 64 % 64 * 64 + r % 64
    ensures 0 <= r / 0x4_0000 <= 4
    ensures r / 0x4_0000 == 0 ==> r / 4096 % 64 >= 0x10
    ensures r / 0x4_0000 == 4 ==> r / 4096 % 64 < 0x10
  {
    var a, b := r / 64, r / 4096;
    assert a / 64 == b && b / 64 == r / 0x4_0000;
  }

  /** The byte string starts with the encoding of a scalar. */
  predicate LeadsWith(s: Bytes, r: Scalar) { Utf8Rune(r) <= s }

  /** What is decoded is what is there: the encoding of a scalar, or U+FFFD for one byte where there is none. */
  lemma DecodeRuneExact(s: Bytes)
    requires s != []
    ensures var (r, w) := DecodeRune(s);
            || (LeadsWith(s, r) && w == |Utf8Rune(r)|)
            || (r == 0xfffd && w == 1 && forall x: Scalar :: !LeadsWith(s, x))
  {
    var (r, w) := DecodeRune(s);
    forall x: Scalar | LeadsWith(s, x)
      ensures (r, w) == (x, |Utf8Rune(x)|)
    {
      assert s == Utf8Rune(x) + s[|Utf8Rune(x)|..];
      DecodeRuneEncoded(x, s[|Utf8Rune(x)|..]);
    }
    if s[0] < 0x80 || w > 1 { WellFormedLeads(s); }
  }

  lemma WellFormedLeads(s: Bytes)
    requires s != [] && (s[0] < 0x80 || DecodeRune(s).1 > 1)
    ensures LeadsWith(s, DecodeRune(s).0) && DecodeRune(s).1 == |Utf8Rune(DecodeRune(s).0)|
  {
    hide Units;
    var (r, w) := DecodeRune(s);
    if w == 2 {
      Bits2(s[0] - 0xc0, s[1] - 0x80);
    } else if w == 3 {
      Bits3(s[0] - 0xe0, s[1] - 0x80, s[2] - 0x80);
    } else if w == 4 {
      Bits4(s[0] - 0xf0, s[1] - 0x80, s[2] - 0x80, s[3] - 0x80);
    }
    assert |Utf8Rune(r)| == w;
    assert forall i | 0 <= i < w :: Utf8Rune(r)[i] == s[i];
  }

  lemma Bits2(a: int, b: int)
    requires 0 <= b < 64
    ensures (a * 64 + b) / 64 == a && (a * 64 + b) % 64 == b
  {
  }

  lemma Bits3(a: int, b: int, c: int)
    requires 0 <= b < 64 && 0 <= c < 64
    ensures var r := a * 4096 + b * 64 + c; r / 4096 == a && r / 64 % 64 == b && r % 64 == c
  {
    var r := a * 4096 + b * 64 + c;
    assert r / 64 == a * 64 + b;
  }

  lemma Bits4(a: int, b: int, c: int, d: int)
    requires 0 <= b < 64 && 0 <= c < 64 && 0 <= d < 64
    ensures var r := a * 0x4_0000 + b * 4096 + c * 64 + d;
            r / 0x4_0000 == a && r / 4096 % 64 == b && r / 64 % 64 == c && r % 64 == d
  {
    var r := a * 0x4_0000 + b * 4096 + c * 64 + d;
    assert r / 64 == (a * 4096 + b * 64) + c;
    assert r / 4096 == a * 64 + b;
  }

  /** Every valid string is the encoding of its runes. */
  lemma {:induction false} RunesOfUtf8(t: Text)
    ensures Runes(Utf8(t)) == t
  {
    if t != [] {
      DecodeRuneEncoded(t[0], Utf8(t[1..]));
      RunesOfUtf8(t[1..]);
    }
  }

  lemma {:induction false} Utf8Append(a: Text, b: Text)
    ensures Utf8(a + b) == Utf8(a) + Utf8(b)
  {
    if a == [] {
      assert a + b == b;
    } else {
      assert (a + b)[1..] == a[1..] + b;
      Utf8Append(a[1..], b);
    }
  }

  // ---- UTF-16 ----

  function Units(r: Scalar): (u: seq<Unit>)
    ensures 1 <= |u| <= 2
  {
    if r < 0x1_0000 then [r]
    else [0xd800 + (r - 0x1_0000) / 0x400, 0xdc00 + (r - 0x1_0000) % 0x400]
  }

  function Utf16(t: Text): seq<Unit> {
    if t == [] then [] else Units(t[0]) + Utf16(t[1..])
  }

  function Pair(hi: Unit, lo: Unit): Scalar
    requires High(hi) && Low(lo)
  {
    (hi - 0xd800) * 0x400 + (lo - 0xdc00) + 0x1_0000
  }

  /** Scalars denoted by a unit sequence, with U+FFFD for every unpaired surrogate. */
  function Decode16(u: seq<Unit>): Text {
    if u == [] then []
    else if High(u[0]) && |u| >= 2 && Low(u[1]) then [Pair(u[0], u[1])] + Decode16(u[2..])
    else if Surrogate(u[0]) then [REPLACEMENT] + Decode16(u[1..])
    else [u[0]] + Decode16(u[1..])
  }

  /** Each half of a pair that stands alone is one U+FFFD. */
  lemma LoneSurrogate(u: seq<Unit>)
    requires u != [] && 0xd800 <= u[0] < 0xe000 && (|u| == 1 || u[0] >= 0xdc00 || !(0xdc00 <= u[1] < 0xe000))
    ensures Decode16(u) == [0xfffd] + Decode16(u[1..])
    ensures ClobText(u) == [0xfffd] + ClobText(u[1..])
  {
  }

  predicate PairedAt(u: seq<Unit>, i: nat)
    requires i < |u|
  {
    && (High(u[i]) ==> i + 1 < |u| && Low(u[i + 1]))
    && (Low(u[i]) ==> 0 < i && High(u[i - 1]))
  }

  /** Every high surrogate is directly followed by a low one and every low one directly preceded by a high one. */
  predicate Paired(u: seq<Unit>) {
    forall i | 0 <= i < |u| :: PairedAt(u, i)
  }

  /** Decoding what was encoded gives the text back, for every text. */
  lemma {:induction false} DecodeEncoded(t: Text)
    ensures Decode16(Utf16(t)) == t
  {
    if t != [] {
      DecodeEncoded(t[1..]);
      var us := Units(t[0]);
      assert Utf16(t) == us + Utf16(t[1..]);
      if |us| == 2 {
        assert Pair(us[0], us[1]) == t[0];
        assert Utf16(t)[2..] == Utf16(t[1..]);
      } else {
        assert Utf16(t)[1..] == Utf16(t[1..]);
      }
    }
  }

  lemma PairedTail(u: seq<Unit>, k: nat)
    requires k <= |u|
    requires (k == 1 <= |u| && !Surrogate(u[0])) || (k == 2 <= |u| && High(u[0]) && Low(u[1]))
    ensures Paired(u) <==> Paired(u[k..])
  {
    var v := u[k..];
    forall i | 0 <= i < |v|
      ensures PairedAt(v, i) <==> PairedAt(u, i + k)
    {
    }
    if Paired(v) {
      forall i | 0 <= i < |u|
        ensures PairedAt(u, i)
      {
        if i >= k { assert PairedAt(v, i - k); }
      }
    }
  }

  /** Encoding what was decoded gives the units back exactly when no surrogate is unpaired. */
  lemma {:induction false} EncodeDecoded(u: seq<Unit>)
    ensures Utf16(Decode16(u)) == u <==> Paired(u)
  {
    if u == [] {
    } else if High(u[0]) && |u| >= 2 && Low(u[1]) {
      EncodeDecoded(u[2..]);
      PairedTail(u, 2);
      PairUnits(u[0], u[1]);
      Utf16Cons(Pair(u[0], u[1]), Decode16(u[2..]));
      assert u == [u[0], u[1]] + u[2..];
      SamePrefix([u[0], u[1]], Utf16(Decode16(u[2..])), u[2..]);
    } else if Surrogate(u[0]) {
      Utf16Cons(REPLACEMENT, Decode16(u[1..]));
      assert !PairedAt(u, 0);
    } else {
      EncodeDecoded(u[1..]);
      PairedTail(u, 1);
      Utf16Cons(u[0], Decode16(u[1..]));
      assert u == [u[0]] + u[1..];
      SamePrefix([u[0]], Utf16(Decode16(u[1..])), u[1..]);
    }
  }

  lemma PairUnits(hi: Unit, lo: Unit)
    requires High(hi) && Low(lo)
    ensures Units(Pair(hi, lo)) == [hi, lo]
  {
  }

  lemma Utf16Cons(r: Scalar, t: Text)
    ensures Utf16([r] + t) == Units(r) + Utf16(t)
  {
    assert ([r] + t)[1..] == t;
  }

  lemma SamePrefix<T>(p: seq<T>, a: seq<T>, b: seq<T>)
    ensures p + a == p + b <==> a == b
  {
    assert (p + a)[|p|..] == a && (p + b)[|p|..] == b;
  }

  /** A string never has more UTF-16 units than bytes, valid or not. */
  lemma {:induction false} UnitsFitBytes(s: Bytes)
    ensures |Utf16(Runes(s))| <= |s|
  {
    if s != [] {
      UnitsFitBytes(s[DecodeRune(s).1..]);
      assert Runes(s)[1..] == Runes(s[DecodeRune(s).1..]);
    }
  }

  predicate Ascii(s: seq<int>) {
    forall i | 0 <= i < |s| :: 0 <= s[i] < 0x80
  }

  /** On ASCII bytes the runes, and their units, are the bytes themselves. */
  lemma {:induction false} AsciiUnits(s: Bytes)
    requires Ascii(s)
    ensures Utf16(Runes(s)) == s
  {
    hide Runes, Utf16;
    AsciiStep(s);
    if s != [] {
      AsciiUnits(s[1..]);
      assert s == [s[0]] + s[1..];
    }
  }

  lemma AsciiStep(s: Bytes)
    requires Ascii(s)
    ensures if s == [] then Utf16(Runes(s)) == [] else Utf16(Runes(s)) == [s[0]] + Utf16(Runes(s[1..]))
  {
    if s != [] { assert Runes(s)[0] == s[0] && Runes(s)[1..] == Runes(s[1..]); }
  }

  /** On units below 0x80 the decoded text, as UTF-8, is the low bytes themselves. */
  lemma {:induction false} AsciiText(u: seq<Unit>)
    requires Ascii(u)
    ensures Utf8(Decode16(u)) == u
  {
    if u != [] {
      AsciiText(u[1..]);
      assert Decode16(u)[1..] == Decode16(u[1..]);
      assert u == [u[0]] + u[1..];
    }
  }

  // ---- Code units on the wire ----

  function UnitBytes(u: seq<Unit>): (s: Bytes)
    ensures |s| == 2 * |u|
  {
    if u == [] then [] else UnitBytes(u[..|u| - 1]) + [u[|u| - 1] / 256, u[|u| - 1] % 256]
  }

  function Join(hi: byte, lo: byte): Unit {
    var h: int := hi;
    h * 256 + lo
  }

  function UnitsOf(raw: Bytes): (u: seq<Unit>)
    ensures |u| == |raw| / 2
  {
    if |raw| < 2 then [] else UnitsOf(raw[..|raw| - 2]) + [Join(raw[|raw| - 2], raw[|raw| - 1])]
  }

  lemma UnitBytesSnoc(u: seq<Unit>, x: Unit)
    ensures UnitBytes(u + [x]) == UnitBytes(u) + [x / 256, x % 256]
  {
    assert (u + [x])[..|u|] == u;
  }

  lemma UnitsOfSnoc(raw: Bytes, hi: byte, lo: byte)
    requires |raw| % 2 == 0
    ensures UnitsOf(raw + [hi, lo]) == UnitsOf(raw) + [Join(hi, lo)]
  {
    assert (raw + [hi, lo])[..|raw|] == raw;
  }

  lemma {:induction false} UnitsOfBytes(u: seq<Unit>)
    ensures UnitsOf(UnitBytes(u)) == u
  {
    if u != [] {
      var v, x := u[..|u| - 1], u[|u| - 1];
      UnitsOfBytes(v);
      UnitsOfSnoc(UnitBytes(v), x / 256, x % 256);
      assert x == x / 256 * 256 + x % 256;
    }
  }

  lemma {:induction false} BytesOfUnits(raw: Bytes)
    requires |raw| % 2 == 0
    ensures UnitBytes(UnitsOf(raw)) == raw
  {
    if raw != [] {
      var init, hi, lo := raw[..|raw| - 2], raw[|raw| - 2], raw[|raw| - 1];
      BytesOfUnits(init);
      UnitBytesSnoc(UnitsOf(init), Join(hi, lo));
      assert raw == init + [hi, lo];
    }
  }

  /** Frame of a unit sequence: its length in units, then the units. */
  function PutUnits(u: seq<Unit>): Bytes {
    EncBE(|u|, 4) + UnitBytes(u)
  }

  /** Frame of a string: the frame of its UTF-16 form. */
  function PutString(s: Bytes): Bytes {
    PutUnits(Utf16(Runes(s)))
  }

  /** A nullable string frame decoded in full, without shortcuts; null travels as length -1. */
  function GetString(s: Bytes): (g: Got<Option<Bytes>>)
    ensures g.Got? ==> 4 <= g.n <= |s|
  {
    match Get32(s)
    case Fail => Fail
    case Got(len, _) =>
      if len == -1 then Got(None, 4)
      else if len == 0 then Got(Some([]), 4)
      else if len < 0 || len > MAX_WIRE_LENGTH / 2 then Fail
      else if |s| < 4 + 2 * len then Fail
      else Got(Some(Utf8(Decode16(UnitsOf(s[4..4 + 2 * len])))), 4 + 2 * len)
  }

  lemma GetStringUnits(u: seq<Unit>, t: Bytes)
    requires |u| <= MAX_WIRE_LENGTH / 2
    ensures GetString(PutUnits(u) + t) == Got(Some(Utf8(Decode16(u))), |PutUnits(u)|)
    ensures (PutUnits(u) + t)[|PutUnits(u)|..] == t
  {
    var body := UnitBytes(u);
    UnitsOfBytes(u);
    assert PutUnits(u) + t == Put32(|u|) + (body + t);
    hide UnitBytes, UnitsOf, EncBE, Decode16, Utf8, PutUnits;
    GetStringBody(|u|, body, t);
  }

  lemma EmptyText(raw: Bytes)
    requires raw == []
    ensures Utf8(Decode16(UnitsOf(raw))) == []
  {
  }

  lemma GetStringBody(k: nat, body: Bytes, t: Bytes)
    requires |body| == 2 * k && k <= MAX_WIRE_LENGTH / 2
    ensures GetString(Put32(k) + (body + t)) == Got(Some(Utf8(Decode16(UnitsOf(body)))), 4 + 2 * k)
    ensures (Put32(k) + (body + t))[4 + 2 * k..] == t
  {
    hide Get32, Put32, UnitsOf, Decode16, Utf8;
    Get32Put(k, body + t);
    Cut(Put32(k), body, t);
    if k == 0 { EmptyText(body); }
  }

  /** Reading back a written string gives it back; a malformed string comes back with U+FFFD replacements. */
  lemma StringRoundTrip(s: Bytes, t: Bytes)
    requires |Utf16(Runes(s))| <= MAX_WIRE_LENGTH / 2
    ensures GetString(PutString(s) + t) == Got(Some(Utf8(Runes(s))), |PutString(s)|)
    ensures (PutString(s) + t)[|PutString(s)|..] == t
  {
    GetStringUnits(Utf16(Runes(s)), t);
    DecodeEncoded(Runes(s));
  }

  lemma ValidStringRoundTrip(text: Text, t: Bytes)
    requires |Utf16(text)| <= MAX_WIRE_LENGTH / 2
    ensures GetString(PutString(Utf8(text)) + t) == Got(Some(Utf8(text)), |PutString(Utf8(text))|)
  {
    RunesOfUtf8(text);
    StringRoundTrip(Utf8(text), t);
  }

  /** A nullable string as the server holds it, within the wire cap. */
  type JavaString = u: Option<seq<Unit>> | u.Some? ==> |u.value| <= MAX_WIRE_LENGTH / 2 witness None

  function PutText(u: Option<seq<Unit>>): Bytes {
    match u case None => Put32(-1) case Some(us) => PutUnits(us)
  }

  function TextOf(u: Option<seq<Unit>>): Option<Bytes> {
    match u case None => None case Some(us) => Some(Utf8(Decode16(us)))
  }

  lemma TextDecodes(u: JavaString, t: Bytes)
    ensures GetString(PutText(u) + t) == Got(TextOf(u), |PutText(u)|)
    ensures (PutText(u) + t)[|PutText(u)|..] == t
  {
    match u
    case None => Get32Put(-1, t);
    case Some(us) => GetStringUnits(us, t);
  }

  lemma StringExtent(s: Bytes)
    requires GetString(s).Got?
    ensures |s| >= 4
    ensures var len := Int32(s[..4]);
            if len == -1 then GetString(s).n == 4 else 0 <= len <= MAX_WIRE_LENGTH / 2 && GetString(s).n == 4 + 2 * len
  {
    hide Int32, Decode16, Utf8, UnitsOf;
  }

  lemma NullFrame()
    ensures PutText(None) == Put32(-1)
  {
  }

  lemma UnitsFrame(u: seq<Unit>, raw: Bytes)
    requires UnitBytes(u) == raw && |u| <= MAX_WIRE_LENGTH / 2
    ensures PutText(Some(u)) == Put32(|u|) + raw
  {
    hide UnitBytes, EncBE;
  }

  /** Whatever is read as a string is the frame of one. */
  lemma StringFrame(s: Bytes) returns (u: JavaString)
    requires GetString(s).Got?
    ensures PutText(u) == s[..GetString(s).n]
  {
    hide *;
    StringExtent(s);
    NullFrame();
    Put32Int(s[..4]);
    var len: int := Int32(s[..4]);
    u := None;
    if len != -1 {
      var raw := s[4..4 + 2 * len];
      BytesOfUnits(raw);
      var units := UnitsOf(raw);
      u := Some(units);
      UnitsFrame(units, raw);
      assert s[..4 + 2 * len] == s[..4] + raw;
    }
  }

  lemma GetStringLocal(s: Bytes, s': Bytes)
    requires GetString(s).Got? && Agree(s, s', GetString(s).n)
    ensures GetString(s') == GetString(s)
  {
    var n := GetString(s).n;
    AgreeLess(s, s', n, 4);
    assert s[4..n] == s[..n][4..] && s'[4..n] == s'[..n][4..];
  }

  // ---- Inline CLOB characters ----

  /** One UTF-16 unit in the 1-, 2- or 3-byte form used for inline CLOB data. */
  function ClobChar(u: Unit): (s: Bytes)
    ensures 1 <= |s| <= 3
  {
    if u < 0x80 then [u]
    else if u < 0x800 then [0xc0 + u / 64, 0x80 + u % 64]
    else [0xe0 + u / 4096, 0x80 + u / 64 % 64, 0x80 + u % 64]
  }

  /** A character of an inline CLOB that is not half of a pair has its UTF-8 form. */
  lemma ClobCharIsUtf8(u: Unit)
    requires !Surrogate(u)
    ensures ClobChar(u) == Utf8Rune(u)
  {
  }

  /** The characters of the examples in section 7 of RFC 3629 and section 5 of RFC 2781. */
  lemma Examples()
    ensures Utf8Rune(0x41) == [0x41] && Utf8Rune(0x391) == [0xce, 0x91] && Utf8Rune(0x2262) == [0xe2, 0x89, 0xa2]
    ensures Utf8Rune(0x233b4) == [0xf0, 0xa3, 0x8e, 0xb4]
    ensures Units(0x12345) == [0xd808, 0xdf45] && Units(0x3d) == [0x3d]
    ensures UnitBytes([0xd808, 0xdf45]) == [0xd8, 0x08, 0xdf, 0x45]
  {
    UnitBytesSnoc([], 0xd808);
    UnitBytesSnoc([0xd808], 0xdf45);
    hide UnitBytes;
    assert [0xd808] + [0xdf45] == [0xd808, 0xdf45] && [] + [0xd808] == [0xd808];
    assert UnitBytes([]) == [];
  }

  function ClobChars(u: seq<Unit>): Bytes {
    if u == [] then [] else ClobChar(u[0]) + ClobChars(u[1..])
  }

  /** `b & (m - 1)` for a power of two `m`. */
  function Masked(b: int, m: int): int
    requires m > 0
  {
    b % m
  }

  /** Reads one character; the continuation bits are masked, never checked. */
  function GetClobChar(s: Bytes): (g: Got<Unit>)
    ensures g.Got? ==> 1 <= g.n <= |s|
  {
    if |s| < 1 then Fail
    else if s[0] < 0x80 then Got(s[0], 1)
    else if s[0] >= 0xe0 then
      if |s| < 3 then Fail else Got(Masked(s[0], 16) * 4096 + Masked(s[1], 64) * 64 + Masked(s[2], 64), 3)
    else
      if |s| < 2 then Fail else Got(Masked(s[0], 32) * 64 + Masked(s[1], 64), 2)
  }

  function GetClobChars(s: Bytes, k: nat): (g: Got<seq<Unit>>)
    ensures g.Got? ==> g.n <= |s| && |g.v| == k
  {
    if k == 0 then Got([], 0) else
      match GetClobChar(s)
      case Fail => Fail
      case Got(u, n) =>
        match GetClobChars(s[n..], k - 1)
        case Fail => Fail
        case Got(us, m) => Got([u] + us, n + m)
  }

  lemma GetClobCharPut(u: Unit, t: Bytes)
    ensures GetClobChar(ClobChar(u) + t) == Got(u, |ClobChar(u)|)
  {
    var e := ClobChar(u);
    var s := e + t;
    assert forall i | 0 <= i < |e| :: s[i] == e[i];
    if u < 0x80 {
    } else if u < 0x800 {
      assert u == u / 64 * 64 + u % 64;
      assert (0xc0 + u / 64) % 32 == u / 64 && (0x80 + u % 64) % 64 == u % 64;
    } else {
      Split3(u);
      assert (0xe0 + u / 4096) % 16 == u / 4096;
      assert (0x80 + u / 64 % 64) % 64 == u / 64 % 64 && (0x80 + u % 64) % 64 == u % 64;
    }
  }

  lemma {:induction false} GetClobCharsPut(u: seq<Unit>, t: Bytes)
    ensures GetClobChars(ClobChars(u) + t, |u|) == Got(u, |ClobChars(u)|)
  {
    if u != [] {
      var rest := ClobChars(u[1..]) + t;
      assert ClobChars(u) + t == ClobChar(u[0]) + rest;
      GetClobCharPut(u[0], rest);
      GetClobCharsPut(u[1..], t);
      assert u == [u[0]] + u[1..];
    }
  }

  lemma GetClobCharLocal(s: Bytes, s': Bytes)
    requires GetClobChar(s).Got? && Agree(s, s', GetClobChar(s).n)
    ensures GetClobChar(s') == GetClobChar(s)
  {
    var n := GetClobChar(s).n;
    assert forall i | 0 <= i < n :: s[i] == s[..n][i] && s'[i] == s'[..n][i];
  }

  lemma {:induction false} GetClobCharsLocal(s: Bytes, s': Bytes, k: nat)
    requires GetClobChars(s, k).Got? && Agree(s, s', GetClobChars(s, k).n)
    ensures GetClobChars(s', k) == GetClobChars(s, k)
  {
    if k > 0 {
      var n, m := GetClobChar(s).n, GetClobChars(s, k).n;
      AgreeLess(s, s', m, n);
      GetClobCharLocal(s, s');
      AgreeDrop(s, s', m, n);
      hide GetClobChar, Agree;
      GetClobCharsLocal(s[n..], s'[n..], k - 1);
    }
  }

  /** Per-unit decoding: a rune builder writes U+FFFD for a surrogate. */
  function ClobText(u: seq<Unit>): Text {
    if u == [] then [] else [if Surrogate(u[0]) then REPLACEMENT else u[0]] + ClobText(u[1..])
  }

  predicate HasPair(u: seq<Unit>) {
    exists i | 0 <= i < |u| - 1 :: High(u[i]) && Low(u[i + 1])
  }

  lemma {:induction false} ClobTextAppend(a: seq<Unit>, b: seq<Unit>)
    ensures ClobText(a + b) == ClobText(a) + ClobText(b)
  {
    if a == [] {
      assert a + b == b;
    } else {
      assert (a + b)[1..] == a[1..] + b;
      ClobTextAppend(a[1..], b);
    }
  }

  lemma {:induction false} ClobLength(u: seq<Unit>)
    ensures |ClobText(u)| == |u| && |Decode16(u)| <= |u|
  {
    if u != [] {
      ClobLength(u[1..]);
      if |u| >= 2 { ClobLength(u[2..]); }
    }
  }

  lemma HasPairTail(u: seq<Unit>)
    requires u != [] && !(High(u[0]) && |u| >= 2 && Low(u[1]))
    ensures HasPair(u) <==> HasPair(u[1..])
  {
    var v := u[1..];
    forall i | 0 <= i < |v|
      ensures v[i] == u[i + 1]
    {
    }
    if HasPair(u) {
      var i :| 0 <= i < |u| - 1 && High(u[i]) && Low(u[i + 1]);
      assert High(v[i - 1]) && Low(v[i - 1 + 1]);
    }
  }

  /**
    * Per-unit decoding agrees with the string decoder exactly when no high surrogate is directly followed by a low one.
    */
  lemma {:induction false} ClobAgainstString(u: seq<Unit>)
    ensures ClobText(u) == Decode16(u) <==> !HasPair(u)
  {
    if u == [] {
    } else if High(u[0]) && |u| >= 2 && Low(u[1]) {
      assert HasPair(u);
      ClobLength(u);
      ClobLength(u[2..]);
    } else {
      ClobAgainstString(u[1..]);
      assert Decode16(u)[1..] == Decode16(u[1..]);
      assert ClobText(u)[1..] == ClobText(u[1..]);
      HasPairTail(u);
    }
  }
}
