/** Reading and writing strings: the ASCII shortcuts and the general path, in place on byte buffers. */
module Strings {
  import opened Wire
  import opened Unicode
  import opened Network
  import opened Transfer

  // ---- Writing ----

  /** Big-endian 32-bit length in the first four bytes. */
  method PutLength(data: array<byte>, k: nat)
    requires data.Length >= 4
    modifies data
    ensures data[..4] == EncBE(k, 4) && data[4..] == old(data[4..])
  {
    var b := EncBE(k, 4);
    data[0], data[1], data[2], data[3] := b[0], b[1], b[2], b[3];
  }

  /** Code unit by code unit: a zero byte and the character. */
  method FillAscii(s: Bytes, data: array<byte>)
    requires data.Length == 4 + 2 * |s|
    modifies data
    ensures data[4..] == UnitBytes(s) && data[..4] == old(data[..4])
  {
    for i := 0 to |s|
      invariant data[4..4 + 2 * i] == UnitBytes(s[..i])
      invariant data[..4] == old(data[..4])
    {
      data[4 + 2 * i] := 0;
      data[5 + 2 * i] := s[i];
      assert s[..i + 1] == s[..i] + [s[i]];
      UnitBytesSnoc(s[..i], s[i]);
      hide UnitBytes;
      assert data[4..4 + 2 * (i + 1)] == data[4..4 + 2 * i] + [0, s[i]];
    }
    assert s[..|s|] == s && data[4..4 + 2 * |s|] == data[4..];
  }

  /** Rune by rune, one or two code units each. A rune never has more units than bytes, so the buffer is long enough. */
  method FillGeneral(s: Bytes, data: array<byte>) returns (n: nat)
    requires data.Length == 4 + 2 * |s|
    modifies data
    ensures 4 <= n <= data.Length && data[4..n] == UnitBytes(Utf16(Runes(s))) && n == 4 + 2 * |Utf16(Runes(s))|
  {
    hide Utf16, Runes, DecodeRune, UnitBytes;
    n := 4;
    var i := 0;
    ghost var units: seq<Unit> := [];
    Ends(s);
    NoUnits();
    while i < |s|
      invariant 0 <= i <= |s| && |units| <= i && n == 4 + 2 * |units|
      invariant units + Utf16(Runes(s[i..])) == Utf16(Runes(s))
      invariant data[4..n] == UnitBytes(units)
    {
      var (r, w) := DecodeRune(s[i..]);
      RunesStep(s, i);
      Cut(units, Units(r), Utf16(Runes(s[i + w..])));
      assert |Units(r)| <= w;
      if r < 0x1_0000 {
        PutUnit(data, n, r, units);
        n := n + 2;
      } else {
        var x := r - 0x1_0000;
        PutUnit(data, n, 0xd800 + x / 0x400, units);
        PutUnit(data, n + 2, 0xdc00 + x % 0x400, units + [0xd800 + x / 0x400]);
        n := n + 4;
        Pairwise(units, 0xd800 + x / 0x400, 0xdc00 + x % 0x400);
      }
      units := units + Units(r);
      i := i + w;
    }
  }

  lemma NoUnits()
    ensures UnitBytes([]) == []
  {
  }

  lemma Pairwise(u: seq<Unit>, hi: Unit, lo: Unit)
    ensures u + [hi] + [lo] == u + [hi, lo]
  {
  }

  /** Two big-endian bytes at `n`. */
  method PutUnit(data: array<byte>, n: nat, u: Unit, ghost units: seq<Unit>)
    requires 4 <= n && n + 2 <= data.Length && n == 4 + 2 * |units| && data[4..n] == UnitBytes(units)
    modifies data
    ensures data[4..n + 2] == UnitBytes(units + [u])
  {
    data[n] := u / 256;
    data[n + 1] := u % 256;
    UnitBytesSnoc(units, u);
    hide UnitBytes;
    assert data[4..n + 2] == data[4..n] + [u / 256, u % 256];
  }

  method AsciiFrame(s: Bytes) returns (frame: Bytes)
    requires Ascii(s)
    ensures frame == PutString(s)
  {
    var data := new byte[4 + 2 * |s|];
    FillAscii(s, data);
    PutLength(data, |s|);
    AsciiUnits(s);
    hide Utf16, Runes, UnitBytes, EncBE;
    frame := data[..];
    assert frame == data[..4] + data[4..];
  }

  method GeneralFrame(s: Bytes) returns (frame: Bytes)
    ensures frame == PutString(s)
  {
    var data := new byte[4 + 2 * |s|];
    var n := FillGeneral(s, data);
    hide Utf16, Runes, UnitBytes, EncBE;
    ghost var k, tail := |Utf16(Runes(s))|, data[4..];
    assert tail[..n - 4] == data[4..n];
    assert (n - 4) / 2 == k;
    PutLength(data, (n - 4) / 2);
    frame := data[..n];
    Assembled(data[..], n, EncBE(k, 4), tail);
  }

  lemma Assembled(data: Bytes, n: nat, head: Bytes, tail: Bytes)
    requires 4 <= n <= |data| && data[..4] == head && data[4..] == tail
    ensures data[..n] == head + tail[..n - 4]
  {
  }

  /** Writes the frame of a string; both paths produce the bytes of the plain encoder. */
  method WriteString(tr: Tr, s: Bytes)
    requires tr.Valid()
    modifies tr`buffer
    ensures tr.Valid() && tr.State() == Network.Write(old(tr.State()), PutString(s))
  {
    var ascii := IsAscii(s);
    var frame: Bytes;
    if ascii { frame := AsciiFrame(s); } else { frame := GeneralFrame(s); }
    tr.Write(frame);
  }

  // ---- Reading ----

  lemma {:induction false} UnitsOfAt(raw: Bytes, k: nat)
    requires |raw| % 2 == 0 && k < |raw| / 2
    ensures UnitsOf(raw)[k] == Join(raw[2 * k], raw[2 * k + 1])
  {
    if k < |raw| / 2 - 1 { UnitsOfAt(raw[..|raw| - 2], k); }
  }

  /** The code units of the received bytes, and whether all of them are ASCII. */
  method Assemble(raw: array<byte>) returns (units: array<Unit>, ascii: bool)
    requires raw.Length % 2 == 0
    ensures fresh(units) && units[..] == UnitsOf(raw[..]) && ascii == Ascii(UnitsOf(raw[..]))
  {
    var length := raw.Length / 2;
    units := new Unit[length];
    ascii := true;
    for i := 0 to length
      invariant units[..i] == UnitsOf(raw[..])[..i]
      invariant ascii == Ascii(units[..i])
    {
      var u := Join(raw[2 * i], raw[2 * i + 1]);
      units[i] := u;
      UnitsOfAt(raw[..], i);
      hide UnitsOf, Join;
      assert units[..i + 1] == units[..i] + [u];
      if u >= 0x80 { ascii := false; }
    }
    assert units[..length] == units[..] && UnitsOf(raw[..])[..length] == UnitsOf(raw[..]);
  }

  /** Every second byte. */
  function LowBytes(raw: Bytes): (s: Bytes)
    ensures |s| == |raw| / 2
  {
    seq(|raw| / 2, k requires 0 <= k < |raw| / 2 => raw[2 * k + 1])
  }

  /** Moves the low bytes to the front, in place: the write index never passes the read index. */
  method Compact(raw: array<byte>)
    requires raw.Length % 2 == 0
    modifies raw
    ensures raw[..raw.Length / 2] == LowBytes(old(raw[..]))
  {
    ghost var was := raw[..];
    var i := 1;
    ghost var n := 0;
    assert raw[..0] == LowBytes(was)[..0];
    while i < raw.Length
      invariant i == 2 * n + 1 <= raw.Length + 1
      invariant raw[..n] == LowBytes(was)[..n] && raw[n..] == was[n..]
    {
      assert raw[i] == raw[n..][i - n] == was[i];
      assert i / 2 == n;
      raw[i / 2] := raw[i];
      CompactStep(was, raw[..], n);
      n := n + 1;
      i := i + 2;
    }
    assert n == raw.Length / 2 && LowBytes(was)[..n] == LowBytes(was);
  }

  /** One more low byte in front leaves the bytes behind it alone. */
  lemma CompactStep(was: Bytes, now: Bytes, n: nat)
    requires |now| == |was| && 2 * n + 1 < |was| && now[..n] == LowBytes(was)[..n]
    requires now[n] == was[2 * n + 1] && now[n + 1..] == was[n + 1..]
    ensures now[..n + 1] == LowBytes(was)[..n + 1]
  {
  }

  lemma JoinSmall(hi: byte, lo: byte)
    requires Join(hi, lo) < 0x80
    ensures Join(hi, lo) == lo
  {
  }

  lemma LowByteAt(raw: Bytes, k: nat)
    requires |raw| % 2 == 0 && k < |raw| / 2 && UnitsOf(raw)[k] < 0x80
    ensures LowBytes(raw)[k] == UnitsOf(raw)[k]
  {
    UnitsOfAt(raw, k);
    JoinSmall(raw[2 * k], raw[2 * k + 1]);
    hide UnitsOf, Join;
  }

  /** On ASCII units the low bytes are the text. */
  lemma LowBytesAreText(raw: Bytes)
    requires |raw| % 2 == 0 && Ascii(UnitsOf(raw))
    ensures LowBytes(raw) == Utf8(Decode16(UnitsOf(raw)))
  {
    var u := UnitsOf(raw);
    AsciiText(u);
    hide UnitsOf, Utf8, Decode16, LowBytes;
    forall k | 0 <= k < |u|
      ensures LowBytes(raw)[k] == u[k]
    {
      LowByteAt(raw, k);
    }
    assert LowBytes(raw) == u;
  }

  /** Reads a nullable string; the in-place shortcut gives the text of the full decoder. */
  method ReadString(tr: Tr) returns (r: Option<Option<Bytes>>)
    requires tr.Valid()
    modifies tr`pos
    ensures tr.Valid() && Reads(old(tr.State()), GetString(old(Unread(tr.State()))), tr.State(), r)
  {
    hide UnitsOf, Utf8, Decode16, Int32;
    var length := tr.ReadInt32();
    if length == None { return None; }
    if length.value == -1 { return Some(None); }
    if length.value == 0 { return Some(Some([])); }
    if length.value < 0 || length.value > MAX_WIRE_LENGTH / 2 { return None; }
    var raw := new byte[length.value * 2];
    ghost var rest := Unread(tr.State());
    assert rest == old(Unread(tr.State()))[4..];
    var ok := tr.ReadFull(raw);
    if !ok { return None; }
    assert raw[..] == old(Unread(tr.State()))[4..4 + 2 * length.value];
    var text := TextFrom(raw);
    return Some(Some(text));
  }

  method TextFrom(raw: array<byte>) returns (text: Bytes)
    requires raw.Length % 2 == 0
    modifies raw
    ensures text == Utf8(Decode16(UnitsOf(old(raw[..]))))
  {
    ghost var was := raw[..];
    var units, ascii := Assemble(raw);
    if ascii {
      LowBytesAreText(was);
      hide UnitsOf, Utf8, Decode16, LowBytes;
      Compact(raw);
      text := raw[..raw.Length / 2];
    } else {
      text := Utf16Decode(units[..]);
    }
  }
}
