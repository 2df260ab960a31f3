/** The transfer codec: a buffered reader and writer over a connection, with the string codec's fast paths. */
module Transfer {
  import opened Wire
  import opened Unicode
  import opened Network

  /** A read that decodes `g` from what was unread: its value and exactly its bytes, or nothing but a moved position. */
  predicate Reads<T(==)>(before: Net, g: Got<T>, after: Net, r: Option<T>) {
    match g
    case Fail => r == None && after == before.(pos := after.pos)
    case Got(v, n) => r == Some(v) && n <= |Unread(before)| && after == Take(before, n)
  }

  class Tr {
    var input: Bytes
    var pos: nat
    var buffer: Bytes
    // the world behind the socket: what was sent, how long the connection lasts, who answers
    var log: seq<Sent>
    var life: nat
    var peer: Peer

    predicate Valid()
      reads this
    {
      pos <= |input|
    }

    function State(): Net
      requires Valid()
      reads this
    {
      Conn(input, pos, buffer, log, life, peer)
    }

    constructor (life: nat, peer: Peer)
      ensures Valid() && State() == Conn([], 0, [], [], life, peer)
    {
      this.input, this.pos, this.buffer, this.log, this.life, this.peer := [], 0, [], [], life, peer;
    }

    // ---- Writing ----

    method Write(b: Bytes)
      requires Valid()
      modifies this`buffer
      ensures Valid() && State() == Network.Write(old(State()), b)
    {
      buffer := buffer + b;
    }

    method WriteInt32(x: int32)
      requires Valid()
      modifies this`buffer
      ensures Valid() && State() == Network.Write(old(State()), Put32(x))
    {
      Write(Put32(x));
    }

    method WriteInt64(x: int64)
      requires Valid()
      modifies this`buffer
      ensures Valid() && State() == Network.Write(old(State()), Put64(x))
    {
      Write(Put64(x));
    }

    method WriteBytes(b: Option<Bytes>)
      requires Valid()
      modifies this`buffer
      ensures Valid() && State() == Network.Write(old(State()), PutBytes(b))
    {
      if b == None {
        WriteInt32(-1);
      } else {
        Write(EncBE(|b.value|, 4));
        Write(b.value);
      }
    }

    /** Sends what was written; the answer becomes readable. */
    method Flush() returns (ok: bool)
      requires Valid()
      modifies this
      ensures Valid()
      ensures match Network.Flush(old(State()))
              case None => !ok && State() == old(State())
              case Some(net) => ok && State() == net
    {
      if life == 0 { return false; }
      var unread := input[pos..];
      var answer := Answer(peer, buffer);
      log := log + [Sent(buffer, |unread|)];
      input, buffer, life, peer := input + answer.0, [], life - 1, answer.1;
      return true;
    }

    // ---- Reading ----

    method ReadByte() returns (r: Option<byte>)
      requires Valid()
      modifies this`pos
      ensures Valid() && Reads(old(State()), GetByte(old(Unread(State()))), State(), r)
    {
      if pos == |input| { return None; }
      r := Some(input[pos]);
      pos := pos + 1;
    }

    /** Fills the buffer, or fails at the end of the stream. */
    method ReadFull(buf: array<byte>) returns (ok: bool)
      requires Valid()
      modifies this`pos, buf
      ensures Valid() && ok == (buf.Length <= |old(Unread(State()))|)
      ensures ok ==> State() == Take(old(State()), buf.Length) && buf[..] == old(Unread(State()))[..buf.Length]
      ensures !ok ==> State() == old(State()).(pos := State().pos)
    {
      var n := 0;
      while n < buf.Length && pos < |input|
        invariant n <= buf.Length && pos == old(pos) + n <= |input|
        invariant buf[..n] == input[old(pos)..pos]
      {
        buf[n] := input[pos];
        n, pos := n + 1, pos + 1;
      }
      ok := n == buf.Length;
      assert ok ==> buf[..] == buf[..n];
    }

    method ReadInt16() returns (r: Option<int16>)
      requires Valid()
      modifies this`pos
      ensures Valid() && Reads(old(State()), Get16(old(Unread(State()))), State(), r)
    {
      var buf := new byte[2];
      var ok := ReadFull(buf);
      return if ok then Some(Int16(buf[..])) else None;
    }

    method ReadInt32() returns (r: Option<int32>)
      requires Valid()
      modifies this`pos
      ensures Valid() && Reads(old(State()), Get32(old(Unread(State()))), State(), r)
    {
      var buf := new byte[4];
      var ok := ReadFull(buf);
      return if ok then Some(Int32(buf[..])) else None;
    }

    method ReadInt64() returns (r: Option<int64>)
      requires Valid()
      modifies this`pos
      ensures Valid() && Reads(old(State()), Get64(old(Unread(State()))), State(), r)
    {
      var buf := new byte[8];
      var ok := ReadFull(buf);
      return if ok then Some(Int64(buf[..])) else None;
    }

    method ReadBytes() returns (r: Option<Option<Bytes>>)
      requires Valid()
      modifies this`pos
      ensures Valid() && Reads(old(State()), GetBytes(old(Unread(State()))), State(), r)
    {
      var length := ReadInt32();
      if length == None { return None; }
      if length.value == -1 { return Some(None); }
      if length.value == 0 { return Some(Some([])); }
      if length.value < 0 || length.value > MAX_WIRE_LENGTH { return None; }
      var buf := new byte[length.value];
      ghost var rest := Unread(State());
      assert rest == old(Unread(State()))[4..];
      var ok := ReadFull(buf);
      if !ok { return None; }
      assert rest[..length.value] == old(Unread(State()))[4..4 + length.value];
      return Some(Some(buf[..]));
    }
  }

  // ---- The UTF-16 codec ----

  method IsAscii(s: Bytes) returns (ascii: bool)
    ensures ascii == Ascii(s)
  {
    for i := 0 to |s|
      invariant Ascii(s[..i])
    {
      if s[i] >= 0x80 { return false; }
    }
    assert s[..|s|] == s;
    return true;
  }

  /** The code units of a string, rune by rune. */
  method Utf16Encode(s: Bytes) returns (units: seq<Unit>)
    ensures units == Utf16(Runes(s)) && |units| <= |s|
  {
    hide Utf16, Runes, DecodeRune, Units;
    units := [];
    var i := 0;
    Ends(s);
    while i < |s|
      invariant 0 <= i <= |s| && units + Utf16(Runes(s[i..])) == Utf16(Runes(s))
    {
      var (r, w) := DecodeRune(s[i..]);
      RunesStep(s, i);
      Cut(units, Units(r), Utf16(Runes(s[i + w..])));
      units := Push(units, r);
      i := i + w;
    }
    UnitsFitBytes(s);
  }

  /** One code unit, or a surrogate pair. */
  method Push(units: seq<Unit>, r: Scalar) returns (more: seq<Unit>)
    ensures more == units + Units(r)
  {
    if r < 0x1_0000 {
      more := units + [r];
    } else {
      var x := r - 0x1_0000;
      more := units + [0xd800 + x / 0x400];
      more := more + [0xdc00 + x % 0x400];
    }
  }

  lemma Ends(s: Bytes)
    ensures s[0..] == s && [] + Utf16(Runes(s)) == Utf16(Runes(s))
    ensures Utf16(Runes(s[|s|..])) == []
    ensures forall u: seq<Unit> :: u + [] == u
  {
    hide DecodeRune;
  }

  lemma RunesStep(s: Bytes, i: nat)
    requires i < |s|
    ensures var (r, w) := DecodeRune(s[i..]);
            i + w <= |s| && Utf16(Runes(s[i..])) == Units(r) + Utf16(Runes(s[i + w..]))
  {
    hide DecodeRune, Units;
    var (r, w) := DecodeRune(s[i..]);
    assert s[i..][w..] == s[i + w..];
    assert Runes(s[i..]) == [r] + Runes(s[i + w..]);
    hide Runes;
    Utf16Cons(r, Runes(s[i + w..]));
  }

  /** The text of a unit sequence, with a replacement for every unpaired surrogate. */
  method Utf16Decode(units: seq<Unit>) returns (text: Bytes)
    ensures text == Utf8(Decode16(units))
  {
    hide Utf8, Decode16, Utf8Rune;
    text := [];
    var i := 0;
    DecodeEnds(units);
    while i < |units|
      invariant 0 <= i <= |units| && text + Utf8(Decode16(units[i..])) == Utf8(Decode16(units))
    {
      var u := units[i];
      DecodeStep(units, i);
      if High(u) {
        if i + 1 >= |units| {
          text := Emit(text, REPLACEMENT, units, i + 1);
          i := i + 1;
          continue;
        }
        var lo := units[i + 1];
        if Low(lo) {
          text := Emit(text, Pair(u, lo), units, i + 2);
          i := i + 2;
          continue;
        }
        text := Emit(text, REPLACEMENT, units, i + 1);
        i := i + 1;
      } else if Low(u) {
        text := Emit(text, REPLACEMENT, units, i + 1);
        i := i + 1;
      } else {
        text := Emit(text, u, units, i + 1);
        i := i + 1;
      }
    }
  }

  /** Appends a rune to the text under construction. */
  method Emit(text: Bytes, r: Scalar, ghost units: seq<Unit>, ghost j: nat) returns (longer: Bytes)
    requires j <= |units|
    ensures longer == text + Utf8Rune(r)
    ensures longer + Utf8(Decode16(units[j..])) == text + (Utf8Rune(r) + Utf8(Decode16(units[j..])))
  {
    longer := text + Utf8Rune(r);
    hide *;
    Cut(text, Utf8Rune(r), Utf8(Decode16(units[j..])));
  }

  lemma DecodeEnds(u: seq<Unit>)
    ensures u[0..] == u && [] + Utf8(Decode16(u)) == Utf8(Decode16(u))
    ensures Utf8(Decode16(u[|u|..])) == [] && forall s: Bytes :: s + [] == s
  {
  }

  lemma DecodeStep(u: seq<Unit>, i: nat)
    requires i < |u|
    ensures if High(u[i]) && i + 1 < |u| && Low(u[i + 1]) then
              Utf8(Decode16(u[i..])) == Utf8Rune(Pair(u[i], u[i + 1])) + Utf8(Decode16(u[i + 2..]))
            else if Surrogate(u[i]) then Utf8(Decode16(u[i..])) == Utf8Rune(REPLACEMENT) + Utf8(Decode16(u[i + 1..]))
            else Utf8(Decode16(u[i..])) == Utf8Rune(u[i]) + Utf8(Decode16(u[i + 1..]))
  {
    var v := u[i..];
    assert v[1..] == u[i + 1..];
    if |v| >= 2 { assert v[2..] == u[i + 2..]; }
    hide Utf8Rune;
    assert Decode16(v) == [Decode16(v)[0]] + Decode16(v)[1..];
  }
}
