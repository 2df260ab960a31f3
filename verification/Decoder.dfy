/** Decoding values from the stream: the loops and recursion of the reader, proved against the decoding functions. */
module Decoder {
  import opened Wire
  import opened Unicode
  import opened Values
  import opened Network
  import opened RowStream
  import opened Transfer
  import opened Strings
  import DecFloat
  import Interval

  /** Collects fetch-on-demand LOBs while a batch is parsed. Inside ARRAY and ROW values they are rejected. */
  class LobCollector {
    var pending: seq<PendingLob>
    const reject: bool
    var curRow: nat
    var curCol: nat

    constructor (reject: bool)
      ensures pending == [] && this.reject == reject
    {
      pending, this.reject, curRow, curCol := [], reject, 0, 0;
    }

    function At(): Place
      reads this
    {
      if reject then Nested else Cell(curRow, curCol)
    }
  }

  // ---- Composing reads ----

  lemma UnreadTake(net: Net, k: nat)
    requires k <= |Unread(net)|
    ensures Unread(Take(net, k)) == Unread(net)[k..]
  {
  }

  /** A read after `k` bytes were taken is a read of the shifted outcome. */
  lemma ReadsShift<T>(net: Net, k: nat, g: Got<T>, after: Net, r: Option<T>)
    requires k <= |Unread(net)| && Reads(Take(net, k), g, after, r)
    ensures Reads(net, Shift(g, k), after, r)
  {
    UnreadTake(net, k);
  }

  // ---- Payloads of one size ----

  method ReadSmall(tr: Tr, tc: int) returns (r: Option<Value>)
    requires tr.Valid() && (tc == NULL || tc == BOOLEAN || tc == TINYINT || tc == SMALLINT)
    modifies tr`pos
    ensures tr.Valid() && Reads(old(tr.State()), ParseFixed(tc, old(Unread(tr.State()))), tr.State(), r)
  {
    if tc == NULL {
      return Some(Null);
    } else if tc == SMALLINT {
      var x := tr.ReadInt16();
      return if x == None then None else Some(Int(x.value));
    } else {
      var b := tr.ReadByte();
      return if b == None then None else if tc == BOOLEAN then Some(Bool(b.value != 0)) else Some(Int(Int8(b.value)));
    }
  }

  method ReadWord(tr: Tr, tc: int) returns (r: Option<Value>)
    requires tr.Valid() && (tc == INTEGER || tc == ENUM || tc == REAL)
    modifies tr`pos
    ensures tr.Valid() && Reads(old(tr.State()), ParseFixed(tc, old(Unread(tr.State()))), tr.State(), r)
  {
    hide Int32;
    var x := tr.ReadInt32();
    return if x == None then None else if tc == REAL then Some(Float32(x.value)) else Some(Int(x.value));
  }

  method ReadLong(tr: Tr, tc: int) returns (r: Option<Value>)
    requires tr.Valid() && (tc == BIGINT || tc == DOUBLE || tc == DATE || tc == TIME)
    modifies tr`pos
    ensures tr.Valid() && Reads(old(tr.State()), ParseFixed(tc, old(Unread(tr.State()))), tr.State(), r)
  {
    hide Int64, UnpackDate, ClockOf;
    var x := tr.ReadInt64();
    if x == None { return None; }
    return Some(if tc == BIGINT then Int(x.value)
                else if tc == DOUBLE then Float64(x.value)
                else if tc == DATE then Time(UnpackDate(x.value), MIDNIGHT, 0)
                else Time(EPOCH, ClockOf(x.value), 0));
  }

  method ReadTwoLongs(tr: Tr, tc: int) returns (r: Option<Value>)
    requires tr.Valid() && (tc == TIMESTAMP || tc == UUID)
    modifies tr`pos
    ensures tr.Valid() && Reads(old(tr.State()), ParseFixed(tc, old(Unread(tr.State()))), tr.State(), r)
  {
    hide Int64, UnpackDate, ClockOf;
    ghost var s := Unread(tr.State());
    var a := tr.ReadInt64();
    if a == None { return None; }
    assert Unread(tr.State()) == s[8..];
    var b := tr.ReadInt64();
    if b == None { return None; }
    assert s[..16][..8] == s[..8] && s[..16][8..] == s[8..][..8];
    return Some(if tc == UUID then UuidText(a.value, b.value) else Time(UnpackDate(a.value), ClockOf(b.value), 0));
  }

  method ReadTimeTZ(tr: Tr) returns (r: Option<Value>)
    requires tr.Valid()
    modifies tr`pos
    ensures tr.Valid() && Reads(old(tr.State()), ParseFixed(TIME_TZ, old(Unread(tr.State()))), tr.State(), r)
  {
    hide Int64, Int32, ClockOf;
    ghost var s := Unread(tr.State());
    var a := tr.ReadInt64();
    if a == None { return None; }
    assert Unread(tr.State()) == s[8..];
    var b := tr.ReadInt32();
    if b == None { return None; }
    assert s[..12][..8] == s[..8] && s[..12][8..] == s[8..][..4];
    return Some(Time(EPOCH, ClockOf(a.value), b.value));
  }

  method ReadTimestampTZ(tr: Tr) returns (r: Option<Value>)
    requires tr.Valid()
    modifies tr`pos
    ensures tr.Valid() && Reads(old(tr.State()), ParseFixed(TIMESTAMP_TZ, old(Unread(tr.State()))), tr.State(), r)
  {
    hide Int64, Int32, ClockOf, UnpackDate;
    ghost var s := Unread(tr.State());
    var a := tr.ReadInt64();
    if a == None { return None; }
    assert Unread(tr.State()) == s[8..];
    var b := tr.ReadInt64();
    if b == None { return None; }
    assert Unread(tr.State()) == s[16..];
    var c := tr.ReadInt32();
    if c == None { return None; }
    assert s[..20][..8] == s[..8] && s[..20][8..16] == s[8..][..8] && s[..20][16..] == s[16..][..4];
    return Some(Time(UnpackDate(a.value), ClockOf(b.value), c.value));
  }

  method ReadFixed(tr: Tr, tc: int) returns (r: Option<Value>)
    requires tr.Valid() && FixedSize(tc) >= 0
    modifies tr`pos
    ensures tr.Valid() && Reads(old(tr.State()), ParseFixed(tc, old(Unread(tr.State()))), tr.State(), r)
  {
    hide ParseFixed;
    if tc == NULL || tc == BOOLEAN || tc == TINYINT || tc == SMALLINT {
      r := ReadSmall(tr, tc);
    } else if tc == INTEGER || tc == ENUM || tc == REAL {
      r := ReadWord(tr, tc);
    } else if tc == BIGINT || tc == DOUBLE || tc == DATE || tc == TIME {
      r := ReadLong(tr, tc);
    } else if tc == TIMESTAMP || tc == UUID {
      r := ReadTwoLongs(tr, tc);
    } else if tc == TIME_TZ {
      r := ReadTimeTZ(tr);
    } else {
      r := ReadTimestampTZ(tr);
    }
  }

  // ---- Text, binary, interval ----

  method ReadText(tr: Tr, tc: int) returns (r: Option<Value>)
    requires tr.Valid()
    modifies tr`pos
    ensures tr.Valid() && Reads(old(tr.State()), ParseText(tc, old(Unread(tr.State()))), tr.State(), r)
  {
    hide GetString, DecFloat.Parse, Chars;
    var s := ReadString(tr);
    if s == None { return None; }
    if s.value == None { return Some(Null); }
    if tc == DECFLOAT {
      var d := DecFloat.ParseDecFloat(Chars(s.value.value));
      if d.Err? { return None; }
    }
    return Some(Str(s.value.value));
  }

  method ReadBinary(tr: Tr) returns (r: Option<Value>)
    requires tr.Valid()
    modifies tr`pos
    ensures tr.Valid() && Reads(old(tr.State()), ParseBinary(old(Unread(tr.State()))), tr.State(), r)
  {
    hide GetBytes;
    var b := tr.ReadBytes();
    return if b == None then None else Some(Binary(b.value));
  }

  method ReadInterval(tr: Tr) returns (r: Option<Value>)
    requires tr.Valid()
    modifies tr`pos
    ensures tr.Valid() && Reads(old(tr.State()), ParseInterval(old(Unread(tr.State()))), tr.State(), r)
  {
    hide Int64, Interval.QualifierOf, Interval.HasRemaining, Interval.Ordinal;
    ghost var s := Unread(tr.State());
    var x := tr.ReadByte();
    if x == None { return None; }
    assert Unread(tr.State()) == s[1..];
    var leading := tr.ReadInt64();
    if leading == None { return None; }
    assert Unread(tr.State()) == s[9..] && s[1..][..8] == s[1..9];
    if Interval.HasRemaining(Interval.QualifierOf(Interval.Ordinal(x.value))) {
      var remaining := tr.ReadInt64();
      if remaining == None { return None; }
      assert s[9..][..8] == s[9..17];
      return Some(IntervalText(x.value, leading.value, remaining.value));
    }
    return Some(IntervalText(x.value, leading.value, 0));
  }

  // ---- LOBs ----

  method ReadClobChar(tr: Tr) returns (r: Option<Unit>)
    requires tr.Valid()
    modifies tr`pos
    ensures tr.Valid() && Reads(old(tr.State()), GetClobChar(old(Unread(tr.State()))), tr.State(), r)
  {
    var x := tr.ReadByte();
    if x == None { return None; }
    if x.value < 0x80 { return Some(x.value); }
    if x.value >= 0xe0 {
      var b1 := tr.ReadByte();
      if b1 == None { return None; }
      var b2 := tr.ReadByte();
      if b2 == None { return None; }
      return Some(Masked(x.value, 16) * 4096 + Masked(b1.value, 64) * 64 + Masked(b2.value, 64));
    }
    var b1 := tr.ReadByte();
    if b1 == None { return None; }
    return Some(Masked(x.value, 32) * 64 + Masked(b1.value, 64));
  }

  /** The rune written for one code unit: a surrogate has none of its own. */
  function RuneOf(u: Unit): Scalar { if Surrogate(u) then REPLACEMENT else u }

  /** What is left to read after `n` bytes gave the characters `us`. */
  predicate CharsSoFar(s: Bytes, k: nat, us: seq<Unit>, n: nat) {
    && |us| <= k && n <= |s|
    && GetClobChars(s, k) ==
       (match GetClobChars(s[n..], k - |us|) case Fail => Fail case Got(vs, m) => Got(us + vs, n + m))
  }

  lemma CharsStart(s: Bytes, k: nat)
    ensures CharsSoFar(s, k, [], 0)
  {
    assert s[0..] == s;
    hide GetClobChar;
    if GetClobChars(s, k).Got? { assert [] + GetClobChars(s, k).v == GetClobChars(s, k).v; }
  }

  lemma CharsStep(s: Bytes, k: nat, us: seq<Unit>, n: nat)
    requires CharsSoFar(s, k, us, n) && |us| < k
    ensures GetClobChar(s[n..]).Fail? ==> GetClobChars(s, k).Fail?
    ensures GetClobChar(s[n..]).Got? ==> CharsSoFar(s, k, us + [GetClobChar(s[n..]).v], n + GetClobChar(s[n..]).n)
  {
    hide GetClobChar;
    var g := GetClobChar(s[n..]);
    if g.Got? {
      assert s[n..][g.n..] == s[n + g.n..];
      var h := GetClobChars(s[n + g.n..], k - |us| - 1);
      if h.Got? { assert us + ([g.v] + h.v) == us + [g.v] + h.v; }
    }
  }

  lemma CharsDone(s: Bytes, k: nat, us: seq<Unit>, n: nat)
    requires CharsSoFar(s, k, us, n) && |us| == k
    ensures GetClobChars(s, k) == Got(us, n)
  {
    assert us + [] == us;
    hide GetClobChar;
  }

  lemma TextGrows(us: seq<Unit>, u: Unit)
    ensures Utf8(ClobText(us + [u])) == Utf8(ClobText(us)) + Utf8Rune(RuneOf(u))
  {
    ClobTextAppend(us, [u]);
    Utf8Append(ClobText(us), ClobText([u]));
    OneRune(u);
    hide ClobText, Utf8;
  }

  lemma OneRune(u: Unit)
    ensures Utf8(ClobText([u])) == Utf8Rune(RuneOf(u))
  {
    assert ClobText([u]) == [RuneOf(u)];
    assert Utf8Rune(RuneOf(u)) + [] == Utf8Rune(RuneOf(u));
    hide Utf8Rune;
  }

  /** Character by character, then the magic number. */
  method ReadInlineClob(tr: Tr, length: nat) returns (r: Option<Value>)
    requires tr.Valid()
    modifies tr`pos
    ensures tr.Valid() && Reads(old(tr.State()), ParseInlineClob(length, old(Unread(tr.State()))), tr.State(), r)
  {
    hide GetClobChars, GetClobChar, ClobText, Utf8, Int32, RuneOf, Utf8Rune, CharsSoFar;
    if length > MAX_WIRE_LENGTH { return None; }
    ghost var net := tr.State();
    ghost var s, us, n := Unread(net), [], 0;
    var text: Bytes := [];
    CharsStart(s, length);
    EmptyClob();
    for i := 0 to length
      invariant tr.Valid() && |us| == i && 0 <= n <= |s| && tr.State() == Take(net, n)
      invariant CharsSoFar(s, length, us, n) && text == Utf8(ClobText(us))
    {
      CharsStep(s, length, us, n);
      UnreadTake(net, n);
      var c := ReadClobChar(tr);
      if c == None { return None; }
      TextGrows(us, c.value);
      text := text + Utf8Rune(RuneOf(c.value));
      n := n + GetClobChar(s[n..]).n;
      us := us + [c.value];
    }
    CharsDone(s, length, us, n);
    UnreadTake(net, n);
    var magic := tr.ReadInt32();
    if magic == None || magic.value != LOB_MAGIC { assert |s| >= n + 4 ==> s[n..][..4] == s[n..n + 4]; return None; }
    assert s[n..][..4] == s[n..n + 4];
    return Some(Str(text));
  }

  lemma EmptyClob()
    ensures Utf8(ClobText([])) == []
  {
  }

  method ReadInlineBlob(tr: Tr, length: nat) returns (r: Option<Value>)
    requires tr.Valid()
    modifies tr`pos
    ensures tr.Valid() && Reads(old(tr.State()), ParseInlineBlob(length, old(Unread(tr.State()))), tr.State(), r)
  {
    hide Int32;
    if length > MAX_WIRE_LENGTH { return None; }
    ghost var s := Unread(tr.State());
    var data := new byte[length];
    var ok := tr.ReadFull(data);
    if !ok { return None; }
    assert Unread(tr.State()) == s[length..];
    var magic := tr.ReadInt32();
    if magic == None || magic.value != LOB_MAGIC {
      assert |s| >= length + 4 ==> s[length..][..4] == s[length..length + 4];
      return None;
    }
    assert s[length..][..4] == s[length..length + 4];
    return Some(Binary(Some(data[..])));
  }

  /** A fetch-on-demand reference is recorded, or rejected inside ARRAY and ROW values. */
  method ReadLobRef(tr: Tr, clob: bool, lc: LobCollector) returns (r: Option<Value>)
    requires tr.Valid()
    modifies tr`pos, lc`pending
    ensures tr.Valid() && Reads(old(tr.State()), ParseLobRef(clob, old(Unread(tr.State())), lc.At()), tr.State(), r)
    ensures lc.pending == old(lc.pending) + if r.Some? then CellPending(r.value) else []
  {
    hide Int64, Int32, GetBytes;
    ghost var s := Unread(tr.State());
    var table := tr.ReadInt32();
    if table == None { return None; }
    assert Unread(tr.State()) == s[4..];
    var lobID := tr.ReadInt64();
    if lobID == None { return None; }
    assert Unread(tr.State()) == s[12..] && s[4..][..8] == s[4..12];
    var hmac := tr.ReadBytes();
    if hmac == None { return None; }
    ghost var k := 12 + GetBytes(s[12..]).n;
    assert Unread(tr.State()) == s[k..];
    var octets: Option<int64> := Some(0);
    if clob {
      octets := tr.ReadInt64();
      if octets == None { return None; }
      assert Unread(tr.State()) == s[k + 8..] && s[k..][..8] == s[k..k + 8];
    }
    ghost var m := if clob then k + 8 else k;
    var precision := tr.ReadInt64();
    if precision == None { return None; }
    assert s[m..][..8] == s[m..m + 8];
    if lc.reject { return None; }
    var p := PendingLob(clob, lobID.value, hmac.value, octets.value, precision.value, lc.curRow, lc.curCol);
    lc.pending := lc.pending + [p];
    return Some(Pending(p));
  }

  method ReadLob(tr: Tr, clob: bool, lc: LobCollector) returns (r: Option<Value>)
    requires tr.Valid()
    modifies tr`pos, lc`pending
    ensures tr.Valid() && Reads(old(tr.State()), ParseLob(clob, old(Unread(tr.State())), lc.At()), tr.State(), r)
    ensures lc.pending == old(lc.pending) + if r.Some? then CellPending(r.value) else []
  {
    hide Int64, ParseLobRef, ParseInlineBlob, ParseInlineClob;
    ghost var net := tr.State();
    var length := tr.ReadInt64();
    if length == None { return None; }
    UnreadTake(net, 8);
    ghost var t := Unread(tr.State());
    if length.value == -1 {
      r := ReadLobRef(tr, clob, lc);
      ReadsShift(net, 8, ParseLobRef(clob, t, lc.At()), tr.State(), r);
    } else if length.value < 0 {
      return None;
    } else if clob {
      r := ReadInlineClob(tr, length.value);
      ReadsShift(net, 8, ParseInlineClob(length.value, t), tr.State(), r);
      InlineKinds(length.value, t);
    } else {
      r := ReadInlineBlob(tr, length.value);
      ReadsShift(net, 8, ParseInlineBlob(length.value, t), tr.State(), r);
      InlineKinds(length.value, t);
    }
  }

  lemma InlineKinds(length: nat, s: Bytes)
    ensures ParseInlineClob(length, s).Got? ==> CellPending(ParseInlineClob(length, s).v) == []
    ensures ParseInlineBlob(length, s).Got? ==> CellPending(ParseInlineBlob(length, s).v) == []
  {
    hide GetClobChars, ClobText, Utf8, Int32;
  }

  // ---- Elements ----

  /** The first `|vs|` of `k` elements took `n` bytes. */
  predicate ElemsSoFar(s: Bytes, k: nat, vs: seq<Value>, n: nat) {
    && |vs| <= k && n <= |s|
    && ParseElems(s, k) == (match ParseElems(s[n..], k - |vs|) case Fail => Fail case Got(ws, m) => Got(vs + ws, n + m))
  }

  lemma ElemsStart(s: Bytes, k: nat)
    ensures ElemsSoFar(s, k, [], 0)
  {
    assert s[0..] == s;
    hide ParseValue;
    if ParseElems(s, k).Got? { assert [] + ParseElems(s, k).v == ParseElems(s, k).v; }
  }

  lemma ElemsStep(s: Bytes, k: nat, vs: seq<Value>, n: nat)
    requires ElemsSoFar(s, k, vs, n) && |vs| < k
    ensures ParseValue(s[n..], Nested).Fail? ==> ParseElems(s, k).Fail?
    ensures ParseValue(s[n..], Nested).Got? ==>
              ElemsSoFar(s, k, vs + [ParseValue(s[n..], Nested).v], n + ParseValue(s[n..], Nested).n)
  {
    hide ParseValue;
    var g := ParseValue(s[n..], Nested);
    if g.Got? {
      assert s[n..][g.n..] == s[n + g.n..];
      var h := ParseElems(s[n + g.n..], k - |vs| - 1);
      if h.Got? { assert vs + ([g.v] + h.v) == vs + [g.v] + h.v; }
    }
  }

  lemma ElemsDone(s: Bytes, k: nat, vs: seq<Value>, n: nat)
    requires ElemsSoFar(s, k, vs, n) && |vs| == k
    ensures ParseElems(s, k) == Got(vs, n)
  {
    assert vs + [] == vs;
    hide ParseValue;
  }

  method ReadElems(tr: Tr, count: nat) returns (r: Option<seq<Value>>)
    requires tr.Valid()
    modifies tr`pos
    ensures tr.Valid() && Reads(old(tr.State()), ParseElems(old(Unread(tr.State())), count), tr.State(), r)
    decreases |tr.input| - tr.pos, 1
  {
    hide ParseElems, ParseValue, ElemsSoFar;
    ghost var net := tr.State();
    ghost var s, n := Unread(net), 0;
    var nested := new LobCollector(true);
    var vs: seq<Value> := [];
    ElemsStart(s, count);
    for i := 0 to count
      invariant tr.Valid() && |vs| == i && 0 <= n <= |s| && tr.State() == Take(net, n)
      invariant ElemsSoFar(s, count, vs, n)
    {
      ElemsStep(s, count, vs, n);
      UnreadTake(net, n);
      var v := ReadValue(tr, nested);
      if v == None { return None; }
      n := n + ParseValue(s[n..], Nested).n;
      vs := vs + [v.value];
    }
    ElemsDone(s, count, vs, n);
    return Some(vs);
  }

  method ReadArray(tr: Tr) returns (r: Option<Value>)
    requires tr.Valid()
    modifies tr`pos
    ensures tr.Valid() && Reads(old(tr.State()), ParseArray(old(Unread(tr.State()))), tr.State(), r)
    decreases |tr.input| - tr.pos, 2
  {
    hide ParseElems, Int32, GetString;
    ghost var net := tr.State();
    ghost var s, h := Unread(net), 4;
    var len := tr.ReadInt32();
    if len == None { return None; }
    UnreadTake(net, 4);
    var count: int := len.value;
    if count < 0 {
      count := -count - 1;
      if count > MAX_COLLECTION { return None; }
      var name := ReadString(tr);
      if name == None { return None; }
      h := 4 + GetString(s[4..]).n;
    } else if count > MAX_COLLECTION {
      return None;
    }
    UnreadTake(net, h);
    var vs := ReadElems(tr, count);
    return if vs == None then None else Some(Array(vs.value));
  }

  method ReadRowValue(tr: Tr) returns (r: Option<Value>)
    requires tr.Valid()
    modifies tr`pos
    ensures tr.Valid() && Reads(old(tr.State()), ParseRowValue(old(Unread(tr.State()))), tr.State(), r)
    decreases |tr.input| - tr.pos, 2
  {
    hide ParseElems, Int32;
    ghost var net := tr.State();
    var len := tr.ReadInt32();
    if len == None { return None; }
    UnreadTake(net, 4);
    if len.value < 0 || len.value > MAX_COLLECTION { return None; }
    var vs := ReadElems(tr, len.value);
    return if vs == None then None else Some(Row(vs.value));
  }

  /**
    * One value: its type code, then its payload. At most one LOB is recorded, only for a LOB that is not nested, and
    * then it is the value itself.
    */
  method ReadValue(tr: Tr, lc: LobCollector) returns (r: Option<Value>)
    requires tr.Valid()
    modifies tr`pos, lc`pending
    ensures tr.Valid() && Reads(old(tr.State()), ParseValue(old(Unread(tr.State())), lc.At()), tr.State(), r)
    ensures lc.pending == old(lc.pending) + if r.Some? then CellPending(r.value) else []
    ensures r.Some? && (lc.reject || !r.value.Pending?) ==> lc.pending == old(lc.pending)
    decreases |tr.input| - tr.pos, 0
  {
    hide ParseBody, Int32;
    ghost var net := tr.State();
    var code := tr.ReadInt32();
    if code == None { return None; }
    UnreadTake(net, 4);
    ghost var t := Unread(tr.State());
    r := ReadBody(tr, code.value, lc);
    ReadsShift(net, 4, ParseBody(code.value, t, lc.At()), tr.State(), r);
    if r.Some? { Placeholders(Unread(net), lc.At()); }
  }

  method ReadBody(tr: Tr, tc: int, lc: LobCollector) returns (r: Option<Value>)
    requires tr.Valid()
    modifies tr`pos, lc`pending
    ensures tr.Valid() && Reads(old(tr.State()), ParseBody(tc, old(Unread(tr.State())), lc.At()), tr.State(), r)
    ensures lc.pending == old(lc.pending) + if r.Some? then CellPending(r.value) else []
    decreases |tr.input| - tr.pos, 3
  {
    ghost var s := Unread(tr.State());
    Dispatch(tc, s, lc.At());
    if FixedSize(tc) >= 0 {
      r := ReadFixed(tr, tc);
    } else if IsText(tc) {
      r := ReadText(tr, tc);
    } else if IsBinary(tc) {
      r := ReadBinary(tr);
    } else if tc == BLOB || tc == CLOB {
      r := ReadLob(tr, tc == CLOB, lc);
    } else if tc == INTERVAL {
      r := ReadInterval(tr);
    } else if tc == ARRAY {
      r := ReadArray(tr);
    } else if tc == ROW {
      r := ReadRowValue(tr);
    } else {
      r := None;
    }
    NoPending(tc, s, lc.At());
    hide ParseBody, ParseFixed, ParseText, ParseBinary, ParseLob, ParseInterval, ParseArray, ParseRowValue;
  }

  lemma NoPending(tc: int, s: Bytes, at: Place)
    ensures tc != BLOB && tc != CLOB && ParseBody(tc, s, at).Got? ==> CellPending(ParseBody(tc, s, at).v) == []
  {
  }
}
