/** What a server may put into a value frame, its bytes, and the value the driver must decode from them. */
module Encoding {
  import opened Wire
  import opened Unicode
  import opened Values
  import DecFloat

  /** Values whose payload has one size per type. */
  datatype Fixed =
    | FNull
    | FBool(flag: byte)
    | FTiny(i8: int)
    | FSmall(i16: int16)
    | FInt(i32: int32)
    | FBig(i64: int64)
    | FEnum(ordinal: int32)
    | FReal(bits32: int32)
    | FDouble(bits64: int64)
    | FDate(date: Date)
    | FTime(clock: Clock)
    | FTimeTZ(clock: Clock, offset: int32)
    | FTimestamp(date: Date, clock: Clock)
    | FTimestampTZ(date: Date, clock: Clock, offset: int32)
    | FUuid(high: int64, low: int64)

  predicate FixedOk(f: Fixed) {
    && (f.FTiny? ==> -128 <= f.i8 < 128)
    && (f.FDate? || f.FTimestamp? || f.FTimestampTZ? ==> ValidDate(f.date))
    && (f.FTime? || f.FTimeTZ? || f.FTimestamp? || f.FTimestampTZ? ==> ValidClock(f.clock))
  }

  function FixedCode(f: Fixed): int32 {
    match f
    case FNull => 0 case FBool(_) => 1 case FTiny(_) => 2 case FSmall(_) => 3 case FInt(_) => 4 case FBig(_) => 5
    case FDouble(_) => 7 case FReal(_) => 8 case FTime(_) => 9 case FDate(_) => 10 case FTimestamp(_, _) => 11
    case FUuid(_, _) => 20 case FTimestampTZ(_, _, _) => 24 case FEnum(_) => 25 case FTimeTZ(_, _) => 29
  }

  function DateBytes(d: Date): (s: Bytes) ensures |s| == 8 { EncBE(PackDate(d), 8) }
  function ClockBytes(c: Clock): (s: Bytes) ensures |s| == 8 { EncBE(NanosOfDay(c), 8) }

  function FixedBytes(f: Fixed): Bytes {
    match f
    case FNull => []
    case FBool(b) => [b]
    case FTiny(i) => [i % 256]
    case FSmall(i) => Put16(i)
    case FInt(i) => Put32(i)
    case FBig(i) => Put64(i)
    case FEnum(i) => Put32(i)
    case FReal(x) => Put32(x)
    case FDouble(x) => Put64(x)
    case FDate(d) => DateBytes(d)
    case FTime(c) => ClockBytes(c)
    case FTimeTZ(c, o) => ClockBytes(c) + Put32(o)
    case FTimestamp(d, c) => DateBytes(d) + ClockBytes(c)
    case FTimestampTZ(d, c, o) => DateBytes(d) + (ClockBytes(c) + Put32(o))
    case FUuid(h, l) => Put64(h) + Put64(l)
  }

  function FixedMeaning(f: Fixed): Value
    requires FixedOk(f)
  {
    match f
    case FNull => Null
    case FBool(b) => Bool(b != 0)
    case FTiny(i) => Int(i)
    case FSmall(i) => Int(i)
    case FInt(i) => Int(i)
    case FBig(i) => Int(i)
    case FEnum(i) => Int(i)
    case FReal(x) => Float32(x)
    case FDouble(x) => Float64(x)
    case FDate(d) => Time(d, Clock(0, 0, 0, 0), 0)
    case FTime(c) => Time(Date(0, 1, 1), c, 0)
    case FTimeTZ(c, o) => Time(Date(0, 1, 1), c, o)
    case FTimestamp(d, c) => Time(d, c, 0)
    case FTimestampTZ(d, c, o) => Time(d, c, o)
    case FUuid(h, l) => UuidText(h, l)
  }

  lemma DateDecodes(d: Date)
    requires ValidDate(d)
    ensures UnpackDate(Int64(DateBytes(d))) == d
  {
    DateRoundTrip(d);
    Int64Put(PackDate(d));
  }

  lemma ClockDecodes(c: Clock)
    requires ValidClock(c)
    ensures ClockOf(Int64(ClockBytes(c))) == c
  {
    ClockRoundTrip(c);
    Int64Put(NanosOfDay(c));
  }

  predicate FixedRight(f: Fixed)
    requires FixedOk(f)
  {
    && FixedSize(FixedCode(f)) == |FixedBytes(f)|
    && DecodeFixed(FixedCode(f), FixedBytes(f)) == FixedMeaning(f)
  }

  /** Every fixed-size payload decodes to the value it was written for. */
  lemma FixedDecodes(f: Fixed)
    requires FixedOk(f)
    ensures FixedRight(f)
  {
    match f
    case FNull =>
    case FBool(_) =>
    case FTiny(_) =>
    case FUuid(h, l) => UuidDecodes(h, l);
    case FDate(d) => DateDecodes(d); DateRight(d);
    case FTime(c) => ClockDecodes(c); TimeRight(c);
    case FTimeTZ(c, o) => ClockDecodes(c); TimeTZRight(c, o);
    case FTimestamp(d, c) => DateDecodes(d); ClockDecodes(c); TimestampRight(d, c);
    case FTimestampTZ(d, c, o) => DateDecodes(d); ClockDecodes(c); TimestampTZRight(d, c, o);
    case _ => NumberDecodes(f);
  }

  lemma NumberDecodes(f: Fixed)
    requires f.FSmall? || f.FInt? || f.FEnum? || f.FReal? || f.FBig? || f.FDouble?
    ensures FixedRight(f)
  {
    if f.FBig? || f.FDouble? {
      LongDecodes(f);
    } else if f.FSmall? {
      Int16Put(f.i16);
      hide Put16, Int16;
    } else {
      WordDecodes(f);
    }
  }

  lemma LongDecodes(f: Fixed)
    requires f.FBig? || f.FDouble?
    ensures FixedRight(f)
  {
    Int64Put(if f.FBig? then f.i64 else f.bits64);
    hide Put64, Int64;
  }

  lemma WordDecodes(f: Fixed)
    requires f.FInt? || f.FEnum? || f.FReal?
    ensures FixedRight(f)
  {
    Int32Put(if f.FInt? then f.i32 else if f.FEnum? then f.ordinal else f.bits32);
    hide Put32, Int32;
  }

  lemma UuidDecodes(h: int64, l: int64)
    ensures FixedRight(FUuid(h, l))
  {
    Int64Put(h);
    Int64Put(l);
    hide Put64, Int64;
  }

  lemma DateRight(d: Date)
    requires ValidDate(d) && UnpackDate(Int64(DateBytes(d))) == d
    ensures FixedRight(FDate(d))
  {
    hide DateBytes, UnpackDate, Int64;
  }

  lemma TimeRight(c: Clock)
    requires ValidClock(c) && ClockOf(Int64(ClockBytes(c))) == c
    ensures FixedRight(FTime(c))
  {
    hide ClockBytes, ClockOf, Int64;
  }

  lemma TimeTZRight(c: Clock, o: int32)
    requires ValidClock(c) && ClockOf(Int64(ClockBytes(c))) == c
    ensures FixedRight(FTimeTZ(c, o))
  {
    Int32Put(o);
    hide ClockBytes, ClockOf, Int64, Put32, Int32;
  }

  lemma TimestampRight(d: Date, c: Clock)
    requires ValidDate(d) && ValidClock(c) && UnpackDate(Int64(DateBytes(d))) == d && ClockOf(Int64(ClockBytes(c))) == c
    ensures FixedRight(FTimestamp(d, c))
  {
    hide ClockBytes, ClockOf, Int64, DateBytes, UnpackDate;
  }

  lemma TimestampTZRight(d: Date, c: Clock, o: int32)
    requires ValidDate(d) && ValidClock(c) && UnpackDate(Int64(DateBytes(d))) == d && ClockOf(Int64(ClockBytes(c))) == c
    ensures FixedRight(FTimestampTZ(d, c, o))
  {
    Int32Put(o);
    Cut(DateBytes(d), ClockBytes(c), Put32(o));
    hide ClockBytes, ClockOf, Int64, DateBytes, UnpackDate, Put32, Int32;
  }

  /** A value as the server sends it. */
  datatype WireValue =
    | WFixed(f: Fixed)
    | WText(code: int32, units: Option<seq<Unit>>)
    | WBinary(code: int32, data: Option<Bytes>)
    | WInterval(ordinal: byte, leading: int64, remaining: Option<int64>)
    | WBlob(bytes: Bytes)
    | WClob(chars: seq<Unit>)
    | WLobRef(clob: bool, table: int32, lobID: int64, hmac: Option<Bytes>, octets: int64, precision: int64)
    | WArray(typeName: Option<Option<seq<Unit>>>, elems: seq<WireValue>)
    | WRow(fields: seq<WireValue>)

  predicate TextOk(u: Option<seq<Unit>>) {
    u.Some? ==> |u.value| <= MAX_WIRE_LENGTH / 2
  }

  /** NUMERIC, VARCHAR, VARCHAR_IGNORECASE, CHAR and DECFLOAT travel as text. */
  predicate TextKind(tc: int) { tc == 6 || tc == 13 || tc == 14 || tc == 21 || tc == 31 }

  /** VARBINARY, JAVA_OBJECT, GEOMETRY, JSON and BINARY travel as bytes. */
  predicate BinaryKind(tc: int) { tc == 12 || tc == 19 || tc == 22 || tc == 28 || tc == 30 }

  lemma Kinds(tc: int)
    ensures IsText(tc) <==> TextKind(tc)
    ensures IsBinary(tc) <==> BinaryKind(tc)
  {
  }

  /**
    * The qualifiers that have a remaining field: SECOND and the spans of two fields. A negative interval has the
    * complement of its qualifier's ordinal.
    */
  predicate TwoFields(x: byte) {
    var ordinal := if x < 128 then x else 255 - x;
    5 <= ordinal <= 12
  }

  /** The payload respects the wire caps, and nothing nested is fetched on demand. */
  predicate Sendable(w: WireValue, nested: bool) {
    match w
    case WFixed(f) => FixedOk(f)
    case WText(tc, u) =>
      TextKind(tc) && TextOk(u) && (tc == 31 && u.Some? ==> DecFloat.Parse(Chars(TextOf(u).value)).Ok?)
    case WBinary(tc, d) => BinaryKind(tc) && (d.Some? ==> |d.value| <= MAX_WIRE_LENGTH)
    case WInterval(x, _, r) => r.Some? <==> TwoFields(x)
    case WBlob(b) => |b| <= MAX_WIRE_LENGTH
    case WClob(u) => |u| <= MAX_WIRE_LENGTH
    case WLobRef(clob, _, _, mac, octets, _) =>
      !nested && (mac.Some? ==> |mac.value| <= MAX_WIRE_LENGTH) && (!clob ==> octets == 0)
    case WArray(name, es) =>
      |es| <= MAX_COLLECTION && (name.Some? ==> TextOk(name.value)) && forall i | 0 <= i < |es| :: Sendable(es[i], true)
    case WRow(fs) => |fs| <= MAX_COLLECTION && forall i | 0 <= i < |fs| :: Sendable(fs[i], true)
  }

  predicate AllSendable(ws: seq<WireValue>, nested: bool) {
    forall i | 0 <= i < |ws| :: Sendable(ws[i], nested)
  }

  function Code(w: WireValue): int32 {
    match w
    case WFixed(f) => FixedCode(f)
    case WText(tc, _) => tc
    case WBinary(tc, _) => tc
    case WInterval(_, _, _) => 26
    case WBlob(_) => 15
    case WClob(_) => 16
    case WLobRef(clob, _, _, _, _, _) => if clob then 16 else 15
    case WArray(_, _) => 17
    case WRow(_) => 27
  }

  function LobRefBytes(clob: bool, table: int32, id: int64, mac: Option<Bytes>, octets: int64, precision: int64): Bytes
    requires mac.Some? ==> |mac.value| <= MAX_WIRE_LENGTH
  {
    Put32(table) + (Put64(id) + (PutBytes(mac) + ((if clob then Put64(octets) else []) + Put64(precision))))
  }

  /** The element count, or its complement followed by a type name. */
  function ArrayHead(name: Option<Option<seq<Unit>>>, k: nat): Bytes
    requires k <= MAX_COLLECTION
  {
    if name.Some? then Put32(-1 - k) + PutText(name.value) else Put32(k)
  }

  /** The qualifier, the leading field, and the remaining field of those that have one. */
  function IntervalBytes(x: byte, leading: int64, remaining: Option<int64>): Bytes {
    [x] + (Put64(leading) + (match remaining case Some(r) => Put64(r) case None => []))
  }

  function Body(w: WireValue, nested: bool): Bytes
    requires Sendable(w, nested)
    decreases w, 0
  {
    match w
    case WFixed(f) => FixedBytes(f)
    case WText(_, u) => PutText(u)
    case WBinary(_, d) => PutBytes(d)
    case WInterval(x, l, r) => IntervalBytes(x, l, r)
    case WBlob(b) => Put64(|b|) + (b + Put32(0x1234))
    case WClob(u) => Put64(|u|) + (ClobChars(u) + Put32(0x1234))
    case WLobRef(clob, table, id, mac, octets, precision) =>
      Put64(-1) + LobRefBytes(clob, table, id, mac, octets, precision)
    case WArray(name, es) => ArrayHead(name, |es|) + Frames(es, true)
    case WRow(fs) => Put32(|fs|) + Frames(fs, true)
  }

  /** A value frame: type code, then payload. */
  function Frame(w: WireValue, nested: bool): (s: Bytes)
    requires Sendable(w, nested)
    decreases w, 1
  {
    Put32(Code(w)) + Body(w, nested)
  }

  function Frames(ws: seq<WireValue>, nested: bool): Bytes
    requires AllSendable(ws, nested)
    decreases ws, 0
  {
    if ws == [] then [] else Frame(ws[0], nested) + Frames(ws[1..], nested)
  }

  /** The value a frame stands for, at the place where it is decoded. */
  function Meaning(w: WireValue, at: Place): Value
    requires Sendable(w, at.Nested?)
    decreases w, 0
  {
    match w
    case WFixed(f) => FixedMeaning(f)
    case WText(_, u) => (match TextOf(u) case None => Null case Some(t) => Str(t))
    case WBinary(_, d) => Binary(d)
    case WInterval(x, l, r) => IntervalText(x, l, match r case Some(v) => v case None => 0)
    case WBlob(b) => Binary(Some(b))
    case WClob(u) => Str(Utf8(ClobText(u)))
    case WLobRef(clob, _, id, mac, octets, precision) =>
      Pending(PendingLob(clob, id, mac, octets, precision, at.row, at.col))
    case WArray(_, es) => Array(Meanings(es))
    case WRow(fs) => Row(Meanings(fs))
  }

  function Meanings(ws: seq<WireValue>): (vs: seq<Value>)
    requires AllSendable(ws, true)
    ensures |vs| == |ws|
    decreases ws, 0
  {
    if ws == [] then [] else [Meaning(ws[0], Nested)] + Meanings(ws[1..])
  }

  // ---- Decoding inverts encoding ----

  lemma FixedBody(f: Fixed, t: Bytes)
    requires FixedOk(f)
    ensures FixedSize(FixedCode(f)) >= 0
    ensures ParseFixed(FixedCode(f), FixedBytes(f) + t) == Got(FixedMeaning(f), |FixedBytes(f)|)
  {
    FixedDecodes(f);
    hide FixedSize, FixedBytes, FixedMeaning, DecodeFixed, FixedCode;
    assert (FixedBytes(f) + t)[..|FixedBytes(f)|] == FixedBytes(f);
  }

  lemma TextBody(tc: int32, u: Option<seq<Unit>>, t: Bytes)
    requires Sendable(WText(tc, u), false)
    ensures ParseText(tc, PutText(u) + t) == Got(Meaning(WText(tc, u), Nested), |PutText(u)|)
  {
    TextDecodes(u, t);
    hide GetString, PutText, TextOf;
  }

  lemma BinaryBody(d: Option<Bytes>, t: Bytes)
    requires d.Some? ==> |d.value| <= MAX_WIRE_LENGTH
    ensures ParseBinary(PutBytes(d) + t) == Got(Binary(d), |PutBytes(d)|)
  {
    GetBytesPut(d, t);
  }

  /** Seventeen bytes for two fields, nine for one, for every qualifier byte. */
  lemma IntervalSizes(x: byte)
    ensures IntervalSize(x) == if TwoFields(x) then 17 else 9
  {
  }

  lemma IntervalBody(x: byte, l: int64, r: Option<int64>, t: Bytes)
    requires r.Some? <==> TwoFields(x)
    ensures var b := IntervalBytes(x, l, r);
            |b| == (if TwoFields(x) then 17 else 9) &&
            ParseInterval(b + t) == Got(IntervalText(x, l, if r.Some? then r.value else 0), |b|)
  {
    IntervalSizes(x);
    hide IntervalSize, TwoFields;
    var tail := match r case Some(v) => Put64(v) case None => [];
    Int64Put(l);
    if r.Some? { Int64Put(r.value); }
    var s := ([x] + (Put64(l) + tail)) + t;
    Cut([x], Put64(l) + tail, t);
    Cut(Put64(l), tail, t);
    hide Put64, Int64;
    assert s[1..9] == (s[1..])[..8] == Put64(l);
    if r.Some? { assert s[9..17] == (s[1..])[8..16] == Put64(r.value); }
  }

  lemma BlobBody(b: Bytes, t: Bytes)
    requires |b| <= MAX_WIRE_LENGTH
    ensures ParseInlineBlob(|b|, (b + Put32(LOB_MAGIC)) + t) == Got(Binary(Some(b)), |b| + 4)
  {
    Int32Put(LOB_MAGIC);
    Cut(b, Put32(LOB_MAGIC), t);
    hide Put32, Int32;
  }

  lemma ClobBody(u: seq<Unit>, t: Bytes)
    requires |u| <= MAX_WIRE_LENGTH
    ensures ParseInlineClob(|u|, (ClobChars(u) + Put32(LOB_MAGIC)) + t) ==
            Got(Str(Utf8(ClobText(u))), |ClobChars(u)| + 4)
  {
    Int32Put(LOB_MAGIC);
    var b := ClobChars(u);
    Cut(b, Put32(LOB_MAGIC), t);
    GetClobCharsPut(u, Put32(LOB_MAGIC) + t);
    hide Put32, Int32, ClobChars, GetClobChars, ClobText, Utf8;
  }

  lemma LobRefBody(clob: bool, table: int32, id: int64, mac: Option<Bytes>, octets: int64, precision: int64, at: Place,
                   t: Bytes)
    requires (mac.Some? ==> |mac.value| <= MAX_WIRE_LENGTH) && at.Cell? && (!clob ==> octets == 0)
    ensures var b := LobRefBytes(clob, table, id, mac, octets, precision);
            ParseLobRef(clob, b + t, at) ==
              Got(Pending(PendingLob(clob, id, mac, octets, precision, at.row, at.col)), |b|)
  {
    var lens := (if clob then Put64(octets) else []) + Put64(precision);
    var tail := lens + t;
    Int64Put(id);
    GetBytesPut(mac, tail);
    LobLengths(clob, octets, precision, t);
    hide Put64, Put32, Int64, PutBytes, GetBytes, ParseLobRef;
    Cut(PutBytes(mac), lens, t);
    Cut(Put64(id), PutBytes(mac) + lens, t);
    Cut(Put32(table), Put64(id) + (PutBytes(mac) + lens), t);
    LobRefParts(clob, Put32(table), Put64(id), PutBytes(mac), lens, t, at);
  }

  /** Reading the parts of a reference one after another. */
  lemma LobRefParts(clob: bool, a: Bytes, b: Bytes, m: Bytes, lens: Bytes, t: Bytes, at: Place)
    requires |a| == 4 && |b| == 8 && |lens| == (if clob then 16 else 8) && at.Cell?
    requires GetBytes(m + (lens + t)).Got? && GetBytes(m + (lens + t)).n == |m|
    ensures ParseLobRef(clob, a + (b + (m + (lens + t))), at) ==
            Got(Pending(PendingLob(clob, Int64(b), GetBytes(m + (lens + t)).v,
                                   if clob then Int64((lens + t)[..8]) else 0,
                                   Int64((lens + t)[|lens| - 8..|lens|]), at.row, at.col)),
                12 + |m| + |lens|)
  {
    hide GetBytes, Int64;
    var tail := lens + t;
    var s := a + (b + (m + tail));
    var k := 12 + |m|;
    RefCuts(a, b, m, tail);
    Window(s, k, |lens| - 8, |lens|);
    Window(s, k, 0, 8);
  }

  lemma RefCuts(a: Bytes, b: Bytes, m: Bytes, tail: Bytes)
    requires |a| == 4 && |b| == 8
    ensures var s := a + (b + (m + tail));
            |s| == 12 + |m| + |tail| && s[4..12] == b && s[12..] == m + tail && s[12 + |m|..] == tail
  {
    Cut(a, b, m + tail);
    var s := a + (b + (m + tail));
    assert s[12 + |m|..] == s[12..][|m|..];
  }

  lemma Window(s: Bytes, k: nat, i: nat, j: nat)
    requires i <= j && k + j <= |s|
    ensures s[k + i..k + j] == s[k..][i..j]
  {
  }

  lemma LobLengths(clob: bool, octets: int64, precision: int64, t: Bytes)
    ensures var lens := (if clob then Put64(octets) else []) + Put64(precision);
            && |lens| == (if clob then 16 else 8)
            && Int64((lens + t)[|lens| - 8..|lens|]) == precision
            && (clob ==> Int64((lens + t)[..8]) == octets)
  {
    Int64Put(octets);
    Int64Put(precision);
    hide Put64, Int64;
    if clob {
      Cut(Put64(octets), Put64(precision), t);
    } else {
      assert [] + Put64(precision) == Put64(precision);
      assert (Put64(precision) + t)[..8] == Put64(precision);
    }
  }

  /** A length field, then the data it announces. */
  lemma LobBody(w: WireValue, at: Place, t: Bytes)
    requires (w.WBlob? || w.WClob? || w.WLobRef?) && Sendable(w, at.Nested?)
    ensures ParseLob(Code(w) == CLOB, Body(w, at.Nested?) + t, at) == Got(Meaning(w, at), |Body(w, at.Nested?)|)
  {
    hide ParseLob, ParseLobRef, ParseInlineBlob, ParseInlineClob, LobRefBytes, ClobChars, ClobText, Utf8, Put32;
    match w
    case WBlob(b) =>
      BlobBody(b, t);
      LobSplit(false, |b|, b + Put32(LOB_MAGIC), at, t);
    case WClob(u) =>
      ClobBody(u, t);
      LobSplit(true, |u|, ClobChars(u) + Put32(LOB_MAGIC), at, t);
    case WLobRef(clob, table, id, mac, octets, precision) =>
      LobRefBody(clob, table, id, mac, octets, precision, at, t);
      LobSplit(clob, -1, LobRefBytes(clob, table, id, mac, octets, precision), at, t);
  }

  lemma LobSplit(clob: bool, len: int64, rest: Bytes, at: Place, t: Bytes)
    requires len >= -1
    ensures ParseLob(clob, (Put64(len) + rest) + t, at) ==
            Shift(if len == -1 then ParseLobRef(clob, rest + t, at)
                  else if clob then ParseInlineClob(len, rest + t) else ParseInlineBlob(len, rest + t), 8)
  {
    Cut(Put64(len), rest, t);
    Get64Put(len, rest + t);
    hide Put64, Get64, ParseLobRef, ParseInlineBlob, ParseInlineClob;
  }

  lemma HeaderDecodes(name: Option<Option<seq<Unit>>>, k: nat, t: Bytes)
    requires k <= MAX_COLLECTION && (name.Some? ==> TextOk(name.value))
    ensures var h := ArrayHead(name, k);
            ArrayHeader(h + t) == Got(k, |h|) && (h + t)[|h|..] == t
  {
    if name.Some? {
      TextDecodes(name.value, t);
      hide PutText, GetString;
      NamedHeader(PutText(name.value), k, t);
    } else {
      Get32Put(k, t);
      hide Put32, Get32;
    }
  }

  lemma NamedHeader(n: Bytes, k: nat, t: Bytes)
    requires k <= MAX_COLLECTION && GetString(n + t).Got? && GetString(n + t).n == |n|
    ensures ArrayHeader((Put32(-1 - k) + n) + t) == Got(k, 4 + |n|)
    ensures ((Put32(-1 - k) + n) + t)[4 + |n|..] == t
  {
    Get32Put(-1 - k, n + t);
    hide Put32, Get32, GetString;
    Cut(Put32(-1 - k), n, t);
  }

  /** Value round trip: every sendable value, followed by anything, decodes to its meaning and leaves what follows. */
  lemma {:induction false} ValueRoundTrip(w: WireValue, at: Place, t: Bytes)
    requires Sendable(w, at.Nested?)
    ensures ParseValue(Frame(w, at.Nested?) + t, at) == Got(Meaning(w, at), |Frame(w, at.Nested?)|)
    decreases w, 1
  {
    var b := Body(w, at.Nested?);
    BodyRoundTrip(w, at, t);
    Cut(Put32(Code(w)), b, t);
    Get32Put(Code(w), b + t);
    hide Put32, Get32, Body, ParseBody, Meaning, Sendable;
  }

  lemma {:induction false} BodyRoundTrip(w: WireValue, at: Place, t: Bytes)
    requires Sendable(w, at.Nested?)
    ensures BodyRight(w, at, t)
    decreases w, 0
  {
    match w
    case WArray(name, es) =>
      FramesRoundTrip(es, t);
      ArrayBody(name, es, at, t);
    case WRow(fs) =>
      FramesRoundTrip(fs, t);
      RowBody(fs, at, t);
    case WFixed(f) => FixedFlat(f, at, t);
    case WText(tc, u) => TextFlat(tc, u, at, t);
    case WBinary(tc, d) => BinaryFlat(tc, d, at, t);
    case WInterval(x, l, r) => IntervalFlat(x, l, r, at, t);
    case _ => LobFlat(w, at, t);
  }

  /** The payload of `w` decodes to what `w` means. */
  predicate BodyRight(w: WireValue, at: Place, t: Bytes)
    requires Sendable(w, at.Nested?)
  {
    ParseBody(Code(w), Body(w, at.Nested?) + t, at) == Got(Meaning(w, at), |Body(w, at.Nested?)|)
  }

  lemma FixedFlat(f: Fixed, at: Place, t: Bytes)
    requires FixedOk(f)
    ensures BodyRight(WFixed(f), at, t)
  {
    FixedBody(f, t);
    Dispatch(FixedCode(f), FixedBytes(f) + t, at);
    hide ParseBody, ParseFixed, FixedBytes, FixedMeaning, FixedCode, FixedSize, FixedOk, IsText, IsBinary;
  }

  lemma TextFlat(tc: int32, u: Option<seq<Unit>>, at: Place, t: Bytes)
    requires Sendable(WText(tc, u), at.Nested?)
    ensures BodyRight(WText(tc, u), at, t)
  {
    TextBody(tc, u, t);
    Kinds(tc);
    Dispatch(tc, PutText(u) + t, at);
    hide ParseBody, ParseText, PutText, FixedSize, IsText, IsBinary;
  }

  lemma BinaryFlat(tc: int32, d: Option<Bytes>, at: Place, t: Bytes)
    requires Sendable(WBinary(tc, d), at.Nested?)
    ensures BodyRight(WBinary(tc, d), at, t)
  {
    BinaryBody(d, t);
    Kinds(tc);
    Dispatch(tc, PutBytes(d) + t, at);
    hide ParseBody, ParseBinary, PutBytes, FixedSize, IsText, IsBinary;
  }

  lemma IntervalFlat(x: byte, l: int64, r: Option<int64>, at: Place, t: Bytes)
    requires Sendable(WInterval(x, l, r), at.Nested?)
    ensures BodyRight(WInterval(x, l, r), at, t)
  {
    IntervalBody(x, l, r, t);
    Dispatch(INTERVAL, Body(WInterval(x, l, r), at.Nested?) + t, at);
    hide ParseBody, ParseInterval, IntervalBytes, TwoFields, FixedSize, IsText, IsBinary;
  }

  lemma LobFlat(w: WireValue, at: Place, t: Bytes)
    requires (w.WBlob? || w.WClob? || w.WLobRef?) && Sendable(w, at.Nested?)
    ensures BodyRight(w, at, t)
  {
    LobBody(w, at, t);
    Dispatch(Code(w), Body(w, at.Nested?) + t, at);
    assert Code(w) == BLOB || Code(w) == CLOB;
    hide ParseBody, ParseLob, Body, Meaning, FixedSize, IsText, IsBinary;
  }

  lemma ArrayBody(name: Option<Option<seq<Unit>>>, es: seq<WireValue>, at: Place, t: Bytes)
    requires Sendable(WArray(name, es), at.Nested?) && AllSendable(es, true)
    requires ParseElems(Frames(es, true) + t, |es|) == Got(Meanings(es), |Frames(es, true)|)
    ensures BodyRight(WArray(name, es), at, t)
  {
    hide *;
    ArrayIs(name, es, at);
    var h := ArrayHead(name, |es|);
    HeaderDecodes(name, |es|, Frames(es, true) + t);
    DispatchArray((h + Frames(es, true)) + t, at);
    ParseArrayParts(h, Frames(es, true), t, Meanings(es));
    BodyRightFrom(WArray(name, es), at, t);
  }

  lemma DispatchArray(s: Bytes, at: Place)
    ensures ParseBody(ARRAY, s, at) == ParseArray(s) && ParseBody(ROW, s, at) == ParseRowValue(s)
  {
    Dispatch(ARRAY, s, at);
    Dispatch(ROW, s, at);
  }

  lemma ArrayIs(name: Option<Option<seq<Unit>>>, es: seq<WireValue>, at: Place)
    requires Sendable(WArray(name, es), at.Nested?)
    ensures |es| <= MAX_COLLECTION && (name.Some? ==> TextOk(name.value)) && AllSendable(es, true)
    ensures Code(WArray(name, es)) == ARRAY
    ensures Body(WArray(name, es), at.Nested?) == ArrayHead(name, |es|) + Frames(es, true)
    ensures Meaning(WArray(name, es), at) == Array(Meanings(es))
  {
  }

  lemma RowIs(fs: seq<WireValue>, at: Place)
    requires Sendable(WRow(fs), at.Nested?)
    ensures |fs| <= MAX_COLLECTION < MAX_INT32 && MAX_INT32 == 0x7fff_ffff
    ensures AllSendable(fs, true) && Code(WRow(fs)) == ROW
    ensures Body(WRow(fs), at.Nested?) == Put32(|fs|) + Frames(fs, true)
    ensures Meaning(WRow(fs), at) == Row(Meanings(fs))
  {
  }

  lemma BodyRightFrom(w: WireValue, at: Place, t: Bytes)
    requires Sendable(w, at.Nested?)
    requires ParseBody(Code(w), Body(w, at.Nested?) + t, at) == Got(Meaning(w, at), |Body(w, at.Nested?)|)
    ensures BodyRight(w, at, t)
  {
  }

  lemma RowBody(fs: seq<WireValue>, at: Place, t: Bytes)
    requires Sendable(WRow(fs), at.Nested?) && AllSendable(fs, true)
    requires ParseElems(Frames(fs, true) + t, |fs|) == Got(Meanings(fs), |Frames(fs, true)|)
    ensures BodyRight(WRow(fs), at, t)
  {
    hide *;
    RowIs(fs, at);
    RowHeaderDecodes(|fs|, Frames(fs, true) + t);
    DispatchArray((Put32(|fs|) + Frames(fs, true)) + t, at);
    ParseRowParts(Put32(|fs|), Frames(fs, true), t, Meanings(fs));
    BodyRightFrom(WRow(fs), at, t);
  }

  lemma RowHeaderDecodes(k: nat, t: Bytes)
    requires k <= MAX_COLLECTION
    ensures RowHeader(Put32(k) + t) == Got(k, 4)
  {
    Get32Put(k, t);
    hide Get32, Put32;
  }

  lemma {:induction false} FramesRoundTrip(ws: seq<WireValue>, t: Bytes)
    requires AllSendable(ws, true)
    ensures ParseElems(Frames(ws, true) + t, |ws|) == Got(Meanings(ws), |Frames(ws, true)|)
    decreases ws, 0
  {
    if ws != [] {
      var rest := Frames(ws[1..], true);
      ValueRoundTrip(ws[0], Nested, rest + t);
      FramesRoundTrip(ws[1..], t);
      Cut(Frame(ws[0], true), rest, t);
      hide Frame, ParseValue, Meaning, Sendable;
    }
  }

  // ---- What is refused ----

  /** Only the thirty types of the protocol are decoded. */
  lemma KnownTypes(s: Bytes, at: Place)
    requires ParseValue(s, at).Got?
    ensures var tc := Int32(s[..4]); 0 <= tc <= 31 && tc != 18 && tc != 23
  {
    hide ParseFixed, ParseText, ParseBinary, ParseLob, ParseInterval, ParseArray, ParseRowValue, Int32;
  }

  /** A DECFLOAT is null or a text that is a decimal. */
  lemma DecfloatParses(s: Bytes, at: Place)
    requires ParseBody(31, s, at).Got?
    ensures var v := ParseBody(31, s, at).v; v == Null || (v.Str? && DecFloat.Parse(Chars(v.s)).Ok?)
  {
    Dispatch(31, s, at);
    hide ParseBody, GetString, DecFloat.Parse, Chars;
  }

  /** The limits on the lengths and counts a payload declares, and the marks an accepted one must carry. */
  predicate WithinLimits(tc: int, s: Bytes, n: nat, at: Place)
    requires n <= |s|
  {
    && (TextKind(tc) ==> 4 <= n && -1 <= Int32(s[..4]) <= 0x1000_0000)
    && (BinaryKind(tc) ==> 4 <= n && -1 <= Int32(s[..4]) <= 0x2000_0000)
    && (tc == 15 || tc == 16 ==>
          && 8 <= n && -1 <= Int64(s[..8]) <= 0x2000_0000
          && (if Int64(s[..8]) == -1 then !at.Nested? else 12 <= n && s[n - 4..n] == Put32(0x1234)))
    && (tc == 17 ==> 4 <= n && -0x10_0001 <= Int32(s[..4]) <= 0x10_0000)
    && (tc == 27 ==> 4 <= n && 0 <= Int32(s[..4]) <= 0x10_0000)
  }

  /** Whatever is decoded stays within the limits. */
  lemma LimitsHold(tc: int, s: Bytes, at: Place)
    requires ParseBody(tc, s, at).Got?
    ensures WithinLimits(tc, s, ParseBody(tc, s, at).n, at)
  {
    hide ParseBody, ParseLob, ParseText, ParseBinary, ParseArray, ParseRowValue, Int32, Int64, Put32;
    Kinds(tc);
    Dispatch(tc, s, at);
    if IsText(tc) {
      TextLimits(tc, s);
    } else if IsBinary(tc) {
      BinaryLimits(s);
    } else if tc == 15 || tc == 16 {
      LobLimits(tc == 16, s, at);
    } else if tc == 17 || tc == 27 {
      CountLimits(s);
    }
  }

  lemma TextLimits(tc: int, s: Bytes)
    requires ParseText(tc, s).Got?
    ensures |s| >= 4 && -1 <= Int32(s[..4]) <= 0x1000_0000
  {
    hide Int32, Utf8, Decode16, DecFloat.Parse;
  }

  lemma BinaryLimits(s: Bytes)
    requires ParseBinary(s).Got?
    ensures |s| >= 4 && -1 <= Int32(s[..4]) <= 0x2000_0000
  {
    hide Int32;
  }

  lemma CountLimits(s: Bytes)
    ensures ParseArray(s).Got? ==> |s| >= 4 && -0x10_0001 <= Int32(s[..4]) <= 0x10_0000
    ensures ParseRowValue(s).Got? ==> |s| >= 4 && 0 <= Int32(s[..4]) <= 0x10_0000
  {
    hide Int32, ParseElems;
  }

  lemma LobLimits(clob: bool, s: Bytes, at: Place)
    requires ParseLob(clob, s, at).Got?
    ensures var n := ParseLob(clob, s, at).n;
            && 8 <= n <= |s| && -1 <= Int64(s[..8]) <= 0x2000_0000
            && if Int64(s[..8]) == -1 then !at.Nested? else 12 <= n && s[n - 4..n] == Put32(0x1234)
  {
    hide Int32, Int64, Put32, GetClobChars, ParseLobRef, Utf8, ClobText;
    var len := Get64(s).v;
    if len >= 0 {
      var r := s[8..];
      var m := if clob then GetClobChars(r, len).n else len;
      Window(s, 8, m, m + 4);
      Put32Int(r[m..m + 4]);
    }
  }
}
