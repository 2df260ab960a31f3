/** Statement parameters on the wire: what the driver writes for each argument and what a value decoder reads back. */
module Params {
  import opened Wire
  import opened Unicode
  import opened Values
  import opened Encoding
  import opened RowStream
  import opened Batches
  import Decimal
  import DecFloat
  import Uuid

  /** An argument. A float carries its 64-bit pattern, its 32-bit narrowing and its shortest decimal text. */
  datatype Param =
    | PNull
    | PBool(b: bool)
    | PInt(i: int64)
    | PFloat(bits: int64, single: int32, text: Bytes)
    | PString(s: Bytes)
    | PBytes(data: Option<Bytes>)
    | PTime(date: Date, clock: Clock, offset: int32)
    | POther

  /** A rejected argument leaves no bytes behind. */
  datatype Written = Wrote(bytes: Bytes) | Rejected | Panicked

  /** The parameter's type code, when metadata is available. */
  type Hint = Option<int32>

  function AsciiBytes(s: string): (b: Bytes)
    ensures |b| == |s|
  {
    seq(|s|, i requires 0 <= i < |s| => if s[i] as int < 256 then s[i] as int else 0)
  }

  predicate Numeric(t: Hint) { t == Some(NUMERIC) || t == Some(DECFLOAT) }

  // ---- What the driver writes ----

  function TextCode(t: Hint): int32 {
    if t == Some(NUMERIC) then NUMERIC
    else if t == Some(DECFLOAT) then DECFLOAT
    else if t == Some(CHAR) then CHAR
    else if t == Some(VARCHAR_IGNORECASE) then VARCHAR_IGNORECASE
    else VARCHAR
  }

  function WriteString(s: Bytes, t: Hint): Written {
    if t == Some(UUID) then
      match Uuid.Parse(Chars(s))
      case Invalid => Rejected
      case Panic => Panicked
      case Ok(high, low) => Wrote(Put32(UUID) + (Put64(high) + Put64(low)))
    else Wrote(Put32(TextCode(t)) + PutString(s))
  }

  function TimeCode(t: Hint): int32 {
    if t == Some(DATE) || t == Some(TIME) || t == Some(TIME_TZ) || t == Some(TIMESTAMP_TZ) then t.value else TIMESTAMP
  }

  function WriteTime(d: Date, c: Clock, offset: int32, t: Hint): Bytes {
    var date, nanos := EncBE(PackDate(d), 8), EncBE(NanosOfDay(c), 8);
    var code := TimeCode(t);
    Put32(code) +
    if code == DATE then date
    else if code == TIME then nanos
    else if code == TIME_TZ then nanos + Put32(offset)
    else if code == TIMESTAMP_TZ then date + (nanos + Put32(offset))
    else date + nanos
  }

  function WriteParam(p: Param, t: Hint): Written {
    match p
    case PNull => Wrote(Put32(NULL))
    case PBool(b) => Wrote(Put32(BOOLEAN) + [if b then 1 else 0])
    case PInt(i) =>
      if Numeric(t) then WriteString(AsciiBytes(Decimal.IntText(i)), t) else Wrote(Put32(BIGINT) + Put64(i))
    case PFloat(bits, single, text) =>
      if Numeric(t) then WriteString(text, t)
      else if t == Some(REAL) then Wrote(Put32(REAL) + Put32(single))
      else Wrote(Put32(DOUBLE) + Put64(bits))
    case PString(s) => WriteString(s, t)
    case PBytes(None) => Wrote(Put32(NULL))
    case PBytes(Some(b)) => Wrote(Put32(if t == Some(BINARY) then BINARY else VARBINARY) + PutBytes(Some(b)))
    case PTime(d, c, offset) => Wrote(WriteTime(d, c, offset, t))
    case POther => Rejected
  }

  // ---- What comes back ----

  /** The text of a Go string with every invalid byte replaced. */
  function Clean(s: Bytes): Bytes { Utf8(Runes(s)) }

  /** Announced as NUMERIC or DECFLOAT. */
  predicate Decimals(t: Hint) { t == Some(6) || t == Some(31) }

  /** Within the wire caps, and in the shape the type demands. */
  predicate TextFits(s: Bytes, t: Hint) {
    |Utf16(Runes(s))| <= MAX_WIRE_LENGTH / 2 && (t == Some(31) ==> DecFloat.Parse(Chars(Clean(s))).Ok?)
  }

  predicate Encodable(p: Param, t: Hint) {
    match p
    case PFloat(_, _, text) => Decimals(t) ==> TextFits(text, t)
    case PString(s) => if t == Some(20) then Uuid.Parse(Chars(s)).Ok? else TextFits(s, t)
    case PBytes(Some(b)) => |b| <= MAX_WIRE_LENGTH
    case PTime(d, c, _) => ValidDate(d) && ValidClock(c)
    case POther => false
    case _ => true
  }

  /**
    * What comes back of a moment announced as DATE, TIME, TIME WITH TIME ZONE, TIMESTAMP WITH TIME ZONE or anything
    * else.
    */
  function TimeBack(d: Date, c: Clock, offset: int32, t: Hint): Value {
    if t == Some(10) then Time(d, Clock(0, 0, 0, 0), 0)
    else if t == Some(9) then Time(Date(0, 1, 1), c, 0)
    else if t == Some(29) then Time(Date(0, 1, 1), c, offset)
    else if t == Some(24) then Time(d, c, offset)
    else Time(d, c, 0)
  }

  /** The value an argument stands for. */
  function ValueOf(p: Param, t: Hint): Value
    requires Encodable(p, t)
  {
    match p
    case PNull => Null
    case PBool(b) => Bool(b)
    case PInt(i) => if Decimals(t) then Str(AsciiBytes(Decimal.IntText(i))) else Int(i)
    case PFloat(bits, single, text) =>
      if Decimals(t) then Str(Clean(text)) else if t == Some(8) then Float32(single) else Float64(bits)
    case PString(s) =>
      if t == Some(20) then UuidText(Uuid.Parse(Chars(s)).high, Uuid.Parse(Chars(s)).low) else Str(Clean(s))
    case PBytes(None) => Null
    case PBytes(Some(b)) => Binary(Some(b))
    case PTime(d, c, offset) => TimeBack(d, c, offset, t)
  }

  // ---- As frames ----

  /** NUMERIC, DECFLOAT, CHAR and VARCHAR_IGNORECASE text keeps its type, other text becomes VARCHAR. */
  function TextFrame(s: Bytes, t: Hint): WireValue {
    var code := if t == Some(6) || t == Some(31) || t == Some(21) || t == Some(14) then t.value else 13;
    WText(code, Some(Utf16(Runes(s))))
  }

  function TimeFrame(d: Date, c: Clock, offset: int32, t: Hint): Fixed {
    if t == Some(10) then FDate(d)
    else if t == Some(9) then FTime(c)
    else if t == Some(29) then FTimeTZ(c, offset)
    else if t == Some(24) then FTimestampTZ(d, c, offset)
    else FTimestamp(d, c)
  }

  function FrameOf(p: Param, t: Hint): WireValue
    requires Encodable(p, t)
  {
    match p
    case PNull => WFixed(FNull)
    case PBool(b) => WFixed(FBool(if b then 1 else 0))
    case PInt(i) => if Decimals(t) then TextFrame(AsciiBytes(Decimal.IntText(i)), t) else WFixed(FBig(i))
    case PFloat(bits, single, text) =>
      if Decimals(t) then TextFrame(text, t) else WFixed(if t == Some(8) then FReal(single) else FDouble(bits))
    case PString(s) =>
      if t == Some(20) then WFixed(FUuid(Uuid.Parse(Chars(s)).high, Uuid.Parse(Chars(s)).low)) else TextFrame(s, t)
    case PBytes(None) => WFixed(FNull)
    case PBytes(Some(b)) => WBinary(if t == Some(30) then 30 else 12, Some(b))
    case PTime(d, c, offset) => WFixed(TimeFrame(d, c, offset, t))
  }

  lemma TextFrameRight(s: Bytes, t: Hint)
    requires TextFits(s, t) && t != Some(20)
    ensures Sendable(TextFrame(s, t), false)
    ensures WriteString(s, t) == Wrote(Frame(TextFrame(s, t), false))
    ensures forall at: Place :: !at.Nested? ==> Meaning(TextFrame(s, t), at) == Str(Clean(s))
  {
    DecodeEncoded(Runes(s));
    hide Utf16, Runes, Utf8, Decode16, DecFloat.Parse, PutUnits, Put32;
  }

  // ---- Integers as decimal text ----

  lemma {:induction false} DigitsAscii(n: nat)
    ensures forall i | 0 <= i < |Decimal.Digits(n)| :: 0 < Decimal.Digits(n)[i] as int < 0x80
  {
    if n >= 10 { DigitsAscii(n / 10); }
  }

  lemma IntAscii(i: int64)
    ensures Ascii(AsciiBytes(Decimal.IntText(i))) && Chars(AsciiBytes(Decimal.IntText(i))) == Decimal.IntText(i)
  {
    DigitsAscii(DecFloat.Abs(i));
    hide Decimal.Digits;
  }

  lemma IntLength(i: int64)
    ensures |Decimal.IntText(i)| <= 20
  {
    var n := DecFloat.Abs(i);
    Decimal.DigitsLength(n, 19);
    assert Decimal.Pow10(10) == 10_000_000_000 by { DecFloat.TenDigits(); }
    assert Decimal.Pow10(19) == 10_000_000_000_000_000_000 by {
      assert Decimal.Pow10(9) == 1_000_000_000 by { assert Decimal.Pow10(10) == 10 * Decimal.Pow10(9); }
      Decimal.PowAdd(10, 9);
    }
    hide Decimal.Digits, Decimal.Pow10;
  }

  /** The text of an integer fits, and is itself a decimal number. */
  lemma IntFits(i: int64, t: Hint)
    ensures TextFits(AsciiBytes(Decimal.IntText(i)), t)
            && Clean(AsciiBytes(Decimal.IntText(i))) == AsciiBytes(Decimal.IntText(i))
  {
    var s := AsciiBytes(Decimal.IntText(i));
    IntAscii(i);
    IntLength(i);
    AsciiUnits(s);
    AsciiClean(s);
    DecFloat.RoundTrip(DecFloat.Finite(i, 0));
    IntPrints(i);
    hide Decimal.IntText, DecFloat.Parse, DecFloat.Print, Utf16, Runes, Utf8;
  }

  lemma IntPrints(i: int64)
    ensures DecFloat.Print(DecFloat.Finite(i, 0)) == Decimal.IntText(i)
    ensures DecFloat.Plain(DecFloat.Finite(i, 0))
  {
    hide Decimal.Digits;
    assert "" + Decimal.Digits(DecFloat.Abs(i)) == Decimal.Digits(DecFloat.Abs(i));
  }

  lemma AsciiClean(s: Bytes)
    requires Ascii(s)
    ensures Clean(s) == s
  {
    AsciiUnits(s);
    DecodeEncoded(Runes(s));
    AsciiText(s);
    hide Utf16, Runes, Utf8, Decode16;
  }

  // ---- One argument ----

  predicate Right(p: Param, t: Hint, at: Place)
    requires Encodable(p, t)
  {
    var w := FrameOf(p, t);
    Sendable(w, false) && !at.Nested? && WriteParam(p, t) == Wrote(Frame(w, false)) && Meaning(w, at) == ValueOf(p, t)
  }

  lemma FixedRightFrame(f: Fixed, at: Place)
    requires FixedOk(f) && !at.Nested?
    ensures Sendable(WFixed(f), false) && Frame(WFixed(f), false) == Put32(FixedCode(f)) + FixedBytes(f)
    ensures Meaning(WFixed(f), at) == FixedMeaning(f)
  {
  }

  lemma TimeRight(d: Date, c: Clock, offset: int32, t: Hint, at: Place)
    requires ValidDate(d) && ValidClock(c) && !at.Nested?
    ensures Right(PTime(d, c, offset), t, at)
  {
    var f := TimeFrame(d, c, offset, t);
    TimeIs(d, c, offset, t);
    FixedRightFrame(f, at);
    hide *;
    TimeParamIs(d, c, offset, t);
    MakeRight(PTime(d, c, offset), t, at);
  }

  lemma TimeIs(d: Date, c: Clock, offset: int32, t: Hint)
    requires ValidDate(d) && ValidClock(c)
    ensures var f := TimeFrame(d, c, offset, t);
            FixedOk(f) && WriteTime(d, c, offset, t) == Put32(FixedCode(f)) + FixedBytes(f)
              && FixedMeaning(f) == TimeBack(d, c, offset, t)
  {
    hide Put32, EncBE, PackDate, NanosOfDay, ValidDate, ValidClock;
  }

  lemma TimeParamIs(d: Date, c: Clock, offset: int32, t: Hint)
    requires ValidDate(d) && ValidClock(c)
    ensures var p := PTime(d, c, offset);
            && Encodable(p, t) && FrameOf(p, t) == WFixed(TimeFrame(d, c, offset, t))
            && ValueOf(p, t) == TimeBack(d, c, offset, t) && WriteParam(p, t) == Wrote(WriteTime(d, c, offset, t))
  {
    hide WriteTime, TimeBack, TimeFrame, ValidDate, ValidClock;
  }

  lemma TextRight(p: Param, t: Hint, at: Place)
    requires Encodable(p, t) && !at.Nested? && (p.PInt? || p.PFloat?) && Numeric(t)
    ensures Right(p, t, at)
  {
    match p
    case PInt(i) => IntFits(i, t); TextFrameRight(AsciiBytes(Decimal.IntText(i)), t);
    case PFloat(_, _, text) => TextFrameRight(text, t);
    hide Frame, WriteString, TextFrame, Sendable, Meaning, Clean, Decimal.IntText;
  }

  lemma StringRight(s: Bytes, t: Hint, at: Place)
    requires Encodable(PString(s), t) && !at.Nested?
    ensures Right(PString(s), t, at)
  {
    if t == Some(UUID) {
      var g := Uuid.Parse(Chars(s));
      FixedRightFrame(FUuid(g.high, g.low), at);
      hide *;
      UuidRight(s, at);
    } else {
      TextFrameRight(s, t);
      hide Frame, WriteString, TextFrame, Sendable, Meaning, Clean, Uuid.Parse;
    }
  }

  lemma UuidRight(s: Bytes, at: Place)
    requires Uuid.Parse(Chars(s)).Ok? && !at.Nested?
    ensures Encodable(PString(s), Some(UUID)) && Right(PString(s), Some(UUID), at)
  {
    UuidIs(s);
    UuidWritten(s);
    var f := FUuid(Uuid.Parse(Chars(s)).high, Uuid.Parse(Chars(s)).low);
    FixedRightFrame(f, at);
    hide *;
    MakeRight(PString(s), Some(UUID), at);
  }

  lemma MakeRight(p: Param, t: Hint, at: Place)
    requires Encodable(p, t) && Sendable(FrameOf(p, t), false) && !at.Nested?
    requires WriteParam(p, t) == Wrote(Frame(FrameOf(p, t), false)) && Meaning(FrameOf(p, t), at) == ValueOf(p, t)
    ensures Right(p, t, at)
  {
    hide Encodable, Sendable, WriteParam, Meaning, ValueOf, FrameOf, Frame;
  }

  lemma UuidIs(s: Bytes)
    requires Uuid.Parse(Chars(s)).Ok?
    ensures var f := FUuid(Uuid.Parse(Chars(s)).high, Uuid.Parse(Chars(s)).low);
            && Encodable(PString(s), Some(UUID)) && FrameOf(PString(s), Some(UUID)) == WFixed(f)
            && ValueOf(PString(s), Some(UUID)) == FixedMeaning(f)
            && WriteParam(PString(s), Some(UUID)) == WriteString(s, Some(UUID))
  {
    hide Uuid.Parse, Chars, WriteString;
  }

  lemma UuidWritten(s: Bytes)
    requires Uuid.Parse(Chars(s)).Ok?
    ensures var f := FUuid(Uuid.Parse(Chars(s)).high, Uuid.Parse(Chars(s)).low);
            WriteString(s, Some(UUID)) == Wrote(Put32(FixedCode(f)) + FixedBytes(f)) && FixedOk(f)
  {
    hide Uuid.Parse, Chars, Put32, Put64;
  }

  lemma BytesRight(b: Bytes, t: Hint, at: Place)
    requires |b| <= MAX_WIRE_LENGTH && !at.Nested?
    ensures Right(PBytes(Some(b)), t, at)
  {
    var code: int32 := if t == Some(BINARY) then BINARY else VARBINARY;
    assert Frame(WBinary(code, Some(b)), false) == Put32(code) + PutBytes(Some(b));
    hide Put32, PutBytes, Frame;
  }

  lemma PlainRight(p: Param, t: Hint, at: Place)
    requires Encodable(p, t) && !at.Nested?
             && (p.PNull? || p.PBool? || p.PBytes? || ((p.PInt? || p.PFloat?) && !Numeric(t)))
    ensures Right(p, t, at)
  {
    if p.PBytes? && p.data.Some? {
      BytesRight(p.data.value, t, at);
    } else {
      PlainIs(p, t);
      FixedRightFrame(FrameOf(p, t).f, at);
      hide *;
      MakeRight(p, t, at);
    }
  }

  lemma PlainIs(p: Param, t: Hint)
    requires Encodable(p, t) && FrameOf(p, t).WFixed? && !p.PTime? && !p.PString?
    ensures var f := FrameOf(p, t).f;
            FixedOk(f) && WriteParam(p, t) == Wrote(Put32(FixedCode(f)) + FixedBytes(f))
              && FixedMeaning(f) == ValueOf(p, t)
  {
    hide Put32, Put64;
    assert Put32(NULL) + [] == Put32(NULL);
  }

  lemma ParamRight(p: Param, t: Hint, at: Place)
    requires Encodable(p, t) && !at.Nested?
    ensures Right(p, t, at)
  {
    if p.PTime? {
      TimeRight(p.date, p.clock, p.offset, t, at);
    } else if p.PString? {
      StringRight(p.s, t, at);
    } else if (p.PInt? || p.PFloat?) && Numeric(t) {
      TextRight(p, t, at);
    } else {
      PlainRight(p, t, at);
    }
  }

  /** The announced type a frame carries: its own where the argument can have it, else the argument's natural one. */
  function SentAs(p: Param, t: Hint): int32 {
    match p
    case PNull => 0
    case PBool(_) => 1
    case PInt(_) => if t == Some(6) || t == Some(31) then t.value else 5
    case PFloat(_, _, _) => if t == Some(6) || t == Some(31) || t == Some(8) then t.value else 7
    case PString(_) =>
      if t == Some(6) || t == Some(31) || t == Some(21) || t == Some(14) || t == Some(20) then t.value else 13
    case PBytes(data) => if data == None then 0 else if t == Some(30) then 30 else 12
    case PTime(_, _, _) =>
      if t == Some(9) || t == Some(10) || t == Some(24) || t == Some(29) then t.value else 11
    case POther => 0
  }

  /** What is written starts with the type the argument is sent as; only foreign values and bad UUIDs are refused. */
  lemma CodeSent(p: Param, t: Hint)
    ensures WriteParam(p, t).Wrote? ==>
              |WriteParam(p, t).bytes| >= 4 && WriteParam(p, t).bytes[..4] == Put32(SentAs(p, t))
    ensures !WriteParam(p, t).Wrote? <==> p.POther? || (p.PString? && t == Some(20) && !Uuid.Parse(Chars(p.s)).Ok?)
  {
    assert |Put32(SentAs(p, t))| == 4;
    hide Put32, Put64, PutString, PutBytes, EncBE, Uuid.Parse, Chars, Decimal.IntText, PackDate, NanosOfDay;
  }

  // ---- Lists ----

  /** An argument with the type its parameter was announced with. */
  datatype Bound = Bound(p: Param, t: Hint)

  predicate AllEncodable(ps: seq<Bound>) {
    forall i | 0 <= i < |ps| :: Encodable(ps[i].p, ps[i].t)
  }

  /** The bytes of the arguments one after another, up to the first that is refused. */
  function WriteAll(ps: seq<Bound>): Bytes {
    if ps == [] || !WriteParam(ps[0].p, ps[0].t).Wrote? then [] else
      WriteParam(ps[0].p, ps[0].t).bytes + WriteAll(ps[1..])
  }

  function ValuesOf(ps: seq<Bound>): (vs: seq<Value>)
    requires AllEncodable(ps)
    ensures |vs| == |ps| && forall i | 0 <= i < |ps| :: vs[i] == ValueOf(ps[i].p, ps[i].t)
  {
    seq(|ps|, i requires 0 <= i < |ps| => ValueOf(ps[i].p, ps[i].t))
  }

  function FramesOf(ps: seq<Bound>): (ws: seq<WireValue>)
    requires AllEncodable(ps)
    ensures |ws| == |ps| && forall i | 0 <= i < |ps| :: ws[i] == FrameOf(ps[i].p, ps[i].t)
  {
    seq(|ps|, i requires 0 <= i < |ps| => FrameOf(ps[i].p, ps[i].t))
  }

  lemma FramesSendable(ps: seq<Bound>)
    requires AllEncodable(ps)
    ensures AllSendable(FramesOf(ps), false)
  {
    var ws := FramesOf(ps);
    forall i | 0 <= i < |ws|
      ensures Sendable(ws[i], false)
    {
      ParamRight(ps[i].p, ps[i].t, Cell(0, i));
      hide Sendable, Encodable, FrameOf;
    }
  }

  lemma {:induction false} WriteAllIs(ps: seq<Bound>)
    requires AllEncodable(ps)
    ensures AllSendable(FramesOf(ps), false) && WriteAll(ps) == Frames(FramesOf(ps), false)
  {
    FramesSendable(ps);
    if ps != [] {
      ParamRight(ps[0].p, ps[0].t, Cell(0, 0));
      WriteAllIs(ps[1..]);
      assert FramesOf(ps)[1..] == FramesOf(ps[1..]);
      hide Sendable, Encodable, FrameOf, WriteParam, Frame;
    }
  }

  /**
    * Value list round trip: written one after another and followed by anything, the arguments read back as the values
    * they stand for, and exactly what follows is left.
    */
  lemma ParamsRoundTrip(ps: seq<Bound>, t: Bytes)
    requires AllEncodable(ps)
    ensures ParseRow(WriteAll(ps) + t, 0, 0, |ps|) == Got(ValuesOf(ps), |WriteAll(ps)|)
    ensures (WriteAll(ps) + t)[|WriteAll(ps)|..] == t
  {
    WriteAllIs(ps);
    ParamsMean(ps);
    hide *;
    WholeRow(FramesOf(ps), 0, t);
  }

  lemma ParamsMean(ps: seq<Bound>)
    requires AllEncodable(ps) && AllSendable(FramesOf(ps), false)
    ensures DecodedRow(FramesOf(ps), 0) == ValuesOf(ps)
  {
    var ws := FramesOf(ps);
    forall i | 0 <= i < |ps|
      ensures DecodedRow(ws, 0)[i] == ValueOf(ps[i].p, ps[i].t)
    {
      ParamRight(ps[i].p, ps[i].t, Cell(0, i));
      hide Encodable, FrameOf, ValueOf, Meaning, WriteParam, Frame;
    }
  }

  /** Every 128-bit UUID, given as its text, is written as its two halves. */
  lemma UuidParam(high: int64, low: int64)
    ensures WriteParam(PString(AsciiBytes(Uuid.Format(high, low))), Some(UUID)) ==
            Wrote(Put32(UUID) + (Put64(high) + Put64(low)))
  {
    Uuid.RoundTrip(high, low);
    FormatAscii(high, low);
    hide Uuid.Format, Uuid.Parse, Put32, Put64;
  }

  // ---- Texts the driver prints are ASCII ----

  predicate Narrow(s: string) { forall i | 0 <= i < |s| :: s[i] as int < 0x80 }

  lemma NarrowBytes(s: string)
    requires Narrow(s)
    ensures Ascii(AsciiBytes(s)) && Chars(AsciiBytes(s)) == s
  {
  }

  lemma FormatAscii(high: int64, low: int64)
    ensures Chars(AsciiBytes(Uuid.Format(high, low))) == Uuid.Format(high, low)
  {
    Uuid.FormatLower(high, low);
    hide Uuid.Format;
    NarrowBytes(Uuid.Format(high, low));
  }

  lemma DigitTextNarrow(s: string)
    requires Decimal.AllDigits(s)
    ensures Narrow(s)
  {
  }

  lemma RenderNarrow(n: DecFloat.Numeral)
    requires DecFloat.WellFormed(n)
    ensures Narrow(DecFloat.Render(n))
  {
    DigitTextNarrow(n.ints);
    DigitTextNarrow(n.frac);
    ExponentNarrow(n.exp);
    hide DecFloat.ExpText;
  }

  lemma ExponentNarrow(e: Option<DecFloat.Exponent>)
    requires DecFloat.ExpWellFormed(e)
    ensures Narrow(DecFloat.ExpText(e))
  {
    if e.Some? { DigitTextNarrow(e.value.digits); }
  }

  lemma PrintNarrow(d: DecFloat.Dec)
    ensures Narrow(DecFloat.Print(d))
  {
    if d.Finite? {
      DecFloat.PrintedText(d);
      DecFloat.PrintedWellFormed(d);
      RenderNarrow(DecFloat.Printed(d));
      hide DecFloat.Print, DecFloat.Render, DecFloat.Printed, Narrow;
    }
  }

  /**
    * A decimal bound to a DECFLOAT parameter as its printed text reads back as that text, and that parses to the
    * decimal.
    */
  lemma DecimalParam(d: DecFloat.Dec, t: Bytes)
    requires DecFloat.Parse(DecFloat.Print(d)) == DecFloat.Ok(d) && |DecFloat.Print(d)| <= MAX_WIRE_LENGTH / 2
    ensures var s := AsciiBytes(DecFloat.Print(d));
            && Encodable(PString(s), Some(DECFLOAT)) && WriteParam(PString(s), Some(DECFLOAT)).Wrote?
            && var b := WriteParam(PString(s), Some(DECFLOAT)).bytes;
            ParseValue(b + t, Cell(0, 0)) == Got(Str(s), |b|) && DecFloat.Parse(Chars(s)) == DecFloat.Ok(d)
  {
    var s := AsciiBytes(DecFloat.Print(d));
    PrintNarrow(d);
    NarrowBytes(DecFloat.Print(d));
    AsciiUnits(s);
    AsciiClean(s);
    ParamRight(PString(s), Some(DECFLOAT), Cell(0, 0));
    ValueRoundTrip(FrameOf(PString(s), Some(DECFLOAT)), Cell(0, 0), t);
    hide DecFloat.Parse, DecFloat.Print, Utf16, Runes, Utf8, Frame, ParseValue, WriteParam, Meaning;
  }
}
