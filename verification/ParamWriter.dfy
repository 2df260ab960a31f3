/** Writing statement parameters to the stream. */
module ParamWriter {
  import opened Wire
  import opened Unicode
  import opened Values
  import opened Encoding
  import opened Network
  import opened Transfer
  import opened Strings
  import opened Params
  import Decimal
  import Uuid

  datatype Report = Fine | Error | Panic

  /** The outcome and the buffer agree with what the argument's frame is. */
  predicate Writes(before: Net, w: Written, after: Net, r: Report) {
    match w
    case Wrote(b) => r == Fine && after == Network.Write(before, b)
    case Rejected => r == Error && after == before
    case Panicked => r == Panic && after == before
  }

  lemma Joined(o: Bytes, a: Bytes, b: Bytes)
    ensures o + a + b == o + (a + b)
  {
  }

  method WriteStringValue(tr: Tr, s: Bytes, t: Hint) returns (r: Report)
    requires tr.Valid()
    modifies tr`buffer
    ensures tr.Valid() && Writes(old(tr.State()), Params.WriteString(s, t), tr.State(), r)
  {
    hide Put32, Put64, PutString, Uuid.Parse, Chars;
    ghost var o := tr.buffer;
    if t == Some(UUID) {
      match Uuid.Parse(Chars(s)) {
        case Invalid => return Error;
        case Panic => return Panic;
        case Ok(high, low) =>
          tr.WriteInt32(UUID);
          tr.WriteInt64(high);
          tr.WriteInt64(low);
          Joined(o, Put32(UUID), Put64(high));
          Joined(o, Put32(UUID) + Put64(high), Put64(low));
          Joined(Put32(UUID), Put64(high), Put64(low));
          return Fine;
      }
    }
    tr.WriteInt32(TextCode(t));
    Strings.WriteString(tr, s);
    Joined(o, Put32(TextCode(t)), PutString(s));
    return Fine;
  }

  /** The bytes are one value frame, whatever follows them. */
  ghost predicate ReadsAs(b: Bytes, v: Value) {
    forall rest: Bytes, at: Place :: ParseValue(b + rest, at) == Got(v, |b|)
  }

  lemma TimeReadsBack(d: Date, c: Clock, offset: int32, t: Hint)
    requires ValidDate(d) && ValidClock(c)
    ensures ReadsAs(WriteTime(d, c, offset, t), TimeBack(d, c, offset, t))
  {
    var f := TimeFrame(d, c, offset, t);
    TimeIs(d, c, offset, t);
    var b := WriteTime(d, c, offset, t);
    hide WriteTime, TimeBack, TimeFrame, ParseValue, FixedOk, FixedCode, FixedBytes, FixedMeaning, Put32;
    forall rest: Bytes, at: Place
      ensures ParseValue(b + rest, at) == Got(TimeBack(d, c, offset, t), |b|)
    {
      ValueRoundTrip(WFixed(f), at, rest);
    }
  }

  /** A moment is written in the form its announced type asks for: it reads back as that part of it. */
  method WriteTimeValue(tr: Tr, d: Date, c: Clock, offset: int32, t: Hint)
    requires tr.Valid()
    modifies tr`buffer
    ensures tr.Valid() && tr.State() == Network.Write(old(tr.State()), WriteTime(d, c, offset, t))
    ensures ValidDate(d) && ValidClock(c) ==> ReadsAs(WriteTime(d, c, offset, t), TimeBack(d, c, offset, t))
  {
    hide *;
    if ValidDate(d) && ValidClock(c) { TimeReadsBack(d, c, offset, t); }
    WriteParts(tr, d, c, offset, t);
  }

  method WriteParts(tr: Tr, d: Date, c: Clock, offset: int32, t: Hint)
    requires tr.Valid()
    modifies tr`buffer
    ensures tr.Valid() && tr.State() == Network.Write(old(tr.State()), WriteTime(d, c, offset, t))
  {
    hide Put32, EncBE, PackDate, NanosOfDay;
    var date, nanos := EncBE(PackDate(d), 8), EncBE(NanosOfDay(c), 8);
    var code := TimeCode(t);
    ghost var o := tr.buffer;
    tr.WriteInt32(code);
    ghost var body: Bytes := [];
    if code == DATE {
      tr.Write(date);
      body := date;
    } else if code == TIME {
      tr.Write(nanos);
      body := nanos;
    } else if code == TIME_TZ {
      tr.Write(nanos);
      tr.WriteInt32(offset);
      body := nanos + Put32(offset);
    } else if code == TIMESTAMP_TZ {
      tr.Write(date);
      tr.Write(nanos);
      tr.WriteInt32(offset);
      body := date + (nanos + Put32(offset));
    } else {
      tr.Write(date);
      tr.Write(nanos);
      body := date + nanos;
    }
    assert tr.buffer == o + (Put32(code) + body);
  }

  /** One argument: nothing is written for one that cannot be encoded. */
  method WriteValue(tr: Tr, p: Param, t: Hint) returns (r: Report)
    requires tr.Valid()
    modifies tr`buffer
    ensures tr.Valid() && Writes(old(tr.State()), WriteParam(p, t), tr.State(), r)
  {
    hide Put32, Put64, PutBytes, Params.WriteString, WriteTime, Decimal.IntText;
    ghost var o := tr.buffer;
    match p
    case PNull => tr.WriteInt32(NULL); return Fine;
    case PBool(b) =>
      tr.WriteInt32(BOOLEAN);
      tr.Write([if b then 1 else 0]);
      Joined(o, Put32(BOOLEAN), [if b then 1 else 0]);
      return Fine;
    case PInt(i) =>
      if Numeric(t) {
        r := WriteStringValue(tr, AsciiBytes(Decimal.IntText(i)), t);
        return;
      }
      tr.WriteInt32(BIGINT);
      tr.WriteInt64(i);
      Joined(o, Put32(BIGINT), Put64(i));
      return Fine;
    case PFloat(bits, single, text) =>
      if Numeric(t) {
        r := WriteStringValue(tr, text, t);
        return;
      }
      if t == Some(REAL) {
        tr.WriteInt32(REAL);
        tr.WriteInt32(single);
        Joined(o, Put32(REAL), Put32(single));
        return Fine;
      }
      tr.WriteInt32(DOUBLE);
      tr.WriteInt64(bits);
      Joined(o, Put32(DOUBLE), Put64(bits));
      return Fine;
    case PString(s) => r := WriteStringValue(tr, s, t);
    case PBytes(data) =>
      if data == None {
        tr.WriteInt32(NULL);
        return Fine;
      }
      var code: int32 := if t == Some(BINARY) then BINARY else VARBINARY;
      tr.WriteInt32(code);
      tr.WriteBytes(data);
      Joined(o, Put32(code), PutBytes(data));
      return Fine;
    case PTime(d, c, offset) =>
      WriteTimeValue(tr, d, c, offset, t);
      return Fine;
    case POther => return Error;
  }

  predicate Accepted(b: Bound) { WriteParam(b.p, b.t).Wrote? }

  /** How writing an argument ends. */
  function Ends(b: Bound): Report {
    match WriteParam(b.p, b.t) case Wrote(_) => Fine case Rejected => Error case Panicked => Panic
  }

  /**
    * The arguments of an execution, one after another. The first `done` are in the buffer, as the frame the round-trip
    * lemma is about; they are all of them, or the next one is the one that was refused.
    */
  method WriteValues(tr: Tr, ps: seq<Bound>) returns (r: Report, done: nat)
    requires tr.Valid()
    modifies tr`buffer
    ensures tr.Valid() && done <= |ps| && tr.State() == Network.Write(old(tr.State()), WriteAll(ps[..done]))
    ensures forall j | 0 <= j < done :: Accepted(ps[j])
    ensures if done == |ps| then r == Fine else r == Ends(ps[done]) && r != Fine
    ensures AllEncodable(ps) ==> r == Fine
  {
    hide WriteParam, Encodable, WriteAll;
    ghost var o := tr.buffer;
    done := 0;
    EmptyWritten();
    assert o + [] == o && ps[..0] == [];
    while done < |ps|
      invariant tr.Valid() && done <= |ps| && tr.State() == old(tr.State()).(out := tr.buffer)
      invariant tr.buffer == o + WriteAll(ps[..done]) && forall j | 0 <= j < done :: Accepted(ps[j])
    {
      r := WriteValue(tr, ps[done].p, ps[done].t);
      if r != Fine {
        if AllEncodable(ps) { EncodableAccepted(ps[done]); }
        return;
      }
      ghost var b := WriteParam(ps[done].p, ps[done].t).bytes;
      WrittenSnoc(ps[..done], ps[done]);
      Joined(o, WriteAll(ps[..done]), b);
      assert ps[..done + 1] == ps[..done] + [ps[done]];
      done := done + 1;
    }
    assert ps[..|ps|] == ps;
    return Fine, done;
  }

  lemma EmptyWritten()
    ensures WriteAll([]) == []
  {
  }

  lemma EncodableAccepted(b: Bound)
    requires Encodable(b.p, b.t)
    ensures Accepted(b)
  {
    ParamRight(b.p, b.t, Cell(0, 0));
  }

  lemma {:induction false} WrittenSnoc(ps: seq<Bound>, b: Bound)
    requires Accepted(b) && forall j | 0 <= j < |ps| :: Accepted(ps[j])
    ensures WriteAll(ps + [b]) == WriteAll(ps) + WriteParam(b.p, b.t).bytes
  {
    hide WriteParam;
    if ps == [] {
      assert ps + [b] == [b] && [b][1..] == [];
    } else {
      WrittenSnoc(ps[1..], b);
      assert (ps + [b])[0] == ps[0] && (ps + [b])[1..] == ps[1..] + [b];
      Joined(WriteParam(ps[0].p, ps[0].t).bytes, WriteAll(ps[1..]), WriteParam(b.p, b.t).bytes);
    }
  }
}
