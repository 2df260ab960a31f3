/** Values on the wire: what the server writes, what the driver decodes, and why the two agree. */
module Values {
  import opened Wire
  import opened Unicode
  import DecFloat
  import Interval

  // ---- Type codes ----

  const NULL := 0
  const BOOLEAN := 1
  const TINYINT := 2
  const SMALLINT := 3
  const INTEGER := 4
  const BIGINT := 5
  const NUMERIC := 6
  const DOUBLE := 7
  const REAL := 8
  const TIME := 9
  const DATE := 10
  const TIMESTAMP := 11
  const VARBINARY := 12
  const VARCHAR := 13
  const VARCHAR_IGNORECASE := 14
  const BLOB := 15
  const CLOB := 16
  const ARRAY := 17
  const JAVA_OBJECT := 19
  const UUID := 20
  const CHAR := 21
  const GEOMETRY := 22
  const TIMESTAMP_TZ := 24
  const ENUM := 25
  const INTERVAL := 26
  const ROW := 27
  const JSON := 28
  const TIME_TZ := 29
  const BINARY := 30
  const DECFLOAT := 31

  const LOB_MAGIC := 0x1234

  predicate IsText(tc: int) {
    tc == NUMERIC || tc == VARCHAR || tc == VARCHAR_IGNORECASE || tc == CHAR || tc == DECFLOAT
  }

  predicate IsBinary(tc: int) { tc == VARBINARY || tc == BINARY || tc == JSON || tc == GEOMETRY || tc == JAVA_OBJECT }

  // ---- Dates and clocks ----

  datatype Date = Date(year: int, month: int, day: int)
  datatype Clock = Clock(hour: int, minute: int, second: int, nano: int)

  const NANOS: int := 1_000_000_000
  const EPOCH := Date(0, 1, 1)
  const MIDNIGHT := Clock(0, 0, 0, 0)

  /** (year << 9) | (month << 5) | day; the fields do not overlap, so `|` is a sum. */
  function PackDate(d: Date): int {
    d.year * 512 + d.month * 32 + d.day
  }

  /** Field extraction with arithmetic shifts, so negative years come back. */
  function UnpackDate(v: int): Date {
    Date(v / 512, v / 32 % 16, v % 32)
  }

  predicate ValidDate(d: Date) {
    1 <= d.month <= 12 && 1 <= d.day <= 31 && -0x40_0000_0000_0000 <= d.year < 0x40_0000_0000_0000
  }

  predicate ValidClock(c: Clock) {
    0 <= c.hour < 24 && 0 <= c.minute < 60 && 0 <= c.second < 60 && 0 <= c.nano < NANOS
  }

  function NanosOfDay(c: Clock): int {
    ((c.hour * 60 + c.minute) * 60 + c.second) * NANOS + c.nano
  }

  /** Division and remainder truncate toward zero. */
  function ClockOf(n: int): Clock {
    var n1 := Interval.Rem(n, 3600 * NANOS);
    var n2 := Interval.Rem(n1, 60 * NANOS);
    Clock(Interval.Quot(n, 3600 * NANOS), Interval.Quot(n1, 60 * NANOS),
          Interval.Quot(n2, NANOS), Interval.Rem(n2, NANOS))
  }

  /** Packed dates keep every year, with months and days in their ranges. */
  lemma DateRoundTrip(d: Date)
    requires ValidDate(d)
    ensures UnpackDate(PackDate(d)) == d
    ensures PackDate(d) % 32 == d.day && PackDate(d) / 32 % 16 == d.month && PackDate(d) / 512 == d.year
    ensures -0x8000_0000_0000_0000 <= PackDate(d) < 0x8000_0000_0000_0000
  {
    var v := PackDate(d);
    var low := d.month * 32 + d.day;
    assert v == d.year * 512 + low && 0 <= low < 512;
    assert v / 512 == d.year;
    assert v == (d.year * 16 + d.month) * 32 + d.day;
    assert v / 32 == d.year * 16 + d.month && v % 32 == d.day;
  }

  /** Every 64-bit date has the fields it is the sum of. */
  lemma DateFields(v: int)
    ensures var d := UnpackDate(v); 0 <= d.month < 16 && 0 <= d.day < 32 && d.year * 512 + d.month * 32 + d.day == v
  {
    assert v / 32 == v / 512 * 16 + v / 32 % 16 by { assert v / 32 / 16 == v / 512; }
  }

  /** Nanoseconds of the day keep every wall-clock reading. */
  lemma ClockRoundTrip(c: Clock)
    requires ValidClock(c)
    ensures ClockOf(NanosOfDay(c)) == c
    ensures 0 <= NanosOfDay(c) < 86_400 * NANOS
    ensures NanosOfDay(c) ==
            c.hour * 3_600_000_000_000 + c.minute * 60_000_000_000 + c.second * 1_000_000_000 + c.nano
  {
    var n := NanosOfDay(c);
    assert n / (3600 * NANOS) == c.hour;
    var n1 := n - c.hour * (3600 * NANOS);
    assert n1 == (c.minute * 60 + c.second) * NANOS + c.nano;
    assert n1 / (60 * NANOS) == c.minute;
  }

  // ---- Decoded values ----

  datatype PendingLob = PendingLob(clob: bool, lobID: int64, hmac: Option<Bytes>, octetLength: int64, precision: int64,
                                   row: nat, col: nat)

  /**
    * A driver value. `UuidText` stands for `Uuid.Format` of its halves, `IntervalText` for `Interval.WireText`
    * of its fields, `Array` and `Row` for the text rendered from the decoded elements.
    */
  datatype Value =
    | Null
    | Bool(b: bool)
    | Int(i: int64)
    | Float32(bits32: int32)
    | Float64(bits64: int64)
    | Str(s: Bytes)
    | Binary(data: Option<Bytes>)
    | Time(date: Date, clock: Clock, offset: int32)
    | UuidText(high: int64, low: int64)
    | IntervalText(ordinal: byte, leading: int64, remaining: int64)
    | Array(elems: seq<Value>)
    | Row(fields: seq<Value>)
    | Pending(lob: PendingLob)

  /** Where a value is being decoded: a cell of a buffered row, or inside an ARRAY or ROW. */
  datatype Place = Cell(row: nat, col: nat) | Nested

  /** No placeholder anywhere inside. */
  predicate Resolved(v: Value) {
    match v
    case Pending(_) => false
    case Array(es) => forall i | 0 <= i < |es| :: Resolved(es[i])
    case Row(fs) => forall i | 0 <= i < |fs| :: Resolved(fs[i])
    case _ => true
  }

  predicate AllResolved(vs: seq<Value>) {
    forall i | 0 <= i < |vs| :: Resolved(vs[i])
  }

  // ---- Decoding ----

  /** Payload size of the types whose payload has one size, or -1. */
  function FixedSize(tc: int): (k: int)
    ensures -1 <= k <= 20
  {
    if tc == NULL then 0
    else if tc == BOOLEAN || tc == TINYINT then 1
    else if tc == SMALLINT then 2
    else if tc == INTEGER || tc == REAL || tc == ENUM then 4
    else if tc == BIGINT || tc == DOUBLE || tc == DATE || tc == TIME then 8
    else if tc == TIME_TZ then 12
    else if tc == TIMESTAMP || tc == UUID then 16
    else if tc == TIMESTAMP_TZ then 20
    else -1
  }

  function Chars(s: Bytes): string {
    seq(|s|, i requires 0 <= i < |s| => s[i] as char)
  }

  function DecodeFixed(tc: int, p: Bytes): (v: Value)
    requires FixedSize(tc) == |p|
    ensures Resolved(v)
  {
    if tc == NULL then Null
    else if tc == BOOLEAN then Bool(p[0] != 0)
    else if tc == TINYINT then Int(Int8(p[0]))
    else if tc == SMALLINT then Int(Int16(p))
    else if tc == INTEGER || tc == ENUM then Int(Int32(p))
    else if tc == REAL then Float32(Int32(p))
    else if tc == BIGINT then Int(Int64(p))
    else if tc == DOUBLE then Float64(Int64(p))
    else if tc == DATE then Time(UnpackDate(Int64(p)), MIDNIGHT, 0)
    else if tc == TIME then Time(EPOCH, ClockOf(Int64(p)), 0)
    else if tc == TIME_TZ then Time(EPOCH, ClockOf(Int64(p[..8])), Int32(p[8..]))
    else if tc == TIMESTAMP then Time(UnpackDate(Int64(p[..8])), ClockOf(Int64(p[8..])), 0)
    else if tc == TIMESTAMP_TZ then Time(UnpackDate(Int64(p[..8])), ClockOf(Int64(p[8..16])), Int32(p[16..]))
    else UuidText(Int64(p[..8]), Int64(p[8..]))
  }

  function ParseFixed(tc: int, s: Bytes): (g: Got<Value>)
    requires FixedSize(tc) >= 0
    ensures g.Got? ==> g.n <= |s|
  {
    var k := FixedSize(tc);
    if |s| < k then Fail else Got(DecodeFixed(tc, s[..k]), k)
  }

  /** A nullable string; a DECFLOAT must also parse. */
  function ParseText(tc: int, s: Bytes): (g: Got<Value>)
    ensures g.Got? ==> 4 <= g.n <= |s|
  {
    match GetString(s)
    case Fail => Fail
    case Got(None, n) => Got(Null, n)
    case Got(Some(t), n) =>
      if tc == DECFLOAT && DecFloat.Parse(Chars(t)).Err? then Fail else Got(Str(t), n)
  }

  function ParseBinary(s: Bytes): (g: Got<Value>)
    ensures g.Got? ==> 4 <= g.n <= |s|
  {
    match GetBytes(s)
    case Fail => Fail
    case Got(b, n) => Got(Binary(b), n)
  }

  function IntervalSize(x: byte): int {
    if Interval.HasRemaining(Interval.QualifierOf(Interval.Ordinal(x))) then 17 else 9
  }

  function ParseInterval(s: Bytes): (g: Got<Value>)
    ensures g.Got? ==> 9 <= g.n <= |s|
  {
    if |s| < 1 || |s| < IntervalSize(s[0]) then Fail
    else
      var n := IntervalSize(s[0]);
      Got(IntervalText(s[0], Int64(s[1..9]), if n == 17 then Int64(s[9..17]) else 0), n)
  }

  /** Fetch-on-demand reference: table, identifier, MAC, then one length for BLOB and two for CLOB. */
  function ParseLobRef(clob: bool, s: Bytes, at: Place): (g: Got<Value>)
    ensures g.Got? ==> 24 <= g.n <= |s| && g.v.Pending? && at.Cell? && g.v.lob.row == at.row && g.v.lob.col == at.col
  {
    if |s| < 12 then Fail else
      match GetBytes(s[12..])
      case Fail => Fail
      case Got(mac, m) =>
        var k := 12 + m;
        var size := if clob then 16 else 8;
        if |s| < k + size || at.Nested? then Fail
        else
          var p := PendingLob(clob, Int64(s[4..12]), mac, if clob then Int64(s[k..k + 8]) else 0,
                              Int64(s[k + size - 8..k + size]), at.row, at.col);
          Got(Pending(p), k + size)
  }

  function ParseInlineBlob(len: int, s: Bytes): (g: Got<Value>)
    requires len >= 0
    ensures g.Got? ==> g.n <= |s|
  {
    if len > MAX_WIRE_LENGTH || |s| < len + 4 || Int32(s[len..len + 4]) != LOB_MAGIC then Fail
    else Got(Binary(Some(s[..len])), len + 4)
  }

  function ParseInlineClob(len: int, s: Bytes): (g: Got<Value>)
    requires len >= 0
    ensures g.Got? ==> g.n <= |s|
  {
    if len > MAX_WIRE_LENGTH then Fail else
      match GetClobChars(s, len)
      case Fail => Fail
      case Got(us, m) =>
        if |s| < m + 4 || Int32(s[m..m + 4]) != LOB_MAGIC then Fail
        else Got(Str(Utf8(ClobText(us))), m + 4)
  }

  function ParseLob(clob: bool, s: Bytes, at: Place): (g: Got<Value>)
    ensures g.Got? ==> 8 <= g.n <= |s|
  {
    match Get64(s)
    case Fail => Fail
    case Got(len, _) =>
      if len == -1 then Shift(ParseLobRef(clob, s[8..], at), 8)
      else if len < 0 then Fail
      else if clob then Shift(ParseInlineClob(len, s[8..]), 8)
      else Shift(ParseInlineBlob(len, s[8..]), 8)
  }

  /** The same outcome, after `k` more bytes. */
  function Shift<T>(g: Got<T>, k: nat): Got<T> {
    match g case Fail => Fail case Got(v, n) => Got(v, n + k)
  }

  /** Element count of an ARRAY frame and the size of its header; a negative count carries a type name to skip. */
  function ArrayHeader(s: Bytes): (g: Got<nat>)
    ensures g.Got? ==> 4 <= g.n <= |s|
  {
    match Get32(s)
    case Fail => Fail
    case Got(len, _) =>
      var l: int := len;
      var count := if l < 0 then -l - 1 else l;
      if count > MAX_COLLECTION then Fail
      else if len >= 0 then Got(count, 4)
      else
        match GetString(s[4..])
        case Fail => Fail
        case Got(_, n) => Got(count, 4 + n)
  }

  function RowHeader(s: Bytes): (g: Got<nat>)
    ensures g.Got? ==> g.n == 4 <= |s|
  {
    match Get32(s)
    case Fail => Fail
    case Got(len, _) => if len < 0 || len > MAX_COLLECTION then Fail else Got(len, 4)
  }

  function ParseArray(s: Bytes): (g: Got<Value>)
    ensures g.Got? ==> 4 <= g.n <= |s|
    decreases |s|, 2
  {
    match ArrayHeader(s)
    case Fail => Fail
    case Got(count, n) =>
      match ParseElems(s[n..], count)
      case Fail => Fail
      case Got(vs, m) => Got(Array(vs), n + m)
  }

  function ParseRowValue(s: Bytes): (g: Got<Value>)
    ensures g.Got? ==> 4 <= g.n <= |s|
    decreases |s|, 2
  {
    match RowHeader(s)
    case Fail => Fail
    case Got(count, n) =>
      match ParseElems(s[n..], count)
      case Fail => Fail
      case Got(vs, m) => Got(Row(vs), n + m)
  }

  /** Decodes the payload of a value of type `tc`. */
  function ParseBody(tc: int, s: Bytes, at: Place): (g: Got<Value>)
    ensures g.Got? ==> g.n <= |s|
    decreases |s|, 3
  {
    if FixedSize(tc) >= 0 then ParseFixed(tc, s)
    else if IsText(tc) then ParseText(tc, s)
    else if IsBinary(tc) then ParseBinary(s)
    else if tc == BLOB || tc == CLOB then ParseLob(tc == CLOB, s, at)
    else if tc == INTERVAL then ParseInterval(s)
    else if tc == ARRAY then ParseArray(s)
    else if tc == ROW then ParseRowValue(s)
    else Fail
  }

  /**
    * Decodes one value: its type code, then its payload. It terminates on every stream and takes at least four bytes.
    */
  function ParseValue(s: Bytes, at: Place): (g: Got<Value>)
    ensures g.Got? ==> 4 <= g.n <= |s|
    decreases |s|, 0
  {
    match Get32(s)
    case Fail => Fail
    case Got(tc, _) => Shift(ParseBody(tc, s[4..], at), 4)
  }

  function ParseElems(s: Bytes, k: nat): (g: Got<seq<Value>>)
    ensures g.Got? ==> g.n <= |s| && |g.v| == k
    decreases |s|, 1, k
  {
    if k == 0 then Got([], 0) else
      match ParseValue(s, Nested)
      case Fail => Fail
      case Got(v, n) =>
        match ParseElems(s[n..], k - 1)
        case Fail => Fail
        case Got(vs, m) => Got([v] + vs, n + m)
  }

  /** Which decoder a type code selects. */
  lemma Dispatch(tc: int, s: Bytes, at: Place)
    ensures FixedSize(tc) >= 0 ==> ParseBody(tc, s, at) == ParseFixed(tc, s)
    ensures IsText(tc) ==> ParseBody(tc, s, at) == ParseText(tc, s)
    ensures IsBinary(tc) ==> ParseBody(tc, s, at) == ParseBinary(s)
    ensures tc == BLOB || tc == CLOB ==> ParseBody(tc, s, at) == ParseLob(tc == CLOB, s, at)
    ensures tc == INTERVAL ==> ParseBody(tc, s, at) == ParseInterval(s)
    ensures tc == ARRAY ==> ParseBody(tc, s, at) == ParseArray(s)
    ensures tc == ROW ==> ParseBody(tc, s, at) == ParseRowValue(s)
  {
    hide ParseFixed, ParseText, ParseBinary, ParseLob, ParseInterval, ParseArray, ParseRowValue;
  }

  lemma ParseArrayParts(h: Bytes, body: Bytes, t: Bytes, vs: seq<Value>)
    requires ArrayHeader(h + (body + t)) == Got(|vs|, |h|)
    requires ParseElems(body + t, |vs|) == Got(vs, |body|)
    ensures ParseArray((h + body) + t) == Got(Array(vs), |h| + |body|)
  {
    hide ArrayHeader, ParseElems;
    Cut(h, body, t);
  }

  lemma ParseRowParts(h: Bytes, body: Bytes, t: Bytes, vs: seq<Value>)
    requires RowHeader(h + (body + t)) == Got(|vs|, |h|)
    requires ParseElems(body + t, |vs|) == Got(vs, |body|)
    ensures ParseRowValue((h + body) + t) == Got(Row(vs), |h| + |body|)
  {
    hide RowHeader, ParseElems;
    Cut(h, body, t);
  }

  // ---- Placeholders ----

  lemma LobKinds(clob: bool, s: Bytes, at: Place)
    requires ParseLob(clob, s, at).Got?
    ensures var v := ParseLob(clob, s, at).v;
            (v.Pending? && at.Cell? && v.lob.row == at.row && v.lob.col == at.col) || Resolved(v)
  {
  }

  /** A nested value never holds a placeholder; a cell holds at most one, on top, recorded for its own position. */
  lemma {:induction false} Placeholders(s: Bytes, at: Place)
    requires ParseValue(s, at).Got?
    ensures var v := ParseValue(s, at).v;
            || Resolved(v)
            || (v.Pending? && at.Cell? && v.lob.row == at.row && v.lob.col == at.col
                && (Get32(s).v == BLOB || Get32(s).v == CLOB))
    decreases |s|, 0
  {
    var tc, p := Get32(s).v, s[4..];
    if FixedSize(tc) >= 0 || IsText(tc) || IsBinary(tc) || tc == INTERVAL {
    } else if tc == BLOB || tc == CLOB {
      LobKinds(tc == CLOB, p, at);
    } else if tc == ARRAY {
      assert ParseBody(tc, p, at) == ParseArray(p);
      var h := ArrayHeader(p);
      ElemsResolved(p[h.n..], h.v);
    } else {
      assert ParseBody(tc, p, at) == ParseRowValue(p);
      var h := RowHeader(p);
      ElemsResolved(p[h.n..], h.v);
    }
  }

  lemma {:induction false} ElemsResolved(s: Bytes, k: nat)
    requires ParseElems(s, k).Got?
    ensures AllResolved(ParseElems(s, k).v)
    decreases |s|, 1, k
  {
    if k > 0 {
      Placeholders(s, Nested);
      ElemsResolved(s[ParseValue(s, Nested).n..], k - 1);
    }
  }

  // ---- The decoder reads nothing beyond what it consumes ----

  lemma TextLocal(tc: int, s: Bytes, s': Bytes)
    requires ParseText(tc, s).Got? && Agree(s, s', ParseText(tc, s).n)
    ensures ParseText(tc, s') == ParseText(tc, s)
  {
    GetStringLocal(s, s');
  }

  lemma FixedLocal(tc: int, s: Bytes, s': Bytes)
    requires FixedSize(tc) >= 0 && ParseFixed(tc, s).Got? && Agree(s, s', ParseFixed(tc, s).n)
    ensures ParseFixed(tc, s') == ParseFixed(tc, s)
  {
  }

  /** A slice inside the agreed prefix is the same in both. */
  lemma SliceLocal(s: Bytes, s': Bytes, n: nat, i: nat, j: nat)
    requires Agree(s, s', n) && i <= j <= n
    ensures s[i..j] == s'[i..j]
  {
    assert s[i..j] == s[..n][i..j] && s'[i..j] == s'[..n][i..j];
  }

  lemma IntervalLocal(s: Bytes, s': Bytes)
    requires ParseInterval(s).Got? && Agree(s, s', ParseInterval(s).n)
    ensures ParseInterval(s') == ParseInterval(s)
  {
    var n := ParseInterval(s).n;
    SliceLocal(s, s', n, 0, 1);
    assert s[0] == s[0..1][0] && s'[0] == s'[0..1][0];
    SliceLocal(s, s', n, 1, 9);
    if n == 17 { SliceLocal(s, s', n, 9, 17); }
  }

  lemma LobRefLocal(clob: bool, s: Bytes, s': Bytes, at: Place)
    requires ParseLobRef(clob, s, at).Got? && Agree(s, s', ParseLobRef(clob, s, at).n)
    ensures ParseLobRef(clob, s', at) == ParseLobRef(clob, s, at)
  {
    var n := ParseLobRef(clob, s, at).n;
    var m := GetBytes(s[12..]).n;
    var k := 12 + m;
    AgreeDrop(s, s', n, 12);
    AgreeLess(s[12..], s'[12..], n - 12, m);
    GetBytesLocal(s[12..], s'[12..]);
    SliceLocal(s, s', n, 4, 12);
    SliceLocal(s, s', n, n - 8, n);
    if clob { SliceLocal(s, s', n, k, k + 8); }
    hide GetBytes, Int64;
  }

  lemma InlineBlobLocal(len: int, s: Bytes, s': Bytes)
    requires len >= 0 && ParseInlineBlob(len, s).Got? && Agree(s, s', ParseInlineBlob(len, s).n)
    ensures ParseInlineBlob(len, s') == ParseInlineBlob(len, s)
  {
    SliceLocal(s, s', len + 4, len, len + 4);
    SliceLocal(s, s', len + 4, 0, len);
  }

  lemma InlineClobLocal(len: int, s: Bytes, s': Bytes)
    requires len >= 0 && ParseInlineClob(len, s).Got? && Agree(s, s', ParseInlineClob(len, s).n)
    ensures ParseInlineClob(len, s') == ParseInlineClob(len, s)
  {
    var m := GetClobChars(s, len).n;
    AgreeLess(s, s', m + 4, m);
    GetClobCharsLocal(s, s', len);
    SliceLocal(s, s', m + 4, m, m + 4);
    hide GetClobChars, Int32, Utf8, ClobText;
  }

  lemma LobLocal(clob: bool, s: Bytes, s': Bytes, at: Place)
    requires ParseLob(clob, s, at).Got? && Agree(s, s', ParseLob(clob, s, at).n)
    ensures ParseLob(clob, s', at) == ParseLob(clob, s, at)
  {
    var n := ParseLob(clob, s, at).n;
    AgreeLess(s, s', n, 8);
    AgreeDrop(s, s', n, 8);
    var len := Get64(s).v;
    assert Get64(s') == Get64(s);
    hide ParseInlineBlob, ParseInlineClob, ParseLobRef, Get64;
    if len == -1 { LobRefLocal(clob, s[8..], s'[8..], at); }
    else if clob { InlineClobLocal(len, s[8..], s'[8..]); }
    else { InlineBlobLocal(len, s[8..], s'[8..]); }
  }

  lemma ArrayHeaderLocal(s: Bytes, s': Bytes)
    requires ArrayHeader(s).Got? && Agree(s, s', ArrayHeader(s).n)
    ensures ArrayHeader(s') == ArrayHeader(s)
  {
    var n := ArrayHeader(s).n;
    AgreeLess(s, s', n, 4);
    assert Get32(s') == Get32(s);
    if Get32(s).v < 0 {
      AgreeDrop(s, s', n, 4);
      GetStringLocal(s[4..], s'[4..]);
    }
  }

  lemma {:induction false} ArrayLocal(s: Bytes, s': Bytes)
    requires ParseArray(s).Got? && Agree(s, s', ParseArray(s).n)
    ensures ParseArray(s') == ParseArray(s)
    decreases |s|, 2
  {
    var n, k := ParseArray(s).n, ArrayHeader(s).n;
    AgreeLess(s, s', n, k);
    ArrayHeaderLocal(s, s');
    AgreeDrop(s, s', n, k);
    hide ArrayHeader, Agree;
    ElemsLocal(s[k..], s'[k..], ArrayHeader(s).v);
  }

  lemma {:induction false} RowValueLocal(s: Bytes, s': Bytes)
    requires ParseRowValue(s).Got? && Agree(s, s', ParseRowValue(s).n)
    ensures ParseRowValue(s') == ParseRowValue(s)
    decreases |s|, 2
  {
    var n := ParseRowValue(s).n;
    AgreeLess(s, s', n, 4);
    assert RowHeader(s') == RowHeader(s);
    AgreeDrop(s, s', n, 4);
    hide RowHeader, Agree;
    ElemsLocal(s[4..], s'[4..], RowHeader(s).v);
  }

  lemma {:induction false} BodyLocal(tc: int, s: Bytes, s': Bytes, at: Place)
    requires ParseBody(tc, s, at).Got? && Agree(s, s', ParseBody(tc, s, at).n)
    ensures ParseBody(tc, s', at) == ParseBody(tc, s, at)
    decreases |s|, 3
  {
    if FixedSize(tc) >= 0 { FixedLocal(tc, s, s'); }
    else if IsText(tc) { TextLocal(tc, s, s'); }
    else if IsBinary(tc) { GetBytesLocal(s, s'); }
    else if tc == BLOB || tc == CLOB { LobLocal(tc == CLOB, s, s', at); }
    else if tc == INTERVAL { IntervalLocal(s, s'); }
    else if tc == ARRAY { ArrayLocal(s, s'); }
    else { RowValueLocal(s, s'); }
  }

  /** A stream that starts with the bytes of one decoded value decodes to that value, whatever follows. */
  lemma {:induction false} ValueLocal(s: Bytes, s': Bytes, at: Place)
    requires ParseValue(s, at).Got? && Agree(s, s', ParseValue(s, at).n)
    ensures ParseValue(s', at) == ParseValue(s, at)
    decreases |s|, 0
  {
    var n := ParseValue(s, at).n;
    AgreeLess(s, s', n, 4);
    assert Get32(s') == Get32(s);
    AgreeDrop(s, s', n, 4);
    hide Get32, Agree;
    BodyLocal(Get32(s).v, s[4..], s'[4..], at);
  }

  lemma {:induction false} ElemsLocal(s: Bytes, s': Bytes, k: nat)
    requires ParseElems(s, k).Got? && Agree(s, s', ParseElems(s, k).n)
    ensures ParseElems(s', k) == ParseElems(s, k)
    decreases |s|, 1, k
  {
    hide ParseValue, Agree;
    if k > 0 {
      var n, m := ParseValue(s, Nested).n, ParseElems(s, k).n;
      AgreeLess(s, s', m, n);
      ValueLocal(s, s', Nested);
      AgreeDrop(s, s', m, n);
      ElemsLocal(s[n..], s'[n..], k - 1);
    }
  }
}
