/**
  * Type and column metadata frames: nested type trees, what the driver keeps of them, and why the frames delimit
  * themselves.
  */
module TypeInfos {
  import opened Wire
  import opened Unicode
  import opened Values
  import Interval

  /** What the driver keeps of a type frame. */
  datatype TypeInfo = TypeInfo(valueType: int, precision: int, scale: int, nullable: int, ext: Option<TypeInfo>)

  function Plain(vt: int): TypeInfo { TypeInfo(vt, -1, -1, 0, None) }

  /** Wire type identifiers to value types; unknown identifiers count as NULL. */
  function ValueTypeOf(ti: int): int {
    if 1 <= ti <= 17 || 19 <= ti <= 22 || 24 <= ti <= 25 then ti
    else if 26 <= ti <= 38 then INTERVAL
    else if ti == 39 then ROW
    else if ti == 40 then JSON
    else if ti == 41 then TIME_TZ
    else if ti == 42 then BINARY
    else if ti == 43 then DECFLOAT
    else NULL
  }

  predicate HasFractionalSeconds(ti: int) { ti == 31 || ti == 35 || ti == 37 || ti == 38 }

  datatype Shape = SNone | SPrec32 | SPrec64 | SNumeric | SPrecByte | SScaleByte | SInterval | SArray | SRow | SEnum
    | SGeometry

  /** The attributes that follow the identifier. */
  function ShapeOf(vt: int): Shape {
    if vt == CHAR || vt == VARCHAR || vt == VARCHAR_IGNORECASE || vt == BINARY || vt == VARBINARY ||
       vt == DECFLOAT || vt == JAVA_OBJECT || vt == JSON then SPrec32
    else if vt == BLOB || vt == CLOB then SPrec64
    else if vt == NUMERIC then SNumeric
    else if vt == REAL || vt == DOUBLE then SPrecByte
    else if vt == TIME || vt == TIME_TZ || vt == TIMESTAMP || vt == TIMESTAMP_TZ then SScaleByte
    else if vt == INTERVAL then SInterval
    else if vt == ARRAY then SArray
    else if vt == ROW then SRow
    else if vt == ENUM then SEnum
    else if vt == GEOMETRY then SGeometry
    else SNone
  }

  // ---- Decoding ----

  /** An attribute byte; 0xFF leaves the default. */
  function ByteAttr(b: byte): int {
    if b != 0xff then Int8(b) else -1
  }

  function GeometrySize(kind: byte): nat {
    if kind == 1 then 2 else if kind == 2 then 4 else if kind == 3 then 6 else 0
  }

  /** Attributes of the types without nested frames. */
  function ParseFlat(ti: int, s: Bytes): (g: Got<TypeInfo>)
    ensures g.Got? ==> g.n <= |s|
  {
    var vt := ValueTypeOf(ti);
    var info := Plain(vt);
    match ShapeOf(vt)
    case SPrec32 => if |s| < 4 then Fail else Got(info.(precision := Int32(s[..4])), 4)
    case SPrec64 => if |s| < 8 then Fail else Got(info.(precision := Int64(s[..8])), 8)
    case SNumeric => if |s| < 9 then Fail else Got(info.(precision := Int32(s[..4]), scale := Int32(s[4..8])), 9)
    case SPrecByte => if |s| < 1 then Fail else Got(info.(precision := ByteAttr(s[0])), 1)
    case SScaleByte => if |s| < 1 then Fail else Got(info.(scale := ByteAttr(s[0])), 1)
    case SInterval =>
      if HasFractionalSeconds(ti) then
        if |s| < 2 then Fail else Got(info.(precision := ByteAttr(s[0]), scale := ByteAttr(s[1])), 2)
      else if |s| < 1 then Fail else Got(info.(precision := ByteAttr(s[0])), 1)
    case SGeometry =>
      if |s| < 1 || |s| < 1 + GeometrySize(s[0]) then Fail else Got(info, 1 + GeometrySize(s[0]))
    case _ => Got(info, 0)
  }

  function SkipStrings(s: Bytes, k: nat): (g: Got<()>)
    ensures g.Got? ==> g.n <= |s|
  {
    if k == 0 then Got((), 0) else
      match GetString(s)
      case Fail => Fail
      case Got(_, n) => Shift(SkipStrings(s[n..], k - 1), n)
  }

  function Count(len: int): nat { if len < 0 then 0 else len }

  /** Enumerators are read and dropped. */
  function ParseEnum(s: Bytes): (g: Got<TypeInfo>)
    ensures g.Got? ==> g.n <= |s|
  {
    match Get32(s)
    case Fail => Fail
    case Got(len, _) =>
      match SkipStrings(s[4..], Count(len))
      case Fail => Fail
      case Got(_, n) => Got(Plain(ENUM), 4 + n)
  }

  /** Field names and types are read and dropped. */
  function ParseRowType(s: Bytes): (g: Got<TypeInfo>)
    ensures g.Got? ==> g.n <= |s|
    decreases |s|, 2
  {
    match Get32(s)
    case Fail => Fail
    case Got(len, _) =>
      match SkipFields(s[4..], Count(len))
      case Fail => Fail
      case Got(_, n) => Got(Plain(ROW), 4 + n)
  }

  function ParseArrayType(s: Bytes): (g: Got<TypeInfo>)
    ensures g.Got? ==> g.n <= |s|
    decreases |s|, 2
  {
    if |s| < 4 then Fail else
      match ParseType(s[4..])
      case Fail => Fail
      case Got(elem, n) => Got(Plain(ARRAY).(precision := Int32(s[..4]), ext := Some(elem)), 4 + n)
  }

  function ParseAttrs(ti: int, s: Bytes): (g: Got<TypeInfo>)
    ensures g.Got? ==> g.n <= |s|
    decreases |s|, 3
  {
    match ShapeOf(ValueTypeOf(ti))
    case SArray => ParseArrayType(s)
    case SRow => ParseRowType(s)
    case SEnum => ParseEnum(s)
    case _ => ParseFlat(ti, s)
  }

  /** Reads one type frame; it terminates on every stream and takes at least four bytes. */
  function ParseType(s: Bytes): (g: Got<TypeInfo>)
    ensures g.Got? ==> 4 <= g.n <= |s|
    decreases |s|, 0
  {
    match Get32(s)
    case Fail => Fail
    case Got(ti, _) => Shift(ParseAttrs(ti, s[4..]), 4)
  }

  function SkipFields(s: Bytes, k: nat): (g: Got<()>)
    ensures g.Got? ==> g.n <= |s|
    decreases |s|, 1, k
  {
    if k == 0 then Got((), 0) else
      match GetString(s)
      case Fail => Fail
      case Got(_, n) =>
        match ParseType(s[n..])
        case Fail => Fail
        case Got(_, m) => Shift(SkipFields(s[n + m..], k - 1), n + m)
  }

  // ---- Type trees ----

  type tiny = x: int | -128 <= x < 128

  /** What follows the tag of a geometry type: nothing, a type, a spatial reference, or both. */
  datatype Detail = NoDetail(tag: byte) | Kind(kind: int16) | Srid(srid: int32) | KindAndSrid(kind: int16, srid: int32)

  /** A type without nested types, with its attributes. -1 stands for an attribute that is not set. */
  datatype Flat =
    | TNull | TBoolean | TTinyint | TSmallint | TInteger | TBigint | TDate | TUuid
    | TVarbinary(length: int32) | TVarchar(length: int32) | TVarcharIgnoreCase(length: int32)
    | TJavaObject(length: int32) | TChar(length: int32) | TJson(length: int32) | TBinary(length: int32)
    | TDecfloat(digits: int32)
    | TBlob(size: int64) | TClob(size: int64)
    | TNumeric(digits: int32, decimals: int32, extended: byte)
    | TReal(bits: tiny) | TDouble(bits: tiny)
    | TTime(fraction: tiny) | TTimestamp(fraction: tiny) | TTimestampTZ(fraction: tiny) | TTimeTZ(fraction: tiny)
    | TInterval(q: Interval.Qualifier, leading: tiny, second: Option<tiny>)
    | TGeometry(detail: Detail)
    | TOther(ti: int32)

  /** A type as the server describes it, with everything the driver drops. */
  datatype TypeTree =
    | TFlat(flat: Flat)
    | TArray(length: int32, elem: TypeTree)
    | TRow(fields: seq<Field>)
    | TEnum(names: seq<JavaString>)

  datatype Field = Field(name: JavaString, tree: TypeTree)

  /** Only the interval types with seconds have a second attribute; the other identifiers are those no type has. */
  predicate FlatOk(f: Flat) {
    match f
    case TInterval(q, _, second) =>
      !q.Unknown? && (second.Some? <==> q.Second? || q.DayToSecond? || q.HourToSecond? || q.MinuteToSecond?)
    case TGeometry(NoDetail(tag)) => tag == 0 || tag > 3
    case TOther(ti) => ti < 0 || ti == 18 || ti == 23 || ti > 43
    case _ => true
  }

  /** The identifier of a type on the wire. */
  function FlatId(f: Flat): int32 {
    match f
    case TNull => 0 case TBoolean => 1 case TTinyint => 2 case TSmallint => 3 case TInteger => 4 case TBigint => 5
    case TNumeric(_, _, _) => 6 case TDouble(_) => 7 case TReal(_) => 8 case TTime(_) => 9 case TDate => 10
    case TTimestamp(_) => 11 case TVarbinary(_) => 12 case TVarchar(_) => 13 case TVarcharIgnoreCase(_) => 14
    case TBlob(_) => 15 case TClob(_) => 16 case TJavaObject(_) => 19 case TUuid => 20 case TChar(_) => 21
    case TGeometry(_) => 22 case TTimestampTZ(_) => 24
    case TInterval(q, _, _) => IntervalId(q)
    case TJson(_) => 40 case TTimeTZ(_) => 41 case TBinary(_) => 42 case TDecfloat(_) => 43
    case TOther(ti) => ti
  }

  function IntervalId(q: Interval.Qualifier): int32 {
    match q
    case Year => 26 case Month => 27 case Day => 28 case Hour => 29 case Minute => 30 case Second => 31
    case YearToMonth => 32 case DayToHour => 33 case DayToMinute => 34 case DayToSecond => 35
    case HourToMinute => 36 case HourToSecond => 37 case MinuteToSecond => 38 case Unknown => -1
  }

  function DetailBytes(d: Detail): Bytes {
    match d
    case NoDetail(tag) => [tag]
    case Kind(kind) => [1] + Put16(kind)
    case Srid(srid) => [2] + Put32(srid)
    case KindAndSrid(kind, srid) => [3] + (Put16(kind) + Put32(srid))
  }

  /** The attributes after the identifier. */
  function FlatBytes(f: Flat): Bytes {
    match f
    case TVarbinary(n) => Put32(n) case TVarchar(n) => Put32(n) case TVarcharIgnoreCase(n) => Put32(n)
    case TJavaObject(n) => Put32(n) case TChar(n) => Put32(n) case TJson(n) => Put32(n) case TBinary(n) => Put32(n)
    case TDecfloat(n) => Put32(n)
    case TBlob(n) => Put64(n) case TClob(n) => Put64(n)
    case TNumeric(p, sc, ext) => Put32(p) + (Put32(sc) + [ext])
    case TReal(x) => [x % 256] case TDouble(x) => [x % 256]
    case TTime(x) => [x % 256] case TTimestamp(x) => [x % 256] case TTimestampTZ(x) => [x % 256]
    case TTimeTZ(x) => [x % 256]
    case TInterval(_, x, second) => if second.Some? then [x % 256, second.value % 256] else [x % 256]
    case TGeometry(d) => DetailBytes(d)
    case _ => []
  }

  /** Value type, precision, scale: what the driver must know of the type. */
  function Known(vt: int, precision: int, scale: int): TypeInfo { TypeInfo(vt, precision, scale, 0, None) }

  function FlatInfo(f: Flat): TypeInfo {
    match f
    case TNull => Known(0, -1, -1) case TBoolean => Known(1, -1, -1) case TTinyint => Known(2, -1, -1)
    case TSmallint => Known(3, -1, -1) case TInteger => Known(4, -1, -1) case TBigint => Known(5, -1, -1)
    case TNumeric(p, sc, _) => Known(6, p, sc)
    case TDouble(x) => Known(7, x, -1) case TReal(x) => Known(8, x, -1)
    case TTime(x) => Known(9, -1, x) case TDate => Known(10, -1, -1) case TTimestamp(x) => Known(11, -1, x)
    case TVarbinary(n) => Known(12, n, -1) case TVarchar(n) => Known(13, n, -1)
    case TVarcharIgnoreCase(n) => Known(14, n, -1)
    case TBlob(n) => Known(15, n, -1) case TClob(n) => Known(16, n, -1)
    case TJavaObject(n) => Known(19, n, -1) case TUuid => Known(20, -1, -1) case TChar(n) => Known(21, n, -1)
    case TGeometry(_) => Known(22, -1, -1) case TTimestampTZ(x) => Known(24, -1, x)
    case TInterval(_, x, second) => Known(26, x, if second.Some? then second.value else -1)
    case TJson(n) => Known(28, n, -1) case TTimeTZ(x) => Known(29, -1, x) case TBinary(n) => Known(30, n, -1)
    case TDecfloat(n) => Known(31, n, -1)
    case TOther(_) => Known(0, -1, -1)
  }

  predicate TreeOk(t: TypeTree) {
    match t
    case TFlat(f) => FlatOk(f)
    case TArray(_, elem) => TreeOk(elem)
    case TRow(fs) => |fs| <= MAX_INT32 && forall i | 0 <= i < |fs| :: TreeOk(fs[i].tree)
    case TEnum(names) => |names| <= MAX_INT32
  }

  predicate FieldsOk(fs: seq<Field>) {
    forall i | 0 <= i < |fs| :: TreeOk(fs[i].tree)
  }

  function PutNames(us: seq<JavaString>): Bytes {
    if us == [] then [] else PutText(us[0]) + PutNames(us[1..])
  }

  function TypeBytes(t: TypeTree): Bytes
    requires TreeOk(t)
    decreases t, 0
  {
    match t
    case TFlat(f) => Put32(FlatId(f)) + FlatBytes(f)
    case TArray(len, elem) => Put32(17) + (Put32(len) + TypeBytes(elem))
    case TRow(fs) => Put32(39) + (Put32(|fs|) + FieldBytes(fs))
    case TEnum(names) => Put32(25) + (Put32(|names|) + PutNames(names))
  }

  function FieldBytes(fs: seq<Field>): Bytes
    requires FieldsOk(fs)
    decreases fs, 0
  {
    if fs == [] then [] else
      var f := fs[0];
      assert f.tree < f;
      PutText(f.name) + (TypeBytes(f.tree) + FieldBytes(fs[1..]))
  }

  /** The tree without its ROW fields, enumerators and geometry constraints. */
  function Erase(t: TypeTree): TypeInfo
    requires TreeOk(t)
  {
    match t
    case TFlat(f) => FlatInfo(f)
    case TArray(len, elem) => TypeInfo(17, len, -1, 0, Some(Erase(elem)))
    case TRow(_) => Known(27, -1, -1)
    case TEnum(_) => Known(25, -1, -1)
  }

  // ---- Self-delimiting frames ----

  lemma {:induction false} NamesSkipped(us: seq<JavaString>, t: Bytes)
    ensures SkipStrings(PutNames(us) + t, |us|) == Got((), |PutNames(us)|)
  {
    hide *;
    if us != [] {
      NamesCons(us);
      TextDecodes(us[0], PutNames(us[1..]) + t);
      NamesSkipped(us[1..], t);
      NameStep(PutText(us[0]), PutNames(us[1..]), t, |us| - 1);
      ShiftGot(|PutNames(us[1..])|, |PutText(us[0])|);
    } else {
      NoNames(us, t);
    }
  }

  lemma NoNames(us: seq<JavaString>, t: Bytes)
    requires us == []
    ensures SkipStrings(PutNames(us) + t, |us|) == Got((), |PutNames(us)|)
  {
  }

  lemma NamesCons(us: seq<JavaString>)
    requires us != []
    ensures |us[1..]| == |us| - 1
    ensures PutNames(us) == PutText(us[0]) + PutNames(us[1..])
  {
  }

  lemma NameStep(name: Bytes, rest: Bytes, t: Bytes, k: nat)
    requires GetString(name + (rest + t)).Got? && GetString(name + (rest + t)).n == |name|
    ensures SkipStrings((name + rest) + t, k + 1) == Shift(SkipStrings(rest + t, k), |name|)
  {
    hide GetString;
    Cut(name, rest, t);
  }

  // ---- One lemma per layout ----

  lemma TinyRead(x: tiny)
    ensures 0 <= x % 256 < 256 && ByteAttr(x % 256) == x
  {
  }

  lemma BareRead(ti: int, t: Bytes)
    requires ShapeOf(ValueTypeOf(ti)).SNone?
    ensures ParseAttrs(ti, t) == ParseFlat(ti, t) == Got(TypeInfo(ValueTypeOf(ti), -1, -1, 0, None), 0)
  {
    hide ShapeOf, ValueTypeOf, ParseArrayType, ParseRowType, ParseEnum;
  }

  lemma NothingRead(f: Flat, t: Bytes)
    requires f.TNull? || f.TBoolean? || f.TTinyint? || f.TSmallint? || f.TInteger? || f.TBigint? || f.TDate? || f.TUuid?
             || f.TOther?
    requires FlatOk(f)
    ensures FlatRead(f, t)
  {
    hide ParseAttrs, ParseFlat;
    BareRead(FlatId(f), t);
    assert [] + t == t;
  }

  predicate FlatRead(f: Flat, t: Bytes) {
    var ti, s := FlatId(f), FlatBytes(f) + t;
    ParseAttrs(ti, s) == ParseFlat(ti, s) == Got(FlatInfo(f), |FlatBytes(f)|)
  }

  /** One 32-bit attribute, whatever the type that has it. */
  lemma WordRead(ti: int, n: int32, t: Bytes)
    requires ShapeOf(ValueTypeOf(ti)).SPrec32?
    ensures ParseAttrs(ti, Put32(n) + t) == ParseFlat(ti, Put32(n) + t) ==
            Got(TypeInfo(ValueTypeOf(ti), n, -1, 0, None), 4)
  {
    Int32Put(n);
    assert |Put32(n)| == 4;
    hide Put32, Int32, ShapeOf, ValueTypeOf, ParseArrayType, ParseRowType, ParseEnum;
    assert (Put32(n) + t)[..4] == Put32(n);
  }

  lemma WordsRead(f: Flat, t: Bytes)
    requires f.TVarbinary? || f.TVarchar? || f.TVarcharIgnoreCase? || f.TJavaObject? || f.TChar? || f.TJson?
             || f.TBinary? || f.TDecfloat?
    ensures FlatRead(f, t)
  {
    var n: int32 := if f.TDecfloat? then f.digits else f.length;
    hide ParseAttrs, ParseFlat;
    assert |Put32(n)| == 4;
    hide Put32;
    WordRead(FlatId(f), n, t);
  }

  /** One 64-bit attribute. */
  lemma LongRead(ti: int, n: int64, t: Bytes)
    requires ShapeOf(ValueTypeOf(ti)).SPrec64?
    ensures ParseAttrs(ti, Put64(n) + t) == ParseFlat(ti, Put64(n) + t) ==
            Got(TypeInfo(ValueTypeOf(ti), n, -1, 0, None), 8)
  {
    Int64Put(n);
    assert |Put64(n)| == 8;
    hide Put64, Int64, ShapeOf, ValueTypeOf, ParseArrayType, ParseRowType, ParseEnum;
    assert (Put64(n) + t)[..8] == Put64(n);
  }

  lemma LobsRead(f: Flat, t: Bytes)
    requires f.TBlob? || f.TClob?
    ensures FlatRead(f, t)
  {
    hide ParseAttrs, ParseFlat;
    assert |Put64(f.size)| == 8;
    hide Put64;
    LongRead(FlatId(f), f.size, t);
  }

  lemma NumericRead(p: int32, sc: int32, ext: byte, t: Bytes)
    ensures FlatRead(TNumeric(p, sc, ext), t)
  {
    var flag: Bytes := [ext];
    Int32Put(p);
    Int32Put(sc);
    hide Put32, Int32;
    Cut(Put32(p), Put32(sc) + flag, t);
    Cut(Put32(sc), flag, t);
    var s := (Put32(p) + (Put32(sc) + flag)) + t;
    assert s[4..8] == s[4..][..4];
  }

  /** One attribute byte: a precision or a scale. */
  lemma ByteRead(ti: int, x: tiny, t: Bytes)
    requires ShapeOf(ValueTypeOf(ti)).SPrecByte? || ShapeOf(ValueTypeOf(ti)).SScaleByte?
    ensures ParseAttrs(ti, [x % 256] + t) == ParseFlat(ti, [x % 256] + t) ==
            Got(if ShapeOf(ValueTypeOf(ti)).SPrecByte? then TypeInfo(ValueTypeOf(ti), x, -1, 0, None)
                else TypeInfo(ValueTypeOf(ti), -1, x, 0, None), 1)
  {
    TinyRead(x);
    hide ByteAttr, ShapeOf, ValueTypeOf, ParseArrayType, ParseRowType, ParseEnum;
  }

  lemma BytesRead(f: Flat, t: Bytes)
    requires f.TReal? || f.TDouble? || f.TTime? || f.TTimestamp? || f.TTimestampTZ? || f.TTimeTZ?
    ensures FlatRead(f, t)
  {
    var x: tiny := if f.TReal? || f.TDouble? then f.bits else f.fraction;
    hide ParseAttrs, ParseFlat;
    ByteRead(FlatId(f), x, t);
  }

  lemma IntervalsRead(q: Interval.Qualifier, x: tiny, second: Option<tiny>, t: Bytes)
    requires FlatOk(TInterval(q, x, second))
    ensures FlatRead(TInterval(q, x, second), t)
  {
    TinyRead(x);
    if second.Some? { TinyRead(second.value); }
    hide ByteAttr;
  }

  lemma GeometryRead(d: Detail, t: Bytes)
    requires FlatOk(TGeometry(d))
    ensures FlatRead(TGeometry(d), t)
  {
    hide Put16, Put32;
  }

  lemma FlatRoundTrip(f: Flat, t: Bytes)
    requires FlatOk(f)
    ensures FlatRead(f, t)
  {
    hide FlatRead;
    match f
    case TNumeric(p, sc, ext) => NumericRead(p, sc, ext, t);
    case TBlob(_) => LobsRead(f, t);
    case TClob(_) => LobsRead(f, t);
    case TInterval(q, x, second) => IntervalsRead(q, x, second, t);
    case TGeometry(d) => GeometryRead(d, t);
    case TReal(_) => BytesRead(f, t);
    case TDouble(_) => BytesRead(f, t);
    case TTime(_) => BytesRead(f, t);
    case TTimestamp(_) => BytesRead(f, t);
    case TTimestampTZ(_) => BytesRead(f, t);
    case TTimeTZ(_) => BytesRead(f, t);
    case TVarbinary(_) => WordsRead(f, t);
    case TVarchar(_) => WordsRead(f, t);
    case TVarcharIgnoreCase(_) => WordsRead(f, t);
    case TJavaObject(_) => WordsRead(f, t);
    case TChar(_) => WordsRead(f, t);
    case TJson(_) => WordsRead(f, t);
    case TBinary(_) => WordsRead(f, t);
    case TDecfloat(_) => WordsRead(f, t);
    case _ => NothingRead(f, t);
  }

  /**
    * Frames are self-delimiting: every type the server can describe, followed by anything, decodes to its value type,
    * precision and scale and leaves what follows.
    */
  lemma {:induction false} TypeRoundTrip(tree: TypeTree, t: Bytes)
    requires TreeOk(tree)
    ensures ParseType(TypeBytes(tree) + t) == Got(Erase(tree), |TypeBytes(tree)|)
    decreases tree, 0
  {
    match tree
    case TFlat(f) =>
      FlatRoundTrip(f, t);
      TypeSplit(FlatId(f), FlatBytes(f), t);
    case TArray(len, elem) =>
      TypeRoundTrip(elem, t);
      ArrayTypeRound(len, TypeBytes(elem), Erase(elem), t);
      AttrsOf((Put32(len) + TypeBytes(elem)) + t);
      TypeSplit(17, Put32(len) + TypeBytes(elem), t);
    case TEnum(names) =>
      NamesSkipped(names, t);
      CountedEnum(|names|, PutNames(names), t);
      AttrsOf((Put32(|names|) + PutNames(names)) + t);
      TypeSplit(25, Put32(|names|) + PutNames(names), t);
    case TRow(fs) =>
      FieldsSkipped(fs, t);
      CountedFields(|fs|, FieldBytes(fs), t);
      AttrsOf((Put32(|fs|) + FieldBytes(fs)) + t);
      TypeSplit(39, Put32(|fs|) + FieldBytes(fs), t);
  }

  lemma TypeSplit(ti: int32, attrs: Bytes, t: Bytes)
    ensures ParseType((Put32(ti) + attrs) + t) == Shift(ParseAttrs(ti, attrs + t), 4)
  {
    Get32Put(ti, attrs + t);
    hide Put32, Get32, ParseAttrs;
    Cut(Put32(ti), attrs, t);
  }

  lemma ArrayTypeRound(len: int32, elem: Bytes, info: TypeInfo, t: Bytes)
    requires ParseType(elem + t) == Got(info, |elem|)
    ensures ParseArrayType((Put32(len) + elem) + t) ==
            Got(Plain(ARRAY).(precision := len, ext := Some(info)), 4 + |elem|)
  {
    Int32Put(len);
    hide Put32, Int32, ParseType;
    Cut(Put32(len), elem, t);
  }

  lemma AttrsOf(s: Bytes)
    ensures ParseAttrs(17, s) == ParseArrayType(s) && ParseAttrs(25, s) == ParseEnum(s)
            && ParseAttrs(39, s) == ParseRowType(s)
  {
    hide ParseArrayType, ParseEnum, ParseRowType;
    assert ShapeOf(ValueTypeOf(17)) == SArray && ShapeOf(ValueTypeOf(25)) == SEnum && ShapeOf(ValueTypeOf(39)) == SRow;
  }

  lemma CountedEnum(k: nat, names: Bytes, t: Bytes)
    requires k <= MAX_INT32 && SkipStrings(names + t, k) == Got((), |names|)
    ensures ParseEnum((Put32(k) + names) + t) == Got(Plain(ENUM), 4 + |names|)
  {
    Get32Put(k, names + t);
    hide Put32, Get32, SkipStrings;
    Cut(Put32(k), names, t);
  }

  lemma CountedFields(k: nat, fields: Bytes, t: Bytes)
    requires k <= MAX_INT32 && SkipFields(fields + t, k) == Got((), |fields|)
    ensures ParseRowType((Put32(k) + fields) + t) == Got(Plain(ROW), 4 + |fields|)
  {
    Get32Put(k, fields + t);
    hide Put32, Get32, SkipFields;
    Cut(Put32(k), fields, t);
  }

  lemma {:induction false} FieldsSkipped(fs: seq<Field>, t: Bytes)
    requires FieldsOk(fs)
    ensures SkipFields(FieldBytes(fs) + t, |fs|) == Got((), |FieldBytes(fs)|)
    decreases fs, 0
  {
    hide *;
    if fs != [] {
      var f := fs[0];
      FieldsCons(fs);
      TextDecodes(f.name, TypeBytes(f.tree) + (FieldBytes(fs[1..]) + t));
      TypeRoundTrip(f.tree, FieldBytes(fs[1..]) + t);
      FieldsSkipped(fs[1..], t);
      FieldStep(PutText(f.name), TypeBytes(f.tree), FieldBytes(fs[1..]), t, |fs| - 1);
      ShiftGot(|FieldBytes(fs[1..])|, |PutText(f.name)| + |TypeBytes(f.tree)|);
    } else {
      NoFields(fs, t);
    }
  }

  lemma NoFields(fs: seq<Field>, t: Bytes)
    requires fs == [] && FieldsOk(fs)
    ensures SkipFields(FieldBytes(fs) + t, |fs|) == Got((), |FieldBytes(fs)|)
  {
  }

  lemma ShiftGot(n: nat, k: nat)
    ensures Shift(Got((), n), k) == Got((), n + k)
  {
  }

  lemma FieldsCons(fs: seq<Field>)
    requires FieldsOk(fs) && fs != []
    ensures TreeOk(fs[0].tree) && FieldsOk(fs[1..]) && fs[0].tree < fs[0] && |fs[1..]| == |fs| - 1
    ensures FieldBytes(fs) == PutText(fs[0].name) + (TypeBytes(fs[0].tree) + FieldBytes(fs[1..]))
  {
  }

  lemma FieldStep(name: Bytes, tree: Bytes, rest: Bytes, t: Bytes, k: nat)
    requires GetString(name + (tree + (rest + t))).Got? && GetString(name + (tree + (rest + t))).n == |name|
    requires ParseType(tree + (rest + t)).Got? && ParseType(tree + (rest + t)).n == |tree|
    ensures SkipFields((name + (tree + rest)) + t, k + 1) == Shift(SkipFields(rest + t, k), |name| + |tree|)
  {
    hide GetString, ParseType;
    Cut(tree, rest, t);
    Cut(name, tree + rest, t);
    Cut(name, tree, rest + t);
  }

  // ---- Result columns ----

  datatype Column = Column(alias: Bytes, schema: Bytes, table: Bytes, name: Bytes, info: TypeInfo, identity: bool)

  function OrEmpty(o: Option<Bytes>): Bytes { if o.None? then [] else o.value }

  /** Consecutive string frames; null reads as empty. */
  function GetStrings(s: Bytes, k: nat): (g: Got<seq<Bytes>>)
    ensures g.Got? ==> g.n <= |s| && |g.v| == k
  {
    if k == 0 then Got([], 0) else
      match GetString(s)
      case Fail => Fail
      case Got(o, n) =>
        match GetStrings(s[n..], k - 1)
        case Fail => Fail
        case Got(os, m) => Got([OrEmpty(o)] + os, n + m)
  }

  /** Identity flag and nullability, stored with the type. */
  function ParseFlags(names: seq<Bytes>, info: TypeInfo, s: Bytes): (g: Got<Column>)
    requires |names| == 4
    ensures g.Got? ==> g.n == 5 <= |s|
  {
    if |s| < 5 then Fail
    else Got(Column(names[0], names[1], names[2], names[3], info.(nullable := Int32(s[1..5])), s[0] != 0), 5)
  }

  function ParseTyped(names: seq<Bytes>, s: Bytes): (g: Got<Column>)
    requires |names| == 4
    ensures g.Got? ==> 9 <= g.n <= |s|
  {
    match ParseType(s)
    case Fail => Fail
    case Got(info, n) => Shift(ParseFlags(names, info, s[n..]), n)
  }

  function ParseColumn(s: Bytes): (g: Got<Column>)
    ensures g.Got? ==> 9 <= g.n <= |s|
  {
    match GetStrings(s, 4)
    case Fail => Fail
    case Got(names, n) => Shift(ParseTyped(names, s[n..]), n)
  }

  function ParseColumns(s: Bytes, k: nat): (g: Got<seq<Column>>)
    ensures g.Got? ==> g.n <= |s| && |g.v| == k
  {
    if k == 0 then Got([], 0) else
      match ParseColumn(s)
      case Fail => Fail
      case Got(c, n) =>
        match ParseColumns(s[n..], k - 1)
        case Fail => Fail
        case Got(cs, m) => Got([c] + cs, n + m)
  }

  /** Column metadata of a result; a negative or oversized count is refused before anything is read. */
  function ParseMeta(count: int, s: Bytes): (g: Got<seq<Column>>)
    ensures g.Got? ==> g.n <= |s| && |g.v| == count && 0 <= count <= 0x10_0000
  {
    if count < 0 || count > MAX_COLLECTION then Fail else ParseColumns(s, count)
  }

  /** A column as the server describes it. */
  datatype ColumnTree = ColumnTree(alias: JavaString, schema: JavaString, table: JavaString, name: JavaString,
                                   tree: TypeTree, identity: byte, nullable: int32)

  predicate ColumnOk(c: ColumnTree) { TreeOk(c.tree) }

  function ColumnNames(c: ColumnTree): (us: seq<JavaString>)
    ensures |us| == 4
  {
    [c.alias, c.schema, c.table, c.name]
  }

  predicate ColumnsOk(cs: seq<ColumnTree>) {
    forall i | 0 <= i < |cs| :: ColumnOk(cs[i])
  }

  function ColumnBytes(c: ColumnTree): Bytes
    requires ColumnOk(c)
  {
    PutNames(ColumnNames(c)) + (TypeBytes(c.tree) + FlagBytes(c.identity, c.nullable))
  }

  function FlagBytes(identity: byte, nullable: int32): (s: Bytes)
    ensures |s| == 5
  {
    [identity] + Put32(nullable)
  }

  function ColumnsBytes(cs: seq<ColumnTree>): Bytes
    requires ColumnsOk(cs)
  {
    if cs == [] then [] else ColumnBytes(cs[0]) + ColumnsBytes(cs[1..])
  }

  function NameText(u: JavaString): Bytes { OrEmpty(TextOf(u)) }

  function NameTexts(us: seq<JavaString>): (ts: seq<Bytes>)
    ensures |ts| == |us|
  {
    if us == [] then [] else [NameText(us[0])] + NameTexts(us[1..])
  }

  function EraseColumn(c: ColumnTree): Column
    requires ColumnOk(c)
  {
    Column(NameText(c.alias), NameText(c.schema), NameText(c.table), NameText(c.name),
           Erase(c.tree).(nullable := c.nullable), c.identity != 0)
  }

  function EraseColumns(cs: seq<ColumnTree>): (r: seq<Column>)
    requires ColumnsOk(cs)
    ensures |r| == |cs|
  {
    if cs == [] then [] else [EraseColumn(cs[0])] + EraseColumns(cs[1..])
  }

  lemma {:induction false} NamesRead(us: seq<JavaString>, t: Bytes)
    ensures GetStrings(PutNames(us) + t, |us|) == Got(NameTexts(us), |PutNames(us)|)
  {
    hide *;
    if us != [] {
      NamesCons(us);
      TextDecodes(us[0], PutNames(us[1..]) + t);
      NamesRead(us[1..], t);
      ReadStep(us[0], PutText(us[0]), PutNames(us[1..]), t, |us| - 1);
      NameTextsCons(us);
      JoinNames(NameText(us[0]), NameTexts(us[1..]), |PutNames(us[1..])|, |PutText(us[0])|);
    } else {
      NoNamesRead(us, t);
    }
  }

  lemma NoNamesRead(us: seq<JavaString>, t: Bytes)
    requires us == []
    ensures GetStrings(PutNames(us) + t, |us|) == Got(NameTexts(us), |PutNames(us)|)
  {
  }

  function JoinGot<T>(x: T, g: Got<seq<T>>, n: nat): Got<seq<T>> {
    match g case Fail => Fail case Got(xs, m) => Got([x] + xs, n + m)
  }

  lemma JoinNames(x: Bytes, xs: seq<Bytes>, m: nat, n: nat)
    ensures JoinGot(x, Got(xs, m), n) == Got([x] + xs, n + m)
  {
  }

  lemma NameTextsCons(us: seq<JavaString>)
    requires us != []
    ensures NameTexts(us) == [NameText(us[0])] + NameTexts(us[1..])
  {
  }

  lemma ReadStep(u: JavaString, name: Bytes, rest: Bytes, t: Bytes, k: nat)
    requires GetString(name + (rest + t)) == Got(TextOf(u), |name|)
    ensures GetStrings((name + rest) + t, k + 1) == JoinGot(NameText(u), GetStrings(rest + t, k), |name|)
  {
    hide GetString, TextOf;
    Cut(name, rest, t);
  }

  lemma FlagsRead(names: seq<Bytes>, info: TypeInfo, identity: byte, nullable: int32, t: Bytes)
    requires |names| == 4
    ensures ParseFlags(names, info, FlagBytes(identity, nullable) + t) ==
            Got(Column(names[0], names[1], names[2], names[3], info.(nullable := nullable), identity != 0), 5)
  {
    Int32Put(nullable);
    var s := FlagBytes(identity, nullable) + t;
    hide Put32, Int32;
    assert s[0] == identity;
    assert s[1..5] == Put32(nullable);
  }

  lemma ColumnRead(c: ColumnTree, t: Bytes)
    requires ColumnOk(c)
    ensures ParseColumn(ColumnBytes(c) + t) == Got(EraseColumn(c), |ColumnBytes(c)|)
  {
    hide *;
    ColumnIs(c);
    var names := ColumnNames(c);
    var a, b, f := PutNames(names), TypeBytes(c.tree), FlagBytes(c.identity, c.nullable);
    NamesRead(names, b + (f + t));
    TypeRoundTrip(c.tree, f + t);
    FlagsRead(NameTexts(names), Erase(c.tree), c.identity, c.nullable, t);
    TypedRead(NameTexts(names), Erase(c.tree), b, f, t);
    Cut(b, f, t);
    NamedRead(NameTexts(names), a, b + f, t);
    ShiftIs(EraseColumn(c), |b| + 5, |a|);
  }

  lemma ShiftIs<T>(v: T, n: nat, k: nat)
    ensures Shift(Got(v, n), k) == Got(v, n + k)
  {
  }

  lemma ColumnIs(c: ColumnTree)
    requires ColumnOk(c)
    ensures TreeOk(c.tree) && |NameTexts(ColumnNames(c))| == 4 && |FlagBytes(c.identity, c.nullable)| == 5
    ensures ColumnBytes(c) == PutNames(ColumnNames(c)) + (TypeBytes(c.tree) + FlagBytes(c.identity, c.nullable))
    ensures var ts := NameTexts(ColumnNames(c));
            EraseColumn(c) ==
            Column(ts[0], ts[1], ts[2], ts[3], Erase(c.tree).(nullable := c.nullable), c.identity != 0)
  {
    hide PutNames, TypeBytes, FlagBytes, NameText, Erase;
    FourTexts(c.alias, c.schema, c.table, c.name);
  }

  lemma FourTexts(a: JavaString, b: JavaString, c: JavaString, d: JavaString)
    ensures NameTexts([a, b, c, d]) == [NameText(a), NameText(b), NameText(c), NameText(d)]
  {
    hide NameText;
    var us: seq<JavaString> := [a, b, c, d];
    NameTextsCons(us);
    NameTextsCons(us[1..]);
    NameTextsCons(us[2..]);
    NameTextsCons(us[3..]);
    assert us[1..][1..] == us[2..] && us[2..][1..] == us[3..] && us[3..][1..] == [];
    assert NameTexts([]) == [];
    hide NameTexts;
  }

  lemma TypedRead(names: seq<Bytes>, info: TypeInfo, b: Bytes, f: Bytes, t: Bytes)
    requires |names| == 4 && |f| == 5 && ParseType(b + (f + t)) == Got(info, |b|) && ParseFlags(names, info, f + t).Got?
    ensures ParseTyped(names, (b + f) + t) == Got(ParseFlags(names, info, f + t).v, |b| + 5)
  {
    hide ParseType, ParseFlags;
    Cut(b, f, t);
  }

  lemma NamedRead(names: seq<Bytes>, a: Bytes, b: Bytes, t: Bytes)
    requires |names| == 4 && GetStrings(a + (b + t), 4) == Got(names, |a|)
    ensures ParseColumn((a + b) + t) == Shift(ParseTyped(names, b + t), |a|)
  {
    hide GetStrings, ParseTyped;
    Cut(a, b, t);
  }

  lemma ColumnsCons(cs: seq<ColumnTree>)
    requires cs != [] && ColumnsOk(cs)
    ensures ColumnOk(cs[0]) && ColumnsOk(cs[1..]) && |cs[1..]| == |cs| - 1
    ensures ColumnsBytes(cs) == ColumnBytes(cs[0]) + ColumnsBytes(cs[1..])
    ensures EraseColumns(cs) == [EraseColumn(cs[0])] + EraseColumns(cs[1..])
  {
  }

  lemma ColumnStep(col: Bytes, c: Column, rest: Bytes, t: Bytes, k: nat)
    requires ParseColumn(col + (rest + t)) == Got(c, |col|)
    ensures ParseColumns((col + rest) + t, k + 1) == JoinGot(c, ParseColumns(rest + t, k), |col|)
  {
    hide ParseColumn;
    Cut(col, rest, t);
  }

  lemma JoinColumns(x: Column, xs: seq<Column>, m: nat, n: nat)
    ensures JoinGot(x, Got(xs, m), n) == Got([x] + xs, n + m)
  {
  }

  lemma NoColumns(cs: seq<ColumnTree>, t: Bytes)
    requires cs == [] && ColumnsOk(cs)
    ensures ParseColumns(ColumnsBytes(cs) + t, |cs|) == Got(EraseColumns(cs), |ColumnsBytes(cs)|)
  {
  }

  /** Column metadata, followed by anything, decodes to the described columns and leaves what follows. */
  lemma {:induction false} MetaRoundTrip(cs: seq<ColumnTree>, t: Bytes)
    requires ColumnsOk(cs)
    ensures ParseColumns(ColumnsBytes(cs) + t, |cs|) == Got(EraseColumns(cs), |ColumnsBytes(cs)|)
  {
    hide *;
    if cs != [] {
      ColumnsCons(cs);
      ColumnRead(cs[0], ColumnsBytes(cs[1..]) + t);
      MetaRoundTrip(cs[1..], t);
      ColumnStep(ColumnBytes(cs[0]), EraseColumn(cs[0]), ColumnsBytes(cs[1..]), t, |cs| - 1);
      JoinColumns(EraseColumn(cs[0]), EraseColumns(cs[1..]), |ColumnsBytes(cs[1..])|, |ColumnBytes(cs[0])|);
    } else {
      NoColumns(cs, t);
    }
  }
}
