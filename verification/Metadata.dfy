/** Reading type and column metadata from the stream. */
module Metadata {
  import opened Wire
  import opened Unicode
  import opened Values
  import opened Network
  import opened Transfer
  import opened Strings
  import opened Decoder
  import opened TypeInfos

  // ---- Flat types ----

  method ReadByteAttr(tr: Tr) returns (r: Option<int>)
    requires tr.Valid()
    modifies tr`pos
    ensures tr.Valid()
    ensures var s := old(Unread(tr.State()));
            Reads(old(tr.State()), if |s| < 1 then Fail else Got(ByteAttr(s[0]), 1), tr.State(), r)
  {
    var b := tr.ReadByte();
    if b == None { return None; }
    var v := -1;
    if b.value != 0xff { v := Int8(b.value); }
    return Some(v);
  }

  method ReadNumeric(tr: Tr, info: TypeInfo) returns (r: Option<TypeInfo>)
    requires tr.Valid()
    modifies tr`pos
    ensures tr.Valid()
    ensures var s := old(Unread(tr.State()));
            Reads(old(tr.State()),
                  if |s| < 9 then Fail else Got(info.(precision := Int32(s[..4]), scale := Int32(s[4..8])), 9),
                  tr.State(), r)
  {
    hide Int32;
    ghost var s := Unread(tr.State());
    var precision := tr.ReadInt32();
    if precision == None { return None; }
    assert Unread(tr.State()) == s[4..];
    var scale := tr.ReadInt32();
    if scale == None { return None; }
    assert Unread(tr.State()) == s[8..] && s[4..][..4] == s[4..8];
    var ext := tr.ReadByte();
    if ext == None { return None; }
    return Some(info.(precision := precision.value, scale := scale.value));
  }

  method ReadIntervalType(tr: Tr, info: TypeInfo, fractional: bool) returns (r: Option<TypeInfo>)
    requires tr.Valid()
    modifies tr`pos
    ensures tr.Valid()
    ensures var s := old(Unread(tr.State()));
            var g :=
              if |s| < (if fractional then 2 else 1) then Fail
              else if fractional then Got(info.(precision := ByteAttr(s[0]), scale := ByteAttr(s[1])), 2)
              else Got(info.(precision := ByteAttr(s[0])), 1);
            Reads(old(tr.State()), g, tr.State(), r)
  {
    ghost var s := Unread(tr.State());
    var precision := ReadByteAttr(tr);
    if precision == None { return None; }
    if !fractional { return Some(info.(precision := precision.value)); }
    assert Unread(tr.State()) == s[1..];
    var scale := ReadByteAttr(tr);
    if scale == None { return None; }
    return Some(info.(precision := precision.value, scale := scale.value));
  }

  method SkipGeometry(tr: Tr) returns (ok: bool)
    requires tr.Valid()
    modifies tr`pos
    ensures tr.Valid()
    ensures var s := old(Unread(tr.State()));
            Reads(old(tr.State()),
                  if |s| < 1 || |s| < 1 + GeometrySize(s[0]) then Fail else Got((), 1 + GeometrySize(s[0])), tr.State(),
                  if ok then Some(()) else None)
  {
    ghost var s := Unread(tr.State());
    var kind := tr.ReadByte();
    if kind == None { return false; }
    assert Unread(tr.State()) == s[1..];
    if kind.value == 1 || kind.value == 3 {
      var id := tr.ReadInt16();
      if id == None { return false; }
      assert kind.value == 3 ==> Unread(tr.State()) == s[3..];
    }
    if kind.value == 2 || kind.value == 3 {
      var srid := tr.ReadInt32();
      if srid == None { return false; }
    }
    return true;
  }

  method ReadFlat(tr: Tr, ti: int) returns (r: Option<TypeInfo>)
    requires tr.Valid()
    modifies tr`pos
    ensures tr.Valid() && Reads(old(tr.State()), ParseFlat(ti, old(Unread(tr.State()))), tr.State(), r)
  {
    hide Int32, Int64, ByteAttr, ShapeOf, ValueTypeOf, GeometrySize;
    var vt := ValueTypeOf(ti);
    var info := Plain(vt);
    match ShapeOf(vt)
    case SPrec32 =>
      var p := tr.ReadInt32();
      return if p == None then None else Some(info.(precision := p.value));
    case SPrec64 =>
      var p := tr.ReadInt64();
      return if p == None then None else Some(info.(precision := p.value));
    case SNumeric => r := ReadNumeric(tr, info);
    case SPrecByte =>
      var p := ReadByteAttr(tr);
      return if p == None then None else Some(info.(precision := p.value));
    case SScaleByte =>
      var p := ReadByteAttr(tr);
      return if p == None then None else Some(info.(scale := p.value));
    case SInterval => r := ReadIntervalType(tr, info, HasFractionalSeconds(ti));
    case SGeometry =>
      var ok := SkipGeometry(tr);
      return if ok then Some(info) else None;
    case _ => return Some(info);
  }

  // ---- Nested types ----

  predicate NamesSoFar(s: Bytes, k: nat, i: nat, n: nat) {
    i <= k && n <= |s| && SkipStrings(s, k) == Shift(SkipStrings(s[n..], k - i), n)
  }

  lemma NamesStep(s: Bytes, k: nat, i: nat, n: nat)
    requires NamesSoFar(s, k, i, n) && i < k
    ensures GetString(s[n..]).Fail? ==> SkipStrings(s, k).Fail?
    ensures GetString(s[n..]).Got? ==> NamesSoFar(s, k, i + 1, n + GetString(s[n..]).n)
  {
    hide GetString;
    var g := GetString(s[n..]);
    if g.Got? { assert s[n..][g.n..] == s[n + g.n..]; }
  }

  method SkipEnum(tr: Tr) returns (r: Option<TypeInfo>)
    requires tr.Valid()
    modifies tr`pos
    ensures tr.Valid() && Reads(old(tr.State()), ParseEnum(old(Unread(tr.State()))), tr.State(), r)
  {
    hide GetString, SkipStrings, Int32, NamesSoFar;
    var count := tr.ReadInt32();
    if count == None { return None; }
    ghost var net := tr.State();
    ghost var s, n := Unread(net), 0;
    var k := Count(count.value);
    NamesStart(s, k);
    for i := 0 to k
      invariant tr.Valid() && 0 <= n <= |s| && tr.State() == Take(net, n) && NamesSoFar(s, k, i, n)
    {
      NamesStep(s, k, i, n);
      UnreadTake(net, n);
      var name := ReadString(tr);
      if name == None { return None; }
      n := n + GetString(s[n..]).n;
    }
    NamesDone(s, k, n);
    return Some(Plain(ENUM));
  }

  lemma NamesStart(s: Bytes, k: nat)
    ensures NamesSoFar(s, k, 0, 0)
  {
    assert s[0..] == s;
    hide GetString;
  }

  lemma NamesDone(s: Bytes, k: nat, n: nat)
    requires NamesSoFar(s, k, k, n)
    ensures SkipStrings(s, k) == Got((), n)
  {
    hide GetString;
  }

  predicate FieldsSoFar(s: Bytes, k: nat, i: nat, n: nat) {
    i <= k && n <= |s| && SkipFields(s, k) == Shift(SkipFields(s[n..], k - i), n)
  }

  lemma FieldsStart(s: Bytes, k: nat)
    ensures FieldsSoFar(s, k, 0, 0)
  {
    assert s[0..] == s;
    hide GetString, ParseType;
  }

  lemma FieldsStep(s: Bytes, k: nat, i: nat, n: nat)
    requires FieldsSoFar(s, k, i, n) && i < k
    ensures var g := GetString(s[n..]);
            && (g.Fail? ==> SkipFields(s, k).Fail?)
            && (g.Got? ==> var h := ParseType(s[n + g.n..]);
                           && (h.Fail? ==> SkipFields(s, k).Fail?)
                           && (h.Got? ==> FieldsSoFar(s, k, i + 1, n + g.n + h.n)))
  {
    hide GetString, ParseType;
    var g := GetString(s[n..]);
    if g.Got? {
      assert s[n..][g.n..] == s[n + g.n..];
      var h := ParseType(s[n + g.n..]);
      if h.Got? { assert s[n..][g.n + h.n..] == s[n + g.n + h.n..]; }
    }
  }

  lemma FieldsDone(s: Bytes, k: nat, n: nat)
    requires FieldsSoFar(s, k, k, n)
    ensures SkipFields(s, k) == Got((), n)
  {
    hide GetString, ParseType;
  }

  method SkipRowType(tr: Tr) returns (r: Option<TypeInfo>)
    requires tr.Valid()
    modifies tr`pos
    ensures tr.Valid() && Reads(old(tr.State()), ParseRowType(old(Unread(tr.State()))), tr.State(), r)
    decreases |tr.input| - tr.pos, 2
  {
    hide GetString, SkipFields, ParseType, Int32, FieldsSoFar;
    var count := tr.ReadInt32();
    if count == None { return None; }
    ghost var net := tr.State();
    ghost var s, n := Unread(net), 0;
    var k := Count(count.value);
    FieldsStart(s, k);
    for i := 0 to k
      invariant tr.Valid() && 0 <= n <= |s| && tr.State() == Take(net, n) && FieldsSoFar(s, k, i, n)
    {
      FieldsStep(s, k, i, n);
      UnreadTake(net, n);
      var name := ReadString(tr);
      if name == None { return None; }
      ghost var m := n + GetString(s[n..]).n;
      UnreadTake(net, m);
      var info := ReadTypeInfo(tr);
      if info == None { return None; }
      n := m + ParseType(s[m..]).n;
    }
    FieldsDone(s, k, n);
    return Some(Plain(ROW));
  }

  method ReadArrayType(tr: Tr) returns (r: Option<TypeInfo>)
    requires tr.Valid()
    modifies tr`pos
    ensures tr.Valid() && Reads(old(tr.State()), ParseArrayType(old(Unread(tr.State()))), tr.State(), r)
    decreases |tr.input| - tr.pos, 2
  {
    hide ParseType, Int32;
    ghost var net := tr.State();
    var precision := tr.ReadInt32();
    if precision == None { return None; }
    UnreadTake(net, 4);
    var elem := ReadTypeInfo(tr);
    return if elem == None then None else Some(Plain(ARRAY).(precision := precision.value, ext := Some(elem.value)));
  }

  /** One type frame; recursion follows the nesting and ends on every finite stream. */
  method ReadTypeInfo(tr: Tr) returns (r: Option<TypeInfo>)
    requires tr.Valid()
    modifies tr`pos
    ensures tr.Valid() && Reads(old(tr.State()), ParseType(old(Unread(tr.State()))), tr.State(), r)
    decreases |tr.input| - tr.pos, 0
  {
    hide ParseFlat, ParseArrayType, ParseRowType, ParseEnum, Int32, ShapeOf, ValueTypeOf;
    ghost var net := tr.State();
    var ti := tr.ReadInt32();
    if ti == None { return None; }
    UnreadTake(net, 4);
    ghost var t := Unread(tr.State());
    match ShapeOf(ValueTypeOf(ti.value)) {
      case SArray => r := ReadArrayType(tr);
      case SRow => r := SkipRowType(tr);
      case SEnum => r := SkipEnum(tr);
      case _ => r := ReadFlat(tr, ti.value);
    }
    ReadsShift(net, 4, ParseAttrs(ti.value, t), tr.State(), r);
  }

  // ---- Columns ----

  predicate StringsSoFar(s: Bytes, k: nat, ts: seq<Bytes>, n: nat) {
    && |ts| <= k && n <= |s|
    && GetStrings(s, k) == (match GetStrings(s[n..], k - |ts|) case Fail => Fail case Got(us, m) => Got(ts + us, n + m))
  }

  lemma StringsStart(s: Bytes, k: nat)
    ensures StringsSoFar(s, k, [], 0)
  {
    assert s[0..] == s;
    hide GetString;
    if GetStrings(s, k).Got? { assert [] + GetStrings(s, k).v == GetStrings(s, k).v; }
  }

  lemma StringsStep(s: Bytes, k: nat, ts: seq<Bytes>, n: nat)
    requires StringsSoFar(s, k, ts, n) && |ts| < k
    ensures GetString(s[n..]).Fail? ==> GetStrings(s, k).Fail?
    ensures GetString(s[n..]).Got? ==> StringsSoFar(s, k, ts + [OrEmpty(GetString(s[n..]).v)], n + GetString(s[n..]).n)
  {
    hide GetString, OrEmpty;
    var g := GetString(s[n..]);
    if g.Got? {
      assert s[n..][g.n..] == s[n + g.n..];
      var h := GetStrings(s[n + g.n..], k - |ts| - 1);
      if h.Got? { assert ts + ([OrEmpty(g.v)] + h.v) == ts + [OrEmpty(g.v)] + h.v; }
    }
  }

  lemma StringsDone(s: Bytes, k: nat, ts: seq<Bytes>, n: nat)
    requires StringsSoFar(s, k, ts, n) && |ts| == k
    ensures GetStrings(s, k) == Got(ts, n)
  {
    assert ts + [] == ts;
    hide GetString;
  }

  /** Consecutive strings, null as empty. */
  method ReadStrings(tr: Tr, k: nat) returns (r: Option<seq<Bytes>>)
    requires tr.Valid()
    modifies tr`pos
    ensures tr.Valid() && Reads(old(tr.State()), GetStrings(old(Unread(tr.State())), k), tr.State(), r)
  {
    hide GetString, GetStrings, StringsSoFar, OrEmpty;
    ghost var net := tr.State();
    ghost var s, n := Unread(net), 0;
    var ts: seq<Bytes> := [];
    StringsStart(s, k);
    for i := 0 to k
      invariant tr.Valid() && 0 <= n <= |s| && tr.State() == Take(net, n) && |ts| == i && StringsSoFar(s, k, ts, n)
    {
      StringsStep(s, k, ts, n);
      UnreadTake(net, n);
      var t := ReadString(tr);
      if t == None { return None; }
      ts := ts + [OrEmpty(t.value)];
      n := n + GetString(s[n..]).n;
    }
    StringsDone(s, k, ts, n);
    return Some(ts);
  }

  method ReadFlags(tr: Tr, ns: seq<Bytes>, info: TypeInfo) returns (r: Option<Column>)
    requires tr.Valid() && |ns| == 4
    modifies tr`pos
    ensures tr.Valid() && Reads(old(tr.State()), ParseFlags(ns, info, old(Unread(tr.State()))), tr.State(), r)
  {
    hide Int32;
    ghost var s := Unread(tr.State());
    var identity := tr.ReadByte();
    if identity == None { return None; }
    assert Unread(tr.State()) == s[1..];
    var nullable := tr.ReadInt32();
    if nullable == None { return None; }
    assert s[1..][..4] == s[1..5];
    return Some(Column(ns[0], ns[1], ns[2], ns[3], info.(nullable := nullable.value), identity.value != 0));
  }

  method ReadTyped(tr: Tr, ns: seq<Bytes>) returns (r: Option<Column>)
    requires tr.Valid() && |ns| == 4
    modifies tr`pos
    ensures tr.Valid() && Reads(old(tr.State()), ParseTyped(ns, old(Unread(tr.State()))), tr.State(), r)
  {
    hide ParseType, ParseFlags;
    ghost var net := tr.State();
    var info := ReadTypeInfo(tr);
    if info == None { return None; }
    ghost var n := ParseType(Unread(net)).n;
    UnreadTake(net, n);
    ghost var t := Unread(tr.State());
    r := ReadFlags(tr, ns, info.value);
    ReadsShift(net, n, ParseFlags(ns, info.value, t), tr.State(), r);
  }

  method ReadColumn(tr: Tr) returns (r: Option<Column>)
    requires tr.Valid()
    modifies tr`pos
    ensures tr.Valid() && Reads(old(tr.State()), ParseColumn(old(Unread(tr.State()))), tr.State(), r)
  {
    hide GetStrings, ParseTyped;
    ghost var net := tr.State();
    var names := ReadStrings(tr, 4);
    if names == None { return None; }
    ghost var n := GetStrings(Unread(net), 4).n;
    UnreadTake(net, n);
    ghost var t := Unread(tr.State());
    r := ReadTyped(tr, names.value);
    ReadsShift(net, n, ParseTyped(names.value, t), tr.State(), r);
  }

  predicate ColumnsSoFar(s: Bytes, k: nat, cs: seq<Column>, n: nat) {
    && |cs| <= k && n <= |s|
    && ParseColumns(s, k) ==
       (match ParseColumns(s[n..], k - |cs|) case Fail => Fail case Got(ds, m) => Got(cs + ds, n + m))
  }

  lemma ColumnsStart(s: Bytes, k: nat)
    ensures ColumnsSoFar(s, k, [], 0)
  {
    assert s[0..] == s;
    hide ParseColumn;
    if ParseColumns(s, k).Got? { assert [] + ParseColumns(s, k).v == ParseColumns(s, k).v; }
  }

  lemma ColumnsStep(s: Bytes, k: nat, cs: seq<Column>, n: nat)
    requires ColumnsSoFar(s, k, cs, n) && |cs| < k
    ensures ParseColumn(s[n..]).Fail? ==> ParseColumns(s, k).Fail?
    ensures ParseColumn(s[n..]).Got? ==> ColumnsSoFar(s, k, cs + [ParseColumn(s[n..]).v], n + ParseColumn(s[n..]).n)
  {
    hide ParseColumn;
    var g := ParseColumn(s[n..]);
    if g.Got? {
      assert s[n..][g.n..] == s[n + g.n..];
      var h := ParseColumns(s[n + g.n..], k - |cs| - 1);
      if h.Got? { assert cs + ([g.v] + h.v) == cs + [g.v] + h.v; }
    }
  }

  lemma ColumnsDone(s: Bytes, k: nat, cs: seq<Column>, n: nat)
    requires ColumnsSoFar(s, k, cs, n) && |cs| == k
    ensures ParseColumns(s, k) == Got(cs, n)
  {
    assert cs + [] == cs;
    hide ParseColumn;
  }

  /** Column metadata of a result. */
  method ReadResultMeta(tr: Tr, count: int32) returns (r: Option<seq<Column>>)
    requires tr.Valid()
    modifies tr`pos
    ensures tr.Valid() && Reads(old(tr.State()), ParseMeta(count, old(Unread(tr.State()))), tr.State(), r)
  {
    hide ParseColumn, ParseColumns, ColumnsSoFar;
    if count < 0 || count > MAX_COLLECTION { return None; }
    ghost var net := tr.State();
    ghost var s, n := Unread(net), 0;
    var cs: seq<Column> := [];
    ColumnsStart(s, count);
    for i := 0 to count
      invariant tr.Valid() && 0 <= n <= |s| && tr.State() == Take(net, n) && |cs| == i && ColumnsSoFar(s, count, cs, n)
    {
      ColumnsStep(s, count, cs, n);
      UnreadTake(net, n);
      var c := ReadColumn(tr);
      if c == None { return None; }
      cs := cs + [c.value];
      n := n + ParseColumn(s[n..]).n;
    }
    ColumnsDone(s, count, cs, n);
    return Some(cs);
  }
}
