/**
  * The discard rule: a session that is still live after a row fetch has read exactly one complete response.
  * Statuses, error frames, flags and LOB chunks are given by their bytes, apart from the code that parses them. Only
  * the extent of a single value is taken from the decoder: a value frame is what the decoder reads as one value.
  */
module Discard {
  import opened Wire
  import opened Unicode
  import opened Values
  import opened Network
  import opened RowStream
  import Batches
  import TypeInfos

  // ---- Complete responses ----

  function Concat(parts: seq<Bytes>): Bytes {
    if parts == [] then [] else parts[0] + Concat(parts[1..])
  }

  /** Exactly one value frame, nothing before or after it. */
  predicate IsValue(b: Bytes, row: nat, col: nat) {
    ParseValue(b, Cell(row, col)).Got? && ParseValue(b, Cell(row, col)).n == |b|
  }

  /** One value frame per column, from column `col` on. */
  predicate IsRow(cells: seq<Bytes>, row: nat, col: nat, k: nat) {
    |cells| == k - col && forall i | 0 <= i < |cells| :: IsValue(cells[i], row, col + i)
  }

  /** How many of the cells are fetch-on-demand LOB references. */
  function CellRefs(b: Bytes, row: nat, col: nat): nat {
    if IsValue(b, row, col) && ParseValue(b, Cell(row, col)).v.Pending? then 1 else 0
  }

  function RowRefs(cells: seq<Bytes>, row: nat, col: nat): nat {
    if cells == [] then 0 else CellRefs(cells[0], row, col) + RowRefs(cells[1..], row, col + 1)
  }

  function BatchRefs(rows: seq<seq<Bytes>>, base: nat): nat {
    if rows == [] then 0 else RowRefs(rows[0], base, 0) + BatchRefs(rows[1..], base + 1)
  }

  /** How a batch ends: by its count, by the end flag, or by an error frame. */
  datatype Tail = ByCount | ByFlag | ByError(e: ErrorFrame)

  datatype BatchFrame = BatchFrame(rows: seq<seq<Bytes>>, tail: Tail)

  predicate IsBatch(f: BatchFrame, base: nat, k: nat, fetch: int) {
    && (forall i | 0 <= i < |f.rows| :: IsRow(f.rows[i], base + i, 0, k))
    && match f.tail
       case ByCount => |f.rows| == if fetch < 0 then 0 else fetch
       case ByFlag => |f.rows| < fetch
       case ByError(_) => |f.rows| < fetch
  }

  function TailBytes(t: Tail): Bytes {
    match t case ByCount => [] case ByFlag => [0] case ByError(e) => [255] + ErrorBytes(e)
  }

  function BatchBytes(rows: seq<seq<Bytes>>, tail: Tail): Bytes {
    if rows == [] then TailBytes(tail) else [1] + (Concat(rows[0]) + BatchBytes(rows[1..], tail))
  }

  /** A chunk of LOB data: status, length, data. */
  function ChunkBytes(data: Bytes): Bytes { Put32(1) + (EncBE(|data|, 4) + data) }

  /** The answers that make up one LOB: chunks with data, then an empty one. */
  predicate IsLob(chunks: seq<Bytes>) {
    && chunks != []
    && (forall i | 0 <= i < |chunks| :: |chunks[i]| <= CHUNK && (chunks[i] == [] <==> i == |chunks| - 1))
  }

  function LobBytes(chunks: seq<Bytes>): Bytes {
    if chunks == [] then [] else ChunkBytes(chunks[0]) + LobBytes(chunks[1..])
  }

  function LobsBytes(lobs: seq<seq<Bytes>>): Bytes {
    if lobs == [] then [] else LobBytes(lobs[0]) + LobsBytes(lobs[1..])
  }

  predicate AllLobs(lobs: seq<seq<Bytes>>) {
    forall i | 0 <= i < |lobs| :: IsLob(lobs[i])
  }

  // ---- What was read ----

  predicate Extends(a: Net, b: Net) {
    a.input <= b.input && a.pos <= b.pos
  }

  function ReadBetween(a: Net, b: Net): Bytes
    requires Extends(a, b)
  {
    b.input[a.pos..b.pos]
  }

  lemma ReadTake(a: Net, k: nat)
    requires k <= |Unread(a)|
    ensures Extends(a, Take(a, k)) && ReadBetween(a, Take(a, k)) == Unread(a)[..k]
  {
  }

  lemma ReadSend(a: Net, req: Bytes)
    requires Send(a, req).Some?
    ensures Extends(a, Send(a, req).value) && ReadBetween(a, Send(a, req).value) == []
  {
    hide Answer;
  }

  lemma ReadJoin(a: Net, b: Net, c: Net)
    requires Extends(a, b) && Extends(b, c)
    ensures Extends(a, c) && ReadBetween(a, c) == ReadBetween(a, b) + ReadBetween(b, c)
  {
    assert b.input[a.pos..b.pos] == c.input[a.pos..b.pos];
  }

  // ---- A parsed batch is a complete batch ----

  lemma {:induction false} RowFrames(s: Bytes, row: nat, col: nat, k: nat) returns (cells: seq<Bytes>)
    requires col <= k && ParseRow(s, row, col, k).Got?
    ensures IsRow(cells, row, col, k) && Concat(cells) == s[..ParseRow(s, row, col, k).n]
    ensures RowRefs(cells, row, col) == |RowPending(ParseRow(s, row, col, k).v)|
    decreases k - col
  {
    hide *;
    if col == k {
      cells := [];
      NoCells(s, row, col);
    } else {
      RowStream.RowStep(s, row, col, k);
      var g := ParseValue(s, Cell(row, col));
      var h := ParseRow(s[g.n..], row, col + 1, k);
      var rest := RowFrames(s[g.n..], row, col + 1, k);
      OneValue(s, row, col);
      RowPendingCons(g.v, h.v);
      cells := [s[..g.n]] + rest;
      ConsRow(s[..g.n], rest, row, col, k);
      TwoPrefixes(s, g.n, h.n);
    }
  }

  lemma NoCells(s: Bytes, row: nat, k: nat)
    ensures ParseRow(s, row, k, k) == Got([], 0) && IsRow([], row, k, k) && Concat([]) == s[..0]
    ensures RowRefs([], row, k) == 0 == |RowPending([])|
  {
  }

  lemma OneValue(s: Bytes, row: nat, col: nat)
    requires ParseValue(s, Cell(row, col)).Got?
    ensures var n := ParseValue(s, Cell(row, col)).n;
            IsValue(s[..n], row, col) && CellRefs(s[..n], row, col) == |CellPending(ParseValue(s, Cell(row, col)).v)|
  {
    var n := ParseValue(s, Cell(row, col)).n;
    assert s[..n][..n] == s[..n];
    assert Agree(s, s[..n], n);
    hide ParseValue;
    ValueLocal(s, s[..n], Cell(row, col));
  }

  lemma ConsRow(b: Bytes, rest: seq<Bytes>, row: nat, col: nat, k: nat)
    requires IsValue(b, row, col) && IsRow(rest, row, col + 1, k)
    ensures IsRow([b] + rest, row, col, k) && Concat([b] + rest) == b + Concat(rest)
    ensures RowRefs([b] + rest, row, col) == CellRefs(b, row, col) + RowRefs(rest, row, col + 1)
  {
    hide IsValue, CellRefs;
    assert ([b] + rest)[1..] == rest;
    forall i | 0 <= i < |rest| + 1
      ensures IsValue(([b] + rest)[i], row, col + i)
    {
      if i > 0 { assert IsValue(rest[i - 1], row, col + 1 + (i - 1)); }
    }
  }

  lemma {:induction false} NameFrames(s: Bytes, k: nat) returns (us: seq<JavaString>)
    requires TypeInfos.GetStrings(s, k).Got?
    ensures |us| == k && TypeInfos.PutNames(us) == s[..TypeInfos.GetStrings(s, k).n]
  {
    hide *;
    us := [];
    NamesParts(s, k);
    if k > 0 {
      var n := GetString(s).n;
      var u := StringFrame(s);
      var rest := NameFrames(s[n..], k - 1);
      us := [u] + rest;
      TypeInfos.NamesCons(us);
      assert us[1..] == rest;
      TwoPrefixes(s, n, TypeInfos.GetStrings(s[n..], k - 1).n);
    }
  }

  lemma NamesParts(s: Bytes, k: nat)
    requires TypeInfos.GetStrings(s, k).Got?
    ensures k == 0 ==> TypeInfos.GetStrings(s, k).n == 0 && TypeInfos.PutNames([]) == []
    ensures k > 0 ==>
              && GetString(s).Got? && TypeInfos.GetStrings(s[GetString(s).n..], k - 1).Got?
              && TypeInfos.GetStrings(s, k).n == GetString(s).n + TypeInfos.GetStrings(s[GetString(s).n..], k - 1).n
  {
    hide GetString;
  }

  /** Whatever is read as an error is the frame of one. */
  lemma OneError(s: Bytes) returns (e: ErrorFrame)
    requires ParseError(s).Got?
    ensures ErrorBytes(e) == s[..ParseError(s).n] && ParseError(s).v == Batches.ErrorOf(e)
  {
    hide *;
    ErrorParts(s);
    var n := TypeInfos.GetStrings(s, 3).n;
    var us := NameFrames(s, 3);
    var trace := StringFrame(s[n + 4..]);
    Put32Int(s[n..][..4]);
    e := ErrorFrame(us[0], us[1], us[2], Int32(s[n..][..4]), trace);
    Batches.ErrorIs(e);
    Batches.ThreeNames(us[0], us[1], us[2], Put32(e.code) + PutText(trace));
    assert us == [us[0], us[1], us[2]];
    FourPieces(s, n, GetString(s[n + 4..]).n);
    SplitAt(s, ParseError(s).n);
    Batches.ErrorDecodes(e, s[ParseError(s).n..]);
  }

  lemma FourPieces(s: Bytes, n: nat, m: nat)
    requires n + 4 + m <= |s|
    ensures s[..n + 4 + m] == s[..n] + (s[n..][..4] + s[n + 4..][..m])
  {
  }

  lemma ErrorParts(s: Bytes)
    requires ParseError(s).Got?
    ensures var n := TypeInfos.GetStrings(s, 3).n;
            && TypeInfos.GetStrings(s, 3).Got? && n + 4 <= |s| && GetString(s[n + 4..]).Got?
            && ParseError(s).n == n + 4 + GetString(s[n + 4..]).n
  {
  }

  lemma {:induction false} BatchFrames(s: Bytes, k: nat, fetch: int, have: seq<Row>) returns (f: BatchFrame)
    requires !ParseBatch(s, k, fetch, have).Garbled?
    ensures IsBatch(f, |have|, k, fetch)
    ensures BatchBytes(f.rows, f.tail) == s[..ParseBatch(s, k, fetch, have).n]
    ensures f.tail.ByError? <==> ParseBatch(s, k, fetch, have).Threw?
    ensures f.tail.ByError? ==> ParseBatch(s, k, fetch, have).e == Batches.ErrorOf(f.tail.e)
    ensures ParseBatch(s, k, fetch, have).Complete? ==>
              && |ParseBatch(s, k, fetch, have).rows| == |have| + |f.rows|
              && (f.tail.ByFlag? <==> ParseBatch(s, k, fetch, have).end)
              && BatchRefs(f.rows, |have|) == |RowsPending(ParseBatch(s, k, fetch, have).rows[|have|..])|
    decreases fetch
  {
    hide *;
    if fetch <= 0 {
      f := CountTail(s, k, fetch, have);
      return;
    }
    BatchStep(s, k, fetch, have);
    if s[0] == 0 {
      f := FlagTail(s, |have|, k, fetch);
      assert have[|have|..] == [];
    } else if s[0] == 255 {
      f := ErrorTail(s, |have|, k, fetch);
    } else {
      var g := ParseRow(s[1..], |have|, 0, k);
      var cells := RowFrames(s[1..], |have|, 0, k);
      NotGarbled(ParseBatch(s[1 + g.n..], k, fetch - 1, have + [g.v]), 1 + g.n);
      var rest := BatchFrames(s[1 + g.n..], k, fetch - 1, have + [g.v]);
      f := BatchFrame([cells] + rest.rows, rest.tail);
      ConsBatch(cells, rest, |have|, k, fetch);
      AddedRows(have, g.v, ParseBatch(s[1 + g.n..], k, fetch - 1, have + [g.v]), 1 + g.n);
      Prefix3(s, g.n, ParseBatch(s[1 + g.n..], k, fetch - 1, have + [g.v]).n);
    }
  }

  lemma AddedRows(have: seq<Row>, row: Row, b: Batch, k: nat)
    requires b.Complete? ==> have + [row] <= b.rows
    ensures b.Complete? ==>
              && have <= b.rows && After(b, k).rows == b.rows
              && RowsPending(b.rows[|have|..]) == RowPending(row) + RowsPending(b.rows[|have| + 1..])
  {
    if b.Complete? {
      assert b.rows[|have|..] == [row] + b.rows[|have| + 1..];
      RowsPendingCons(row, b.rows[|have| + 1..]);
    }
  }

  lemma NotGarbled(b: Batch, k: nat)
    requires !After(b, k).Garbled?
    ensures !b.Garbled? && After(b, k).n == b.n + k && (b.Threw? <==> After(b, k).Threw?)
    ensures b.Threw? ==> After(b, k).e == b.e
    ensures b.Complete? ==> After(b, k).end == b.end
  {
  }

  lemma CountTail(s: Bytes, k: nat, fetch: int, have: seq<Row>) returns (f: BatchFrame)
    requires fetch <= 0
    ensures IsBatch(f, |have|, k, fetch) && f.tail.ByCount? && f.rows == []
            && BatchRefs(f.rows, |have|) == 0 == |RowsPending(have[|have|..])|
    ensures ParseBatch(s, k, fetch, have) == Complete(have, false, 0) && BatchBytes(f.rows, f.tail) == s[..0]
  {
    f := BatchFrame([], ByCount);
  }

  lemma FlagTail(s: Bytes, base: nat, k: nat, fetch: int) returns (f: BatchFrame)
    requires fetch > 0 && s != [] && s[0] == 0
    ensures IsBatch(f, base, k, fetch) && BatchRefs(f.rows, base) == 0 == |RowsPending([])|
    ensures f.tail.ByFlag? && f.rows == [] && BatchBytes(f.rows, f.tail) == s[..1]
  {
    f := BatchFrame([], ByFlag);
  }

  lemma Prefix3(s: Bytes, n: nat, m: nat)
    requires |s| >= 1 && n <= |s[1..]| && m <= |s[1 + n..]|
    ensures s[..1 + n + m] == [s[0]] + (s[1..][..n] + s[1 + n..][..m])
  {
  }

  lemma ErrorTail(s: Bytes, base: nat, k: nat, fetch: int) returns (f: BatchFrame)
    requires fetch > 0 && s != [] && s[0] == 255 && ParseError(s[1..]).Got?
    ensures IsBatch(f, base, k, fetch)
    ensures f.tail.ByError? && BatchBytes(f.rows, f.tail) == s[..1 + ParseError(s[1..]).n]
    ensures Batches.ErrorOf(f.tail.e) == ParseError(s[1..]).v
  {
    hide *;
    var e := OneError(s[1..]);
    f := BatchFrame([], ByError(e));
    TwoPrefixes(s, 1, ParseError(s[1..]).n);
    assert s[..1] == [255];
    OnlyError(e, base, k, fetch);
  }

  lemma OnlyError(e: ErrorFrame, base: nat, k: nat, fetch: int)
    requires fetch > 0
    ensures IsBatch(BatchFrame([], ByError(e)), base, k, fetch) && BatchBytes([], ByError(e)) == [255] + ErrorBytes(e)
  {
    hide ErrorBytes;
  }

  lemma ConsBatch(cells: seq<Bytes>, rest: BatchFrame, base: nat, k: nat, fetch: int)
    requires fetch > 0 && IsRow(cells, base, 0, k) && IsBatch(rest, base + 1, k, fetch - 1)
    ensures IsBatch(BatchFrame([cells] + rest.rows, rest.tail), base, k, fetch)
    ensures BatchRefs([cells] + rest.rows, base) == RowRefs(cells, base, 0) + BatchRefs(rest.rows, base + 1)
    ensures BatchBytes([cells] + rest.rows, rest.tail) == [1] + (Concat(cells) + BatchBytes(rest.rows, rest.tail))
  {
    hide IsRow, Concat, RowRefs;
    var rows := [cells] + rest.rows;
    assert rows[1..] == rest.rows;
    forall i | 0 <= i < |rows|
      ensures IsRow(rows[i], base + i, 0, k)
    {
      if i > 0 { assert IsRow(rest.rows[i - 1], base + 1 + (i - 1), 0, k); }
    }
  }

  // ---- A complete batch parses, whatever follows ----

  lemma {:induction false} RowParses(cells: seq<Bytes>, row: nat, col: nat, k: nat, t: Bytes)
    requires col <= k && IsRow(cells, row, col, k)
    ensures ParseRow(Concat(cells) + t, row, col, k).Got?
    ensures ParseRow(Concat(cells) + t, row, col, k).n == |Concat(cells)|
    ensures |RowPending(ParseRow(Concat(cells) + t, row, col, k).v)| == RowRefs(cells, row, col)
    decreases k - col
  {
    hide *;
    if col == k {
      NoCells(t, row, col);
      NoneLeft(cells, row, k);
      assert Concat([]) + t == t by { NoCells([], row, col); }
    } else {
      RestRow(cells, row, col, k);
      var b, rest := cells[0], cells[1..];
      ValueParses(b, row, col, Concat(rest) + t);
      RowParses(rest, row, col + 1, k, t);
      RowStepped(b, rest, row, col, k, t);
      var g := ParseValue(b + (Concat(rest) + t), Cell(row, col));
      RowPendingCons(g.v, ParseRow(Concat(rest) + t, row, col + 1, k).v);
    }
  }

  lemma NoneLeft(cells: seq<Bytes>, row: nat, k: nat)
    requires IsRow(cells, row, k, k)
    ensures cells == []
  {
  }

  lemma RestRow(cells: seq<Bytes>, row: nat, col: nat, k: nat)
    requires col < k && IsRow(cells, row, col, k)
    ensures cells != [] && IsValue(cells[0], row, col) && IsRow(cells[1..], row, col + 1, k)
    ensures Concat(cells) == cells[0] + Concat(cells[1..])
    ensures RowRefs(cells, row, col) == CellRefs(cells[0], row, col) + RowRefs(cells[1..], row, col + 1)
  {
    hide IsValue, CellRefs;
    assert IsValue(cells[0], row, col + 0);
    forall i | 0 <= i < |cells[1..]|
      ensures IsValue(cells[1..][i], row, col + 1 + i)
    {
      assert IsValue(cells[i + 1], row, col + (i + 1));
    }
  }

  lemma ValueParses(b: Bytes, row: nat, col: nat, t: Bytes)
    requires IsValue(b, row, col)
    ensures ParseValue(b + t, Cell(row, col)).Got? && ParseValue(b + t, Cell(row, col)).n == |b|
    ensures |CellPending(ParseValue(b + t, Cell(row, col)).v)| == CellRefs(b, row, col)
  {
    var s := b + t;
    assert Agree(b, s, |b|) by { assert b[..|b|] == b && s[..|b|] == b; }
    ValueLocal(b, s, Cell(row, col));
    hide ParseValue;
  }

  lemma RowStepped(b: Bytes, rest: seq<Bytes>, row: nat, col: nat, k: nat, t: Bytes)
    requires col < k && ParseValue(b + (Concat(rest) + t), Cell(row, col)).Got?
    requires ParseValue(b + (Concat(rest) + t), Cell(row, col)).n == |b|
    requires ParseRow(Concat(rest) + t, row, col + 1, k).Got?
    ensures var g, h := ParseValue(b + (Concat(rest) + t), Cell(row, col)), ParseRow(Concat(rest) + t, row, col + 1, k);
            ParseRow((b + Concat(rest)) + t, row, col, k) == Got([g.v] + h.v, |b| + h.n)
  {
    Cut(b, Concat(rest), t);
    hide ParseValue, Concat;
  }

  lemma {:induction false} BatchParses(f: BatchFrame, have: seq<Row>, k: nat, fetch: int, t: Bytes)
    requires IsBatch(f, |have|, k, fetch)
    ensures Yields(ParseBatch(BatchBytes(f.rows, f.tail) + t, k, fetch, have), f, have)
    decreases |f.rows|
  {
    hide *;
    if f.rows == [] {
      NoRows(f.tail);
      TailParses(f, have, k, fetch, t);
    } else {
      var cells, rest := f.rows[0], BatchFrame(f.rows[1..], f.tail);
      RestBatch(f, |have|, k, fetch);
      var b := BatchBytes(rest.rows, rest.tail);
      RowParses(cells, |have|, 0, k, b + t);
      var g := ParseRow(Concat(cells) + (b + t), |have|, 0, k);
      BatchParses(rest, have + [g.v], k, fetch - 1, t);
      Batches.FlaggedRow(Concat(cells), b, t, k, fetch, have);
      AfterStep(ParseBatch(b + t, k, fetch - 1, have + [g.v]), f, have, g.v);
    }
  }

  /** A parsed batch is the given one: its size, its error, or its rows, its end flag and its deferred LOBs. */
  predicate Yields(p: Batch, f: BatchFrame, have: seq<Row>) {
    match f.tail
    case ByError(e) => p == Threw(Batches.ErrorOf(e), |BatchBytes(f.rows, f.tail)|)
    case _ =>
      && p.Complete? && p.n == |BatchBytes(f.rows, f.tail)| && (p.end <==> f.tail.ByFlag?)
      && have <= p.rows && |p.rows| == |have| + |f.rows|
      && |RowsPending(p.rows[|have|..])| == BatchRefs(f.rows, |have|)
  }

  lemma NoRows(tail: Tail)
    ensures BatchBytes([], tail) == TailBytes(tail)
  {
  }

  lemma AfterStep(p: Batch, f: BatchFrame, have: seq<Row>, row: Row)
    requires f.rows != [] && Yields(p, BatchFrame(f.rows[1..], f.tail), have + [row])
    requires |RowPending(row)| == RowRefs(f.rows[0], |have|, 0)
    requires BatchBytes(f.rows, f.tail) == [1] + (Concat(f.rows[0]) + BatchBytes(f.rows[1..], f.tail))
    ensures Yields(After(p, 1 + |Concat(f.rows[0])|), f, have)
  {
    hide RowPending, RowRefs, Concat, BatchBytes, Batches.ErrorOf;
    if p.Complete? { AddedRows(have, row, p, 1 + |Concat(f.rows[0])|); }
    hide RowsPending;
  }

  lemma RestBatch(f: BatchFrame, base: nat, k: nat, fetch: int)
    requires IsBatch(f, base, k, fetch) && f.rows != []
    ensures fetch > 0 && IsBatch(BatchFrame(f.rows[1..], f.tail), base + 1, k, fetch - 1)
            && IsRow(f.rows[0], base, 0, k)
    ensures BatchBytes(f.rows, f.tail) == [1] + (Concat(f.rows[0]) + BatchBytes(f.rows[1..], f.tail))
  {
    assert IsRow(f.rows[0], base + 0, 0, k);
    hide IsRow;
    forall i | 0 <= i < |f.rows[1..]|
      ensures IsRow(f.rows[1..][i], base + 1 + i, 0, k)
    {
      assert IsRow(f.rows[i + 1], base + (i + 1), 0, k);
    }
  }

  lemma TailParses(f: BatchFrame, have: seq<Row>, k: nat, fetch: int, t: Bytes)
    requires IsBatch(f, |have|, k, fetch) && f.rows == []
    ensures Yields(ParseBatch(TailBytes(f.tail) + t, k, fetch, have), f, have)
  {
    hide ParseError, ParseRow, ErrorBytes, Batches.ErrorOf;
    if f.tail.ByError? { Batches.ErrorBatch(f.tail.e, k, fetch, have, t); }
  }

  /**
    * A batch is accepted exactly when the stream starts with a complete batch, and then exactly that batch is consumed.
    */
  lemma BatchAccepted(s: Bytes, k: nat, fetch: int, have: seq<Row>)
    ensures !ParseBatch(s, k, fetch, have).Garbled? <==>
            exists f: BatchFrame, n: nat :: n <= |s| && IsBatch(f, |have|, k, fetch)
              && s[..n] == BatchBytes(f.rows, f.tail)
  {
    if !ParseBatch(s, k, fetch, have).Garbled? {
      var f := BatchFrames(s, k, fetch, have);
    }
    forall f: BatchFrame, n: nat | n <= |s| && IsBatch(f, |have|, k, fetch) && s[..n] == BatchBytes(f.rows, f.tail)
      ensures !ParseBatch(s, k, fetch, have).Garbled?
    {
      hide *;
      SplitAt(s, n);
      BatchParses(f, have, k, fetch, s[n..]);
      NoGarbage(ParseBatch(s, k, fetch, have), f, have);
    }
  }

  lemma NoGarbage(p: Batch, f: BatchFrame, have: seq<Row>)
    requires Yields(p, f, have)
    ensures !p.Garbled?
  {
    hide BatchBytes, RowsPending, BatchRefs, Batches.ErrorOf;
  }

  // ---- LOB answers ----

  lemma OneChunk(s: Bytes)
    requires ParseChunk(s).Got?
    ensures ChunkBytes(ParseChunk(s).v) == s[..ParseChunk(s).n] && |ParseChunk(s).v| <= CHUNK
  {
    var n := ParseChunk(s).n;
    Put32Int(s[..4]);
    Put32Int(s[4..8]);
    assert s[..n] == s[..4] + (s[4..8] + s[8..n]);
    hide Int32, EncBE;
  }

  lemma {:induction false} LobFrames(net: Net, p: PendingLob, acc: Bytes) returns (chunks: seq<Bytes>)
    requires FetchChunks(net, p, acc).Done?
    ensures IsLob(chunks) && Extends(net, FetchChunks(net, p, acc).net)
    ensures ReadBetween(net, FetchChunks(net, p, acc).net) == LobBytes(chunks)
    decreases net.life
  {
    var sent := Send(net, LobRequest(p.lobID, p.hmac, |acc|)).value;
    ReadSend(net, LobRequest(p.lobID, p.hmac, |acc|));
    var s := Unread(sent);
    var n, chunk := ParseChunk(s).n, ParseChunk(s).v;
    OneChunk(s);
    var then_ := Take(sent, n);
    ReadTake(sent, n);
    ReadJoin(net, sent, then_);
    var rest: seq<Bytes> := [];
    if chunk != [] {
      rest := LobFrames(then_, p, acc + chunk);
      ReadJoin(net, then_, FetchChunks(net, p, acc).net);
    }
    hide Send, ParseChunk, FetchChunks, ReadBetween, ChunkBytes;
    chunks := [chunk] + rest;
    ConsLob(chunk, rest);
  }

  lemma ConsLob(b: Bytes, rest: seq<Bytes>)
    requires |b| <= CHUNK && (b == [] <==> rest == []) && (rest != [] ==> IsLob(rest))
    ensures IsLob([b] + rest) && LobBytes([b] + rest) == ChunkBytes(b) + LobBytes(rest)
  {
    var cs := [b] + rest;
    assert cs[1..] == rest;
    hide ChunkBytes;
    forall i | 0 <= i < |cs|
      ensures |cs[i]| <= CHUNK && (cs[i] == [] <==> i == |cs| - 1)
    {
      if i > 0 { assert cs[i] == rest[i - 1]; }
    }
  }

  lemma {:induction false} LobsFrames(net: Net, rows: seq<Row>, pending: seq<PendingLob>)
    returns (lobs: seq<seq<Bytes>>)
    requires Resolve(net, rows, pending).Done?
    ensures |lobs| == |pending| && AllLobs(lobs) && Extends(net, Resolve(net, rows, pending).net)
    ensures ReadBetween(net, Resolve(net, rows, pending).net) == LobsBytes(lobs)
    decreases |pending|
  {
    if pending == [] {
      return [];
    }
    var p := pending[0];
    var mid := FetchLob(net, p).net;
    var first := LobFrames(net, p, []);
    var rows' := Splice(rows, p, FetchLob(net, p).v);
    var rest := LobsFrames(mid, rows', pending[1..]);
    ReadJoin(net, mid, Resolve(net, rows, pending).net);
    hide FetchLob, Resolve, ReadBetween, IsLob, LobBytes;
    lobs := [first] + rest;
    assert lobs[1..] == rest;
  }

  // ---- The rule ----

  /**
    * A rejection, or a status (the second success code when `changed`), a batch and the answers of its deferred LOBs.
    */
  datatype Response = Rejected(e: ErrorFrame) | Answered(changed: bool, batch: BatchFrame, lobs: seq<seq<Bytes>>)

  predicate IsResponse(r: Response, have: nat, k: nat, fetch: int) {
    match r
    case Rejected(_) => true
    case Answered(_, b, lobs) =>
      && IsBatch(b, have, k, fetch) && AllLobs(lobs)
      && |lobs| == if b.tail.ByError? then 0 else BatchRefs(b.rows, have)
  }

  function StatusBytes(changed: bool): Bytes { Put32(if changed then 3 else 1) }

  function ResponseBytes(r: Response): Bytes {
    match r
    case Rejected(e) => Put32(0) + ErrorBytes(e)
    case Answered(changed, b, lobs) => StatusBytes(changed) + (BatchBytes(b.rows, b.tail) + LobsBytes(lobs))
  }

  /** What is left of a live connection. */
  function Live(f: Fetch): Option<Net> {
    match f case Fresh(net, _, _) => Some(net) case Refused(net, _) => Some(net) case Dead(_) => None
  }

  /** The outcome of a batch: the error that ended it, or as many more rows as it has and whether its flag ended it. */
  predicate BatchTold(f: Fetch, b: BatchFrame, have: nat) {
    match b.tail
    case ByError(e) => f.Refused? && f.e == Batches.ErrorOf(e)
    case _ => f.Fresh? && |f.rows| == have + |b.rows| && (f.end <==> b.tail.ByFlag?)
  }

  /** The outcome of a fetch is the one its response tells. */
  predicate Told(f: Fetch, r: Response, have: nat) {
    match r
    case Rejected(e) => f.Refused? && f.e == Batches.ErrorOf(e)
    case Answered(_, b, _) => BatchTold(f, b, have)
  }

  lemma {:induction false} ResolveKeepsCount(net: Net, rows: seq<Row>, pending: seq<PendingLob>)
    requires Resolve(net, rows, pending).Done?
    ensures |Resolve(net, rows, pending).v| == |rows|
    decreases |pending|
  {
    if pending != [] {
      hide FetchLob;
      var f := FetchLob(net, pending[0]);
      ResolveKeepsCount(f.net, Splice(rows, pending[0], f.v), pending[1..]);
    }
  }

  lemma BatchRead(net: Net, k: nat, fetch: int, have: seq<Row>) returns (b: BatchFrame, lobs: seq<seq<Bytes>>)
    requires Live(FetchBatch(net, k, fetch, have)).Some?
    ensures IsBatch(b, |have|, k, fetch) && AllLobs(lobs)
    ensures |lobs| == if b.tail.ByError? then 0 else BatchRefs(b.rows, |have|)
    ensures BatchTold(FetchBatch(net, k, fetch, have), b, |have|)
    ensures var net' := Live(FetchBatch(net, k, fetch, have)).value;
            Extends(net, net') && ReadBetween(net, net') == BatchBytes(b.rows, b.tail) + LobsBytes(lobs)
  {
    var p := ParseBatch(Unread(net), k, fetch, have);
    b := BatchFrames(Unread(net), k, fetch, have);
    lobs := [];
    ReadTake(net, p.n);
    if p.Complete? {
      var pending := RowsPending(p.rows[|have|..]);
      lobs := LobsFrames(Take(net, p.n), p.rows, pending);
      ReadJoin(net, Take(net, p.n), Resolve(Take(net, p.n), p.rows, pending).net);
      ResolveKeepsCount(Take(net, p.n), p.rows, pending);
    }
    hide ParseBatch, IsBatch, Resolve, RowsPending, ReadBetween, AllLobs, BatchRefs;
  }

  lemma Rejection(s: Bytes) returns (e: ErrorFrame)
    requires ParseStatus(s).Got? && ParseStatus(s).v.Some?
    ensures s[..ParseStatus(s).n] == Put32(0) + ErrorBytes(e) && ParseStatus(s).v == Some(Batches.ErrorOf(e))
  {
    e := OneError(s[4..]);
    Put32Int(s[..4]);
    hide ParseError, ErrorBytes, Int32, EncBE;
    TwoPrefixes(s, 4, ParseError(s[4..]).n);
  }

  lemma Acceptance(s: Bytes) returns (changed: bool)
    requires ParseStatus(s).Got? && ParseStatus(s).v.None?
    ensures s[..ParseStatus(s).n] == StatusBytes(changed)
  {
    changed := Int32(s[..4]) == STATUS_OK_STATE_CHANGED;
    Put32Int(s[..4]);
    hide ParseError, Int32, EncBE;
  }

  /**
    * The discard rule: on every byte stream and with every peer, a connection that survives a fetch has consumed
    * exactly one complete response: a rejection, or a status, a batch and the answers of every deferred LOB. The
    * outcome is the one that response tells.
    */
  lemma DiscardRule(net: Net, id: int32, k: nat, fetch: int, have: seq<Row>) returns (r: Response)
    requires Live(FetchMore(net, id, k, fetch, have)).Some?
    ensures IsResponse(r, |have|, k, fetch) && Told(FetchMore(net, id, k, fetch, have), r, |have|)
    ensures var net' := Live(FetchMore(net, id, k, fetch, have)).value;
            Extends(net, net') && ReadBetween(net, net') == ResponseBytes(r)
  {
    var sent := Send(net, FetchRequest(id, ToInt32(fetch))).value;
    ReadSend(net, FetchRequest(id, ToInt32(fetch)));
    var n := ParseStatus(Unread(sent)).n;
    var mid := Take(sent, n);
    ReadTake(sent, n);
    ReadJoin(net, sent, mid);
    if ParseStatus(Unread(sent)).v.Some? {
      var e := Rejection(Unread(sent));
      hide FetchBatch, ParseStatus, Send, ReadBetween, ErrorBytes;
      return Rejected(e);
    }
    var changed := Acceptance(Unread(sent));
    var b, lobs := BatchRead(mid, k, fetch, have);
    var end := Live(FetchBatch(mid, k, fetch, have)).value;
    ReadJoin(net, mid, end);
    hide FetchBatch, ParseStatus, Send, ReadBetween, StatusBytes, IsBatch, AllLobs, BatchBytes, LobsBytes, BatchRefs,
         BatchTold;
    r := Answered(changed, b, lobs);
  }

  // ---- Every complete response is understood ----

  /** A status is one of the two success codes, or the error code and an error frame. */
  lemma StatusUnderstood(changed: bool, e: ErrorFrame, t: Bytes)
    ensures ParseStatus(StatusBytes(changed) + t) == Got(None, 4)
    ensures ParseStatus((Put32(0) + ErrorBytes(e)) + t) == Got(Some(Batches.ErrorOf(e)), 4 + |ErrorBytes(e)|)
  {
    Get32Put(if changed then 3 else 1, t);
    Get32Put(0, ErrorBytes(e) + t);
    Batches.ErrorDecodes(e, t);
    Cut(Put32(0), ErrorBytes(e), t);
    hide Put32, Get32, ParseError, ErrorBytes, Batches.ErrorOf;
  }

  lemma BatchUnderstood(net: Net, k: nat, fetch: int, have: seq<Row>, b: BatchFrame, t: Bytes)
    requires IsBatch(b, |have|, k, fetch) && (b.tail.ByError? || BatchRefs(b.rows, |have|) == 0)
    requires Unread(net) == BatchBytes(b.rows, b.tail) + t
    ensures Live(FetchBatch(net, k, fetch, have)) == Some(Take(net, |BatchBytes(b.rows, b.tail)|))
    ensures BatchTold(FetchBatch(net, k, fetch, have), b, |have|)
  {
    BatchParses(b, have, k, fetch, t);
    hide ParseBatch, IsBatch, BatchBytes, BatchRefs, RowsPending, Batches.ErrorOf, FetchLob;
  }

  /**
    * The converse of the discard rule, for responses without deferred LOBs: whatever follows it, a complete response
    * is consumed as a whole and the outcome is the one it tells.
    */
  lemma ResponseUnderstood(net: Net, id: int32, k: nat, fetch: int, have: seq<Row>, sent: Net, r: Response, t: Bytes)
    requires Send(net, FetchRequest(id, ToInt32(fetch))) == Some(sent)
    requires IsResponse(r, |have|, k, fetch) && (r.Answered? ==> r.lobs == []) && Unread(sent) == ResponseBytes(r) + t
    ensures Live(FetchMore(net, id, k, fetch, have)) == Some(Take(sent, |ResponseBytes(r)|))
    ensures Told(FetchMore(net, id, k, fetch, have), r, |have|)
  {
    hide *;
    match r
    case Rejected(e) =>
      RejectedIs(e);
      StatusUnderstood(false, e, t);
      FetchRejected(net, id, k, fetch, have, sent, e, t);
    case Answered(changed, b, lobs) =>
      AnsweredIs(changed, b, |have|, k, fetch);
      var s := BatchBytes(b.rows, b.tail);
      StatusUnderstood(changed, ErrorFrame(None, None, None, 0, None), s + t);
      Cut(StatusBytes(changed), s, t);
      FetchAnswered(net, id, k, fetch, have, sent);
      TakeTwice(sent, 4, |s|);
      BatchUnderstood(Take(sent, 4), k, fetch, have, b, t);
      ToldAnswer(FetchMore(net, id, k, fetch, have), changed, b, |have|);
  }

  lemma RejectedIs(e: ErrorFrame)
    ensures ResponseBytes(Rejected(e)) == Put32(0) + ErrorBytes(e) && |Put32(0)| == 4
  {
    hide ErrorBytes;
  }

  lemma AnsweredIs(changed: bool, b: BatchFrame, have: nat, k: nat, fetch: int)
    requires IsResponse(Answered(changed, b, []), have, k, fetch)
    ensures ResponseBytes(Answered(changed, b, [])) == StatusBytes(changed) + BatchBytes(b.rows, b.tail)
    ensures |StatusBytes(changed)| == 4 && IsBatch(b, have, k, fetch)
    ensures b.tail.ByError? || BatchRefs(b.rows, have) == 0
  {
    hide BatchBytes, IsBatch, BatchRefs;
    assert BatchBytes(b.rows, b.tail) + LobsBytes([]) == BatchBytes(b.rows, b.tail);
  }

  lemma FetchRejected(net: Net, id: int32, k: nat, fetch: int, have: seq<Row>, sent: Net, e: ErrorFrame, t: Bytes)
    requires Send(net, FetchRequest(id, ToInt32(fetch))) == Some(sent)
    requires ParseStatus(Unread(sent)) == Got(Some(Batches.ErrorOf(e)), 4 + |ErrorBytes(e)|)
    ensures Live(FetchMore(net, id, k, fetch, have)) == Some(Take(sent, 4 + |ErrorBytes(e)|))
    ensures Told(FetchMore(net, id, k, fetch, have), Rejected(e), |have|)
  {
    hide ParseStatus, Send, FetchBatch, ErrorBytes, Batches.ErrorOf;
  }

  lemma FetchAnswered(net: Net, id: int32, k: nat, fetch: int, have: seq<Row>, sent: Net)
    requires Send(net, FetchRequest(id, ToInt32(fetch))) == Some(sent) && ParseStatus(Unread(sent)) == Got(None, 4)
    ensures |Unread(sent)| >= 4 && FetchMore(net, id, k, fetch, have) == FetchBatch(Take(sent, 4), k, fetch, have)
  {
    hide ParseStatus, Send, FetchBatch;
  }

  lemma TakeTwice(net: Net, a: nat, b: nat)
    requires a + b <= |Unread(net)|
    ensures Unread(Take(net, a)) == Unread(net)[a..] && Take(Take(net, a), b) == Take(net, a + b)
  {
  }

  lemma ToldAnswer(f: Fetch, changed: bool, b: BatchFrame, have: nat)
    requires BatchTold(f, b, have)
    ensures Told(f, Answered(changed, b, []), have)
  {
    hide BatchTold;
  }
}
