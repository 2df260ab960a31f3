/**
  * What the rows a server sends stand for, and what the driver decodes from one batch of them.
  */
module Batches {
  import opened Wire
  import opened Unicode
  import opened Values
  import opened Encoding
  import opened Network
  import opened RowStream
  import TypeInfos

  // ---- What the server's rows stand for ----

  /** A reference the server can serve and whose announced length the driver accepts. */
  predicate RefOk(lobs: map<int64, Lob>, w: WireValue) {
    w.WLobRef? ==>
      && w.lobID in lobs && lobs[w.lobID].mac == w.hmac
      && (if w.clob then w.octets else w.precision) <= MAX_WIRE_LENGTH
  }

  predicate RowOk(lobs: map<int64, Lob>, k: nat, row: WireRow) {
    |row| == k && forall c | 0 <= c < |row| :: RefOk(lobs, row[c])
  }

  predicate RowsOk(lobs: map<int64, Lob>, k: nat, rows: seq<WireRow>) {
    forall r | 0 <= r < |rows| :: RowOk(lobs, k, rows[r])
  }

  /** The value a finished cell shows: a reference shows the content of its LOB. */
  function Shown(lobs: map<int64, Lob>, w: WireValue): Value
    requires Sendable(w, false) && RefOk(lobs, w)
  {
    if w.WLobRef? then LobValue(Meaning(w, Cell(0, 0)).lob, lobs[w.lobID].content) else Meaning(w, Cell(0, 0))
  }

  function ShownRow(lobs: map<int64, Lob>, k: nat, row: WireRow): (r: Row)
    requires RowOk(lobs, k, row)
    ensures |r| == k && forall c | 0 <= c < k :: r[c] == Shown(lobs, row[c])
  {
    seq(k, c requires 0 <= c < k => Shown(lobs, row[c]))
  }

  function ShownRows(lobs: map<int64, Lob>, k: nat, rows: seq<WireRow>): (r: seq<Row>)
    requires RowsOk(lobs, k, rows)
    ensures |r| == |rows| && forall i | 0 <= i < |rows| :: r[i] == ShownRow(lobs, k, rows[i])
  {
    seq(|rows|, i requires 0 <= i < |rows| => ShownRow(lobs, k, rows[i]))
  }

  /** The row as it is decoded, placeholders in place of references. */
  function DecodedRow(row: WireRow, r: nat): (d: Row)
    ensures |d| == |row| && forall c | 0 <= c < |row| :: d[c] == Meaning(row[c], Cell(r, c))
  {
    seq(|row|, c requires 0 <= c < |row| => Meaning(row[c], Cell(r, c)))
  }

  function DecodedRows(rows: seq<WireRow>, base: nat): (d: seq<Row>)
    ensures |d| == |rows| && forall i | 0 <= i < |rows| :: d[i] == DecodedRow(rows[i], base + i)
  {
    seq(|rows|, i requires 0 <= i < |rows| => DecodedRow(rows[i], base + i))
  }

  function ErrorOf(e: ErrorFrame): H2Error {
    H2Error(TypeInfos.NameText(e.sqlState), TypeInfos.NameText(e.message), TypeInfos.NameText(e.sql), e.code,
            TypeInfos.NameText(e.trace))
  }

  // ---- The driver decodes what the server sends ----

  /** The values of the columns from `c` on. */
  lemma {:induction false} RowDecodes(row: WireRow, c: nat, r: nat, t: Bytes)
    requires c <= |row|
    ensures AllSendable(row[c..], false)
    ensures ParseRow(Frames(row[c..], false) + t, r, c, |row|) ==
            Got(DecodedRow(row, r)[c..], |Frames(row[c..], false)|)
    decreases |row| - c
  {
    hide *;
    if c == |row| {
      NoColumns(row, r, t);
    } else {
      FramesCons(row, c);
      RowDecodes(row, c + 1, r, t);
      ValueRoundTrip(row[c], Cell(r, c), Frames(row[c + 1..], false) + t);
      DecodedCons(row, r, c);
      CellStep(Frame(row[c], false), Frames(row[c + 1..], false), t, r, c, |row|);
      JoinCells(Meaning(row[c], Cell(r, c)), DecodedRow(row, r)[c + 1..], |Frame(row[c], false)|,
                |Frames(row[c + 1..], false)|);
    }
  }

  lemma NoColumns(row: WireRow, r: nat, t: Bytes)
    ensures AllSendable(row[|row|..], false) && Frames(row[|row|..], false) == []
    ensures ParseRow([] + t, r, |row|, |row|) == Got(DecodedRow(row, r)[|row|..], 0)
  {
    hide Meaning, ParseValue;
    assert DecodedRow(row, r)[|row|..] == [];
  }

  lemma FramesCons(row: WireRow, c: nat)
    requires c < |row|
    ensures AllSendable(row[c..], false) && AllSendable(row[c + 1..], false) && Sendable(row[c], false)
    ensures Frames(row[c..], false) == Frame(row[c], false) + Frames(row[c + 1..], false)
  {
    hide Sendable, Frame;
    assert row[c..][0] == row[c] && row[c..][1..] == row[c + 1..];
    assert row[c] in row;
  }

  lemma DecodedCons(row: WireRow, r: nat, c: nat)
    requires c < |row| && Sendable(row[c], false)
    ensures |DecodedRow(row, r)| == |row|
            && DecodedRow(row, r)[c..] == [Meaning(row[c], Cell(r, c))] + DecodedRow(row, r)[c + 1..]
  {
    hide Meaning;
  }

  function Join(v: Value, g: Got<seq<Value>>, n: nat): Got<seq<Value>> {
    match g case Fail => Fail case Got(vs, m) => Got([v] + vs, n + m)
  }

  lemma JoinCells(v: Value, vs: seq<Value>, n: nat, m: nat)
    ensures Join(v, Got(vs, m), n) == Got([v] + vs, n + m)
  {
  }

  lemma CellStep(a: Bytes, b: Bytes, t: Bytes, r: nat, c: nat, k: nat)
    requires c < k && ParseValue(a + (b + t), Cell(r, c)).Got? && ParseValue(a + (b + t), Cell(r, c)).n == |a|
    ensures ParseRow((a + b) + t, r, c, k) ==
            Join(ParseValue(a + (b + t), Cell(r, c)).v, ParseRow(b + t, r, c + 1, k), |a|)
  {
    hide ParseValue;
    Cut(a, b, t);
  }

  lemma WholeRow(row: WireRow, r: nat, t: Bytes)
    ensures ParseRow(Frames(row, false) + t, r, 0, |row|) == Got(DecodedRow(row, r), |Frames(row, false)|)
  {
    RowDecodes(row, 0, r, t);
    hide Frames, ParseRow;
    assert row[0..] == row && DecodedRow(row, r)[0..] == DecodedRow(row, r);
  }

  lemma ErrorDecodes(e: ErrorFrame, t: Bytes)
    ensures ParseError(ErrorBytes(e) + t) == Got(ErrorOf(e), |ErrorBytes(e)|)
  {
    var names: seq<JavaString> := [e.sqlState, e.message, e.sql];
    var a, code, trace := TypeInfos.PutNames(names), Put32(e.code), PutText(e.trace);
    ThreeNames(e.sqlState, e.message, e.sql, code + trace);
    TypeInfos.NamesRead(names, code + (trace + t));
    Get32Put(e.code, trace + t);
    TextDecodes(e.trace, t);
    hide *;
    ErrorIs(e);
    Cut(code, trace, t);
    Cut(a, code + trace, t);
    ErrorPieces(a, code, trace, t);
    ErrorIsOf(e);
  }

  lemma ErrorIs(e: ErrorFrame)
    ensures ErrorBytes(e) ==
            PutText(e.sqlState) + (PutText(e.message) + (PutText(e.sql) + (Put32(e.code) + PutText(e.trace))))
  {
  }

  lemma ErrorIsOf(e: ErrorFrame)
    ensures var names: seq<JavaString> := [e.sqlState, e.message, e.sql];
            var ts := TypeInfos.NameTexts(names);
            |ts| == 3 && ErrorOf(e) == H2Error(ts[0], ts[1], ts[2], e.code, TypeInfos.OrEmpty(TextOf(e.trace)))
  {
    hide TextOf, TypeInfos.OrEmpty;
    var names: seq<JavaString> := [e.sqlState, e.message, e.sql];
    TextsCons(names);
    TextsCons(names[1..]);
    TextsCons(names[2..]);
    assert names[1..][1..] == names[2..];
    hide TypeInfos.NameTexts;
  }

  lemma TextsCons(us: seq<JavaString>)
    requires us != []
    ensures TypeInfos.NameTexts(us) == [TypeInfos.NameText(us[0])] + TypeInfos.NameTexts(us[1..])
  {
    hide TypeInfos.NameText;
  }

  lemma ThreeNames(a: JavaString, b: JavaString, c: JavaString, t: Bytes)
    ensures var names: seq<JavaString> := [a, b, c];
            PutText(a) + (PutText(b) + (PutText(c) + t)) == TypeInfos.PutNames(names) + t
  {
    hide PutText;
    var names: seq<JavaString> := [a, b, c];
    TypeInfos.NamesCons(names);
    TypeInfos.NamesCons(names[1..]);
    TypeInfos.NamesCons(names[2..]);
    assert names[1..][1..] == names[2..];
    assert TypeInfos.PutNames(names[3..]) == [];
    assert names[2..][1..] == names[3..];
    hide TypeInfos.PutNames;
    Regroup(PutText(a), PutText(b), PutText(c), t);
  }

  lemma Regroup(a: Bytes, b: Bytes, c: Bytes, t: Bytes)
    ensures a + (b + (c + t)) == (a + (b + (c + []))) + t
  {
    assert c + [] == c;
    Cut(b, c, t);
    Cut(a, b + c, t);
  }

  lemma ErrorPieces(a: Bytes, code: Bytes, trace: Bytes, t: Bytes)
    requires |code| == 4 && TypeInfos.GetStrings(a + (code + (trace + t)), 3).Got?
    requires TypeInfos.GetStrings(a + (code + (trace + t)), 3).n == |a|
    requires Get32(code + (trace + t)).Got? && GetString(trace + t).Got? && GetString(trace + t).n == |trace|
    ensures var ts := TypeInfos.GetStrings(a + (code + (trace + t)), 3).v;
            ParseError(a + (code + (trace + t))) ==
            Got(H2Error(ts[0], ts[1], ts[2], Get32(code + (trace + t)).v, TypeInfos.OrEmpty(GetString(trace + t).v)),
                |a| + 4 + |trace|)
  {
    hide TypeInfos.GetStrings, Get32, GetString;
    Cut(a, code, trace + t);
  }

  // ---- A whole batch ----

  /** How many rows a request for `count` of `n` remaining rows brings. */
  function Brings(n: nat, count: int): nat { if count <= 0 then 0 else Min(count, n) }

  /** What a batch of `count` promised rows parses to. */
  function Promised(rows: seq<WireRow>, ending: Ending, count: int, have: seq<Row>): Batch {
    var n := |SendRows(rows, ending, count)|;
    if count > |rows| && ending.Throws? then Threw(ErrorOf(ending.e), n)
    else Complete(have + DecodedRows(rows[..Brings(|rows|, count)], |have|), count > |rows|, n)
  }

  lemma {:induction false} BatchDecodes(rows: seq<WireRow>, ending: Ending, count: int, k: nat, have: seq<Row>,
                                        t: Bytes)
    requires forall i | 0 <= i < |rows| :: |rows[i]| == k
    ensures ParseBatch(SendRows(rows, ending, count) + t, k, count, have) == Promised(rows, ending, count, have)
    decreases |rows|
  {
    hide *;
    if count <= 0 || rows == [] {
      EmptyBatch(ending, rows, count, k, have, t);
    } else {
      var row, rest := rows[0], SendRows(rows[1..], ending, count - 1);
      WholeRow(row, |have|, rest + t);
      BatchDecodes(rows[1..], ending, count - 1, k, have + [DecodedRow(row, |have|)], t);
      SendCons(rows, ending, count);
      FlaggedRow(Frames(row, false), rest, t, k, count, have);
      PromisedCons(rows, ending, count, have);
    }
  }

  lemma SendCons(rows: seq<WireRow>, ending: Ending, count: int)
    requires count > 0 && rows != []
    ensures SendRows(rows, ending, count) == [1] + (Frames(rows[0], false) + SendRows(rows[1..], ending, count - 1))
  {
  }

  lemma FlaggedRow(cells: Bytes, b: Bytes, t: Bytes, k: nat, fetch: int, have: seq<Row>)
    requires fetch > 0 && ParseRow(cells + (b + t), |have|, 0, k).Got?
             && ParseRow(cells + (b + t), |have|, 0, k).n == |cells|
    ensures ParseBatch(([1] + (cells + b)) + t, k, fetch, have) ==
            After(ParseBatch(b + t, k, fetch - 1, have + [ParseRow(cells + (b + t), |have|, 0, k).v]), 1 + |cells|)
  {
    var s := ([1] + (cells + b)) + t;
    Cut(cells, b, t);
    Cut([1], cells + b, t);
    assert s[1..] == cells + (b + t);
    assert s[1 + |cells|..] == s[1..][|cells|..] == b + t;
    hide ParseRow;
  }

  lemma EmptyBatch(ending: Ending, rows: seq<WireRow>, count: int, k: nat, have: seq<Row>, t: Bytes)
    requires count <= 0 || rows == []
    ensures ParseBatch(SendRows(rows, ending, count) + t, k, count, have) == Promised(rows, ending, count, have)
  {
    hide ParseError, ParseRow, ErrorBytes, ErrorOf, DecodedRow;
    assert have + DecodedRows([], |have|) == have;
    assert rows[..Brings(|rows|, count)] == [];
    if count > 0 && ending.Throws? { ErrorBatch(ending.e, k, count, have, t); }
  }

  lemma ErrorBatch(e: ErrorFrame, k: nat, count: int, have: seq<Row>, t: Bytes)
    requires count > 0
    ensures ParseBatch(([255] + ErrorBytes(e)) + t, k, count, have) == Threw(ErrorOf(e), |[255] + ErrorBytes(e)|)
  {
    ErrorDecodes(e, t);
    hide ParseError, ParseRow, ErrorBytes, ErrorOf;
    var s := ([255] + ErrorBytes(e)) + t;
    assert s[0] == 255 && s[1..] == ErrorBytes(e) + t;
  }

  lemma PromisedCons(rows: seq<WireRow>, ending: Ending, count: int, have: seq<Row>)
    requires count > 0 && rows != []
    ensures After(Promised(rows[1..], ending, count - 1, have + [DecodedRow(rows[0], |have|)]),
                  1 + |Frames(rows[0], false)|)
            == Promised(rows, ending, count, have)
  {
    hide SendRows, Frames, DecodedRow, DecodedRows, ErrorOf;
    SendCons(rows, ending, count);
    var n := Brings(|rows|, count);
    assert 0 < n <= |rows| && Brings(|rows| - 1, count - 1) == n - 1;
    hide Brings;
    JoinDecoded(rows[..n], have);
    assert rows[..n][1..] == rows[1..][..n - 1];
  }

  lemma JoinDecoded(rows: seq<WireRow>, have: seq<Row>)
    requires rows != []
    ensures have + DecodedRows(rows, |have|) ==
            (have + [DecodedRow(rows[0], |have|)]) + DecodedRows(rows[1..], |have| + 1)
  {
    DecodedSplit(rows, |have|);
    hide DecodedRows, DecodedRow;
  }

  lemma DecodedSplit(rows: seq<WireRow>, base: nat)
    requires rows != []
    ensures DecodedRows(rows, base) == [DecodedRow(rows[0], base)] + DecodedRows(rows[1..], base + 1)
  {
    hide DecodedRow;
  }

  // ---- A driver that waits for more rows than the server was asked for ----

  /** Asked for no more rows than it has, the server sends just those, and a driver waiting for more finds nothing. */
  lemma {:induction false} BatchStarves(rows: seq<WireRow>, ending: Ending, count: int, fetch: int, k: nat,
                                        have: seq<Row>)
    requires (forall i | 0 <= i < |rows| :: |rows[i]| == k) && count <= |rows| && fetch > 0 && fetch > count
    ensures ParseBatch(SendRows(rows, ending, count) + [], k, fetch, have) == Garbled
    decreases |rows|
  {
    hide *;
    if count <= 0 {
      NothingSent(rows, ending, count, fetch, k, have);
    } else {
      var row, rest := rows[0], SendRows(rows[1..], ending, count - 1);
      WholeRow(row, |have|, rest + []);
      BatchStarves(rows[1..], ending, count - 1, fetch - 1, k, have + [DecodedRow(row, |have|)]);
      SendCons(rows, ending, count);
      FlaggedRow(Frames(row, false), rest, [], k, fetch, have);
      GarbledStays(1 + |Frames(row, false)|);
    }
  }

  lemma NothingSent(rows: seq<WireRow>, ending: Ending, count: int, fetch: int, k: nat, have: seq<Row>)
    requires count <= 0 && fetch > 0
    ensures ParseBatch(SendRows(rows, ending, count) + [], k, fetch, have) == Garbled
  {
    hide ParseRow, ParseError;
  }

  lemma GarbledStays(n: nat)
    ensures After(Garbled, n) == Garbled
  {
  }
}
