/**
  * No LOB placeholder is ever delivered: whatever bytes arrive, resolution covers every recorded cell or the error
  * sticks.
  */
module NoPlaceholder {
  import opened Wire
  import opened Values
  import opened Network
  import opened RowStream
  import TypeInfos

  predicate RowsResolved(rows: seq<Row>) {
    forall r | 0 <= r < |rows| :: AllResolved(rows[r])
  }

  /** A cell is finished, or holds the placeholder recorded for exactly its own position. */
  predicate Placed(v: Value, r: nat, c: nat) {
    Resolved(v) || (v.Pending? && v.lob.row == r && v.lob.col == c)
  }

  predicate RowPlaced(row: Row, r: nat, base: nat) {
    forall c | 0 <= c < |row| :: Placed(row[c], r, base + c)
  }

  predicate RowsPlaced(rows: seq<Row>) {
    forall r | 0 <= r < |rows| :: RowPlaced(rows[r], r, 0)
  }

  /** Every placeholder left in the rows is in the list. */
  predicate Listed(rows: seq<Row>, pending: seq<PendingLob>) {
    forall r, c | 0 <= r < |rows| && 0 <= c < |rows[r]| :: rows[r][c].Pending? ==> rows[r][c].lob in pending
  }

  // ---- Parsing records every placeholder ----

  lemma {:induction false} ParsedRowPlaced(s: Bytes, row: nat, col: nat, k: nat)
    requires col <= k && ParseRow(s, row, col, k).Got?
    ensures RowPlaced(ParseRow(s, row, col, k).v, row, col)
    decreases k - col
  {
    if col < k {
      Placeholders(s, Cell(row, col));
      var v, n := ParseValue(s, Cell(row, col)).v, ParseValue(s, Cell(row, col)).n;
      ParsedRowPlaced(s[n..], row, col + 1, k);
      var rest := ParseRow(s[n..], row, col + 1, k).v;
      hide ParseValue, Resolved;
      ConsPlaced(v, rest, row, col);
    }
  }

  lemma ConsPlaced(v: Value, rest: Row, r: nat, base: nat)
    requires Placed(v, r, base) && RowPlaced(rest, r, base + 1)
    ensures RowPlaced([v] + rest, r, base)
  {
    forall c | 0 <= c < |rest| + 1
      ensures Placed(([v] + rest)[c], r, base + c)
    {
      if c > 0 { assert Placed(rest[c - 1], r, base + 1 + (c - 1)); }
    }
  }

  lemma {:induction false} ParsedBatchPlaced(s: Bytes, k: nat, fetch: int, have: seq<Row>)
    requires RowsPlaced(have) && ParseBatch(s, k, fetch, have).Complete?
    ensures RowsPlaced(ParseBatch(s, k, fetch, have).rows)
    decreases fetch
  {
    if fetch > 0 && s[0] == 1 {
      ParsedRowPlaced(s[1..], |have|, 0, k);
      var g := ParseRow(s[1..], |have|, 0, k);
      hide ParseRow, RowPlaced;
      ParsedBatchPlaced(s[1 + g.n..], k, fetch - 1, have + [g.v]);
    }
  }

  lemma {:induction false} RowLists(row: Row, c: nat)
    requires c < |row| && row[c].Pending?
    ensures row[c].lob in RowPending(row)
  {
    if c < |row| - 1 { RowLists(row[..|row| - 1], c); }
  }

  lemma {:induction false} RowsList(rows: seq<Row>, r: nat, c: nat)
    requires r < |rows| && c < |rows[r]| && rows[r][c].Pending?
    ensures rows[r][c].lob in RowsPending(rows)
  {
    if r < |rows| - 1 {
      RowsList(rows[..|rows| - 1], r, c);
    } else {
      RowLists(rows[r], c);
    }
  }

  lemma NewRowsListed(rows: seq<Row>, have: seq<Row>)
    requires have <= rows && RowsResolved(have)
    ensures Listed(rows, RowsPending(rows[|have|..]))
  {
    var added := rows[|have|..];
    forall r, c | 0 <= r < |have| && 0 <= c < |rows[r]|
      ensures !rows[r][c].Pending?
    {
      assert Resolved(have[r][c]);
    }
    forall r, c | 0 <= r < |rows| && 0 <= c < |rows[r]| && rows[r][c].Pending?
      ensures rows[r][c].lob in RowsPending(added)
    {
      assert added[r - |have|] == rows[r];
      RowsList(added, r - |have|, c);
    }
  }

  // ---- Resolution clears every recorded placeholder ----

  lemma SpliceKeeps(rows: seq<Row>, p: PendingLob, v: Value, pending: seq<PendingLob>)
    requires RowsPlaced(rows) && Listed(rows, [p] + pending) && Resolved(v)
    ensures RowsPlaced(Splice(rows, p, v)) && Listed(Splice(rows, p, v), pending)
  {
    var rows' := Splice(rows, p, v);
    forall r, c | 0 <= r < |rows'| && 0 <= c < |rows'[r]|
      ensures Placed(rows'[r][c], r, c) && (rows'[r][c].Pending? ==> rows'[r][c].lob in pending)
    {
      assert RowPlaced(rows[r], r, 0);
      if r == p.row && c == p.col {
        assert rows'[r][c] == v;
      } else {
        assert Placed(rows[r][c], r, 0 + c);
        assert rows'[r][c] == rows[r][c];
      }
    }
    forall r | 0 <= r < |rows'|
      ensures RowPlaced(rows'[r], r, 0)
    {
    }
  }

  lemma {:induction false} ResolveClears(net: Net, rows: seq<Row>, pending: seq<PendingLob>)
    requires RowsPlaced(rows) && Listed(rows, pending) && Resolve(net, rows, pending).Done?
    ensures RowsResolved(Resolve(net, rows, pending).v)
    decreases |pending|
  {
    if pending == [] {
      AllClear(rows);
    } else {
      var f := FetchLob(net, pending[0]);
      LobResolved(net, pending[0]);
      assert pending == [pending[0]] + pending[1..];
      hide FetchLob, Splice;
      SpliceKeeps(rows, pending[0], f.v, pending[1..]);
      ResolveClears(f.net, Splice(rows, pending[0], f.v), pending[1..]);
    }
  }

  lemma AllClear(rows: seq<Row>)
    requires RowsPlaced(rows) && Listed(rows, [])
    ensures RowsResolved(rows)
  {
    forall r, c | 0 <= r < |rows| && 0 <= c < |rows[r]|
      ensures Resolved(rows[r][c])
    {
      assert RowPlaced(rows[r], r, 0);
      assert Placed(rows[r][c], r, 0 + c);
    }
  }

  lemma LobResolved(net: Net, p: PendingLob)
    requires FetchLob(net, p).Done?
    ensures Resolved(FetchLob(net, p).v)
  {
    hide FetchChunks;
  }

  lemma ResolvedPlaced(rows: seq<Row>)
    requires RowsResolved(rows)
    ensures RowsPlaced(rows)
  {
    forall r | 0 <= r < |rows|
      ensures RowPlaced(rows[r], r, 0)
    {
      forall c | 0 <= c < |rows[r]|
        ensures Placed(rows[r][c], r, 0 + c)
      {
        assert Resolved(rows[r][c]);
      }
    }
  }

  /** A successful fetch leaves no placeholder in the buffer, on every byte stream. */
  lemma FetchResolved(net: Net, k: nat, fetch: int, have: seq<Row>)
    requires RowsResolved(have) && FetchBatch(net, k, fetch, have).Fresh?
    ensures RowsResolved(FetchBatch(net, k, fetch, have).rows)
  {
    var b := ParseBatch(Unread(net), k, fetch, have);
    ResolvedPlaced(have);
    ParsedBatchPlaced(Unread(net), k, fetch, have);
    NewRowsListed(b.rows, have);
    hide ParseBatch, Resolve, RowsPlaced, Listed, RowsResolved, RowsPending;
    ResolveClears(Take(net, b.n), b.rows, RowsPending(b.rows[|have|..]));
  }

  lemma NextResolved(st: RowsState, dest: nat)
    requires RowsResolved(st.buffered)
    ensures RowsResolved(Next(st, dest).0.buffered)
    ensures Next(st, dest).1.NextRow? ==> AllResolved(Next(st, dest).1.row)
  {
    hide FetchBatch, AllResolved;
    if st.net.Some? && FetchMore(st.net.value, st.resultID, st.columns, FetchCount(st), st.buffered).Fresh? {
      MoreResolved(st.net.value, st.resultID, st.columns, FetchCount(st), st.buffered);
    }
    hide FetchMore;
  }

  lemma MoreResolved(net: Net, id: int32, k: nat, fetch: int, have: seq<Row>)
    requires RowsResolved(have) && FetchMore(net, id, k, fetch, have).Fresh?
    ensures RowsResolved(FetchMore(net, id, k, fetch, have).rows)
  {
    var sent := Send(net, FetchRequest(id, ToInt32(fetch))).value;
    var n := ParseStatus(Unread(sent)).n;
    hide FetchBatch, ParseStatus, Send, RowsResolved, ToInt32;
    FetchResolved(Take(sent, n), k, fetch, have);
  }

  lemma {:induction false} RunResolved(st: RowsState, n: nat)
    requires RowsResolved(st.buffered)
    ensures RowsResolved(StateAfter(st, n).buffered)
  {
    if n > 0 {
      RunResolved(st, n - 1);
      hide Next, RowsResolved;
      NextResolved(StateAfter(st, n - 1), st.columns);
    }
  }

  /** No placeholder escapes: for every peer and every byte stream, no row delivered by any call of Next holds one. */
  lemma NoPlaceholderEscapes(net: Net, id: int32, columns: int32, fetchSize: int, n: nat)
    requires OpenRows(net, id, columns, fetchSize).Open?
    ensures var out := Nth(OpenRows(net, id, columns, fetchSize).st, n);
            out.NextRow? ==> AllResolved(out.row)
  {
    var st := OpenRows(net, id, columns, fetchSize).st;
    OpenResolved(net, id, columns, fetchSize);
    hide OpenRows, Next, StateAfter, RowsResolved, AllResolved;
    RunResolved(st, n);
    NextResolved(StateAfter(st, n), st.columns);
  }

  lemma OpenResolved(net: Net, id: int32, columns: int32, fetchSize: int)
    requires OpenRows(net, id, columns, fetchSize).Open?
    ensures RowsResolved(OpenRows(net, id, columns, fetchSize).st.buffered)
  {
    var at, first := OpenFetches(net, id, columns, fetchSize);
    hide *;
    NoRows();
    FetchResolved(at, columns, first, []);
  }

  lemma NoRows()
    ensures RowsResolved([])
  {
  }

  lemma OpenFetches(net: Net, id: int32, columns: int32, fetchSize: int) returns (at: Net, first: int)
    requires OpenRows(net, id, columns, fetchSize).Open?
    ensures columns >= 0 && FetchBatch(at, columns, first, []).Fresh?
    ensures OpenRows(net, id, columns, fetchSize).st.buffered == FetchBatch(at, columns, first, []).rows
  {
    hide FetchBatch, TypeInfos.ParseMeta, Get64;
    var count := Get64(Unread(net)).v;
    at := Take(net, 8 + TypeInfos.ParseMeta(columns, Unread(net)[8..]).n);
    first := if count >= 0 && fetchSize > count then count else fetchSize;
  }
}
