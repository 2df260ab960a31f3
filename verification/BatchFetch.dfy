/** Fetching a whole batch from the sequential server: rows, end flag or error, with every deferred LOB in place. */
module BatchFetch {
  import opened Wire
  import opened Values
  import opened Encoding
  import opened Network
  import opened RowStream
  import opened Batches
  import opened Lockstep
  import NoPlaceholder

  // ---- From placeholders to values ----

  /** A decoded cell shows its value already, or holds a placeholder that leads to it. */
  lemma CellLeads(lobs: map<int64, Lob>, w: WireValue, r: nat, c: nat)
    requires Sendable(w, false) && RefOk(lobs, w)
    ensures var v := Meaning(w, Cell(r, c));
            if v.Pending? then
              v.lob.row == r && v.lob.col == c && Servable(lobs, v.lob) && v.lob.lobID in lobs
              && Shown(lobs, w) == LobValue(v.lob, lobs[v.lob.lobID].content)
            else v == Shown(lobs, w)
  {
  }

  lemma DecodedLeads(lobs: map<int64, Lob>, k: nat, ws: seq<WireRow>, r: nat, c: nat)
    requires RowsOk(lobs, k, ws) && r < |ws| && c < k
    ensures |ws[r]| == k && Sendable(ws[r][c], false) && RefOk(lobs, ws[r][c])
    ensures DecodedRows(ws, 0)[r][c] == Meaning(ws[r][c], Cell(r, c))
    ensures ShownRows(lobs, k, ws)[r][c] == Shown(lobs, ws[r][c])
  {
    hide Sendable, RefOk, Meaning, Shown;
    assert RowOk(lobs, k, ws[r]);
    assert ws[r][c] in ws[r];
  }

  lemma DecodedOnCourse(lobs: map<int64, Lob>, k: nat, ws: seq<WireRow>)
    requires RowsOk(lobs, k, ws)
    ensures RowsOnCourse(DecodedRows(ws, 0), ShownRows(lobs, k, ws), RowsPending(DecodedRows(ws, 0)))
  {
    var d, goal := DecodedRows(ws, 0), ShownRows(lobs, k, ws);
    forall r | 0 <= r < |d|
      ensures RowOnCourse(d[r], goal[r], r, RowsPending(d))
    {
      assert RowOk(lobs, k, ws[r]);
      hide Sendable, RefOk, Meaning, Shown, RowsPending;
      forall c | 0 <= c < k
        ensures OnCourse(d[r][c], goal[r][c], r, c, RowsPending(d))
      {
        DecodedLeads(lobs, k, ws, r, c);
        CellLeads(lobs, ws[r][c], r, c);
        if d[r][c].Pending? { NoPlaceholder.RowsList(d, r, c); }
      }
    }
  }

  lemma {:induction false} RowPendingFrom(row: Row, p: PendingLob) returns (c: nat)
    requires p in RowPending(row)
    ensures c < |row| && row[c] == Pending(p)
  {
    if p in CellPending(row[|row| - 1]) {
      c := |row| - 1;
    } else {
      c := RowPendingFrom(row[..|row| - 1], p);
    }
  }

  lemma {:induction false} PendingFrom(rows: seq<Row>, p: PendingLob) returns (r: nat, c: nat)
    requires p in RowsPending(rows)
    ensures r < |rows| && c < |rows[r]| && rows[r][c] == Pending(p)
  {
    if p in RowPending(rows[|rows| - 1]) {
      r := |rows| - 1;
      c := RowPendingFrom(rows[r], p);
    } else {
      r, c := PendingFrom(rows[..|rows| - 1], p);
    }
  }

  lemma DecodedAim(lobs: map<int64, Lob>, k: nat, ws: seq<WireRow>)
    requires RowsOk(lobs, k, ws)
    ensures AllAim(lobs, ShownRows(lobs, k, ws), RowsPending(DecodedRows(ws, 0)))
  {
    var d, goal := DecodedRows(ws, 0), ShownRows(lobs, k, ws);
    var pending := RowsPending(d);
    hide *;
    forall i | 0 <= i < |pending|
      ensures Aims(lobs, goal, pending[i])
    {
      PendingAims(lobs, k, ws, pending[i]);
    }
    AimAll(lobs, goal, pending);
  }

  lemma AimAll(lobs: map<int64, Lob>, goal: seq<Row>, pending: seq<PendingLob>)
    requires forall i | 0 <= i < |pending| :: Aims(lobs, goal, pending[i])
    ensures AllAim(lobs, goal, pending)
  {
  }

  lemma PendingAims(lobs: map<int64, Lob>, k: nat, ws: seq<WireRow>, p: PendingLob)
    requires RowsOk(lobs, k, ws) && p in RowsPending(DecodedRows(ws, 0))
    ensures Aims(lobs, ShownRows(lobs, k, ws), p)
  {
    var d := DecodedRows(ws, 0);
    var r, c := PendingFrom(d, p);
    assert d[r] == DecodedRow(ws[r], r) && |d[r]| == |ws[r]|;
    assert RowOk(lobs, k, ws[r]);
    DecodedLeads(lobs, k, ws, r, c);
    CellLeads(lobs, ws[r][c], r, c);
    hide Sendable, RefOk, Meaning, Shown, RowsPending, LobValue, Servable, DecodedRows;
  }

  // ---- Requests needed ----

  function CellCost(lobs: map<int64, Lob>, w: WireValue): nat {
    if w.WLobRef? && w.lobID in lobs then |lobs[w.lobID].content| + 1 else 0
  }

  function RowCost(lobs: map<int64, Lob>, row: seq<WireValue>): nat {
    if row == [] then 0 else RowCost(lobs, row[..|row| - 1]) + CellCost(lobs, row[|row| - 1])
  }

  /** LOB requests that fetching all these rows takes at most. */
  function RowsCost(lobs: map<int64, Lob>, ws: seq<WireRow>): nat {
    if ws == [] then 0 else RowsCost(lobs, ws[..|ws| - 1]) + RowCost(lobs, ws[|ws| - 1])
  }

  lemma {:induction false} LobsCostAppend(lobs: map<int64, Lob>, a: seq<PendingLob>, b: seq<PendingLob>)
    ensures LobsCost(lobs, a + b) == LobsCost(lobs, a) + LobsCost(lobs, b)
  {
    if a == [] {
      assert a + b == b;
    } else {
      LobsCostAppend(lobs, a[1..], b);
      assert (a + b)[1..] == a[1..] + b;
      hide LobCost;
    }
  }

  lemma {:induction false} RowsCostAppend(lobs: map<int64, Lob>, a: seq<WireRow>, b: seq<WireRow>)
    ensures RowsCost(lobs, a + b) == RowsCost(lobs, a) + RowsCost(lobs, b)
  {
    if b == [] {
      assert a + b == a;
    } else {
      RowsCostAppend(lobs, a, b[..|b| - 1]);
      assert (a + b)[..|a + b| - 1] == a + b[..|b| - 1];
      hide RowCost;
    }
  }

  lemma {:induction false} RowCostIs(lobs: map<int64, Lob>, row: WireRow, n: nat, r: nat)
    requires n <= |row|
    ensures LobsCost(lobs, RowPending(DecodedRow(row, r)[..n])) == RowCost(lobs, row[..n])
  {
    var d := DecodedRow(row, r);
    if n > 0 {
      RowCostIs(lobs, row, n - 1, r);
      CellCostIs(lobs, row, n - 1, r);
      RowPendingSnoc(d, n);
      RowCostSnoc(lobs, row, n);
      hide *;
      LobsCostAppend(lobs, RowPending(d[..n - 1]), CellPending(d[n - 1]));
    } else {
      assert d[..0] == [] && row[..0] == [];
    }
  }

  lemma RowPendingSnoc(row: Row, n: nat)
    requires 0 < n <= |row|
    ensures RowPending(row[..n]) == RowPending(row[..n - 1]) + CellPending(row[n - 1])
  {
    hide CellPending;
    assert row[..n][..n - 1] == row[..n - 1];
  }

  lemma RowCostSnoc(lobs: map<int64, Lob>, row: seq<WireValue>, n: nat)
    requires 0 < n <= |row|
    ensures RowCost(lobs, row[..n]) == RowCost(lobs, row[..n - 1]) + CellCost(lobs, row[n - 1])
  {
    hide CellCost;
    assert row[..n][..n - 1] == row[..n - 1];
  }

  lemma CellCostIs(lobs: map<int64, Lob>, row: WireRow, c: nat, r: nat)
    requires c < |row|
    ensures LobsCost(lobs, CellPending(DecodedRow(row, r)[c])) == CellCost(lobs, row[c])
  {
    assert row[c] in row;
    var v := DecodedRow(row, r)[c];
    assert v == Meaning(row[c], Cell(r, c));
    hide DecodedRow;
    if v.Pending? { OneCost(lobs, v.lob); }
  }

  lemma OneCost(lobs: map<int64, Lob>, p: PendingLob)
    ensures LobsCost(lobs, [p]) == LobCost(lobs, p)
  {
    assert [p][1..] == [];
  }

  lemma {:induction false} RowsCostIs(lobs: map<int64, Lob>, ws: seq<WireRow>, n: nat)
    requires n <= |ws|
    ensures LobsCost(lobs, RowsPending(DecodedRows(ws, 0)[..n])) == RowsCost(lobs, ws[..n])
  {
    var d := DecodedRows(ws, 0);
    if n > 0 {
      RowsCostIs(lobs, ws, n - 1);
      RowCostIs(lobs, ws[n - 1], |ws[n - 1]|, n - 1);
      assert ws[n - 1][..|ws[n - 1]|] == ws[n - 1];
      assert d[n - 1] == DecodedRow(ws[n - 1], n - 1);
      assert d[n - 1][..|ws[n - 1]|] == d[n - 1];
      RowsPendingSnoc(d, n);
      RowsCostSnoc(lobs, ws, n);
      hide *;
      LobsCostAppend(lobs, RowsPending(d[..n - 1]), RowPending(d[n - 1]));
    } else {
      assert d[..0] == [] && ws[..0] == [];
    }
  }

  lemma RowsPendingSnoc(rows: seq<Row>, n: nat)
    requires 0 < n <= |rows|
    ensures RowsPending(rows[..n]) == RowsPending(rows[..n - 1]) + RowPending(rows[n - 1])
  {
    hide RowPending;
    assert rows[..n][..n - 1] == rows[..n - 1];
  }

  lemma RowsCostSnoc(lobs: map<int64, Lob>, ws: seq<WireRow>, n: nat)
    requires 0 < n <= |ws|
    ensures RowsCost(lobs, ws[..n]) == RowsCost(lobs, ws[..n - 1]) + RowCost(lobs, ws[n - 1])
  {
    hide RowCost;
    assert ws[..n][..n - 1] == ws[..n - 1];
  }

  /** The deferred LOBs of a batch bring every cell to the value an ideal decoder shows. */
  lemma DecodedResolve(net: Net, s: Server, k: nat, ws: seq<WireRow>)
    requires Idle(net, s) && RowsOk(s.lobs, k, ws)
    ensures var d := DecodedRows(ws, 0);
            FetchedWithin(Resolve(net, d, RowsPending(d)), ShownRows(s.lobs, k, ws), net, s, RowsCost(s.lobs, ws))
  {
    hide *;
    var d := DecodedRows(ws, 0);
    DecodedOnCourse(s.lobs, k, ws);
    DecodedAim(s.lobs, k, ws);
    AllCostIs(s.lobs, ws);
    ResolveHonest(net, s, d, ShownRows(s.lobs, k, ws), RowsPending(d));
  }

  lemma AllCostIs(lobs: map<int64, Lob>, ws: seq<WireRow>)
    ensures LobsCost(lobs, RowsPending(DecodedRows(ws, 0))) == RowsCost(lobs, ws)
  {
    RowsCostIs(lobs, ws, |ws|);
    hide *;
    assert ws[..|ws|] == ws && DecodedRows(ws, 0)[..|ws|] == DecodedRows(ws, 0);
  }

  // ---- One batch ----

  /** Batch fetched: `rows` with their LOBs in place, or the connection was lost for want of `cost` requests. */
  predicate Delivered(f: Fetch, rows: seq<Row>, end: bool, net: Net, s: Server, cost: nat) {
    match f
    case Fresh(net', rows', end') =>
      && rows' == rows && end' == end && net'.peer.Sequential? && Same(s, net'.peer.server)
      && Idle(net', net'.peer.server) && net'.life >= net.life - cost
    case Refused(_, _) => false
    case Dead(why) => why == Lost && net.life < cost
  }

  predicate Rejected(f: Fetch, e: H2Error, net: Net, s: Server) {
    f.Refused? && f.e == e && Idle(f.net, s)
  }

  /** What the batch for the remaining rows `ws` must come to. */
  ghost predicate BatchRight(f: Fetch, ws: seq<WireRow>, ending: Ending, fetch: int, k: nat, net: Net, s: Server,
                             extra: nat)
    requires RowsOk(s.lobs, k, ws)
  {
    var n := Brings(|ws|, fetch);
    if fetch > |ws| && ending.Throws? then
      Rejected(f, ErrorOf(ending.e), net, s) || (f == Dead(Lost) && net.life < extra)
    else
      Delivered(f, ShownRows(s.lobs, k, ws[..n]), fetch > |ws|, net, s, extra + RowsCost(s.lobs, ws[..n]))
  }

  lemma WidthOk(lobs: map<int64, Lob>, k: nat, ws: seq<WireRow>)
    requires RowsOk(lobs, k, ws)
    ensures forall i | 0 <= i < |ws| :: |ws[i]| == k
  {
    forall i | 0 <= i < |ws|
      ensures |ws[i]| == k
    {
      assert RowOk(lobs, k, ws[i]);
    }
  }

  lemma PrefixOk(lobs: map<int64, Lob>, k: nat, ws: seq<WireRow>, n: nat)
    requires RowsOk(lobs, k, ws) && n <= |ws|
    ensures RowsOk(lobs, k, ws[..n]) && RowsOk(lobs, k, ws[n..])
  {
    hide RowOk;
  }

  /** The batch that is waiting to be read. */
  lemma BatchHonest(net: Net, s: Server, ws: seq<WireRow>, ending: Ending, fetch: int, k: nat)
    requires Holding(net, s, SendRows(ws, ending, fetch)) && RowsOk(s.lobs, k, ws)
    ensures BatchRight(FetchBatch(net, k, fetch, []), ws, ending, fetch, k, net, s, 0)
  {
    var n := Brings(|ws|, fetch);
    var b := SendRows(ws, ending, fetch);
    WidthOk(s.lobs, k, ws);
    PrefixOk(s.lobs, k, ws, n);
    hide *;
    BatchWaiting(net, s, ws, ending, fetch, k);
    PromisedIs(ws, ending, fetch);
    ReadAll(net, s, b);
    if fetch > |ws| && ending.Throws? {
      Refusal(net, k, fetch, s, ErrorOf(ending.e), |b|);
      RejectionRight(FetchBatch(net, k, fetch, []), ws, ending, fetch, k, net, s);
    } else {
      DecodedResolve(Take(net, |b|), s, k, ws[..n]);
      Delivery(net, k, fetch, s, DecodedRows(ws[..n], 0), fetch > |ws|, |b|, ShownRows(s.lobs, k, ws[..n]),
               RowsCost(s.lobs, ws[..n]));
      DeliveryRight(FetchBatch(net, k, fetch, []), ws, ending, fetch, k, net, s, n);
    }
  }

  lemma BatchWaiting(net: Net, s: Server, ws: seq<WireRow>, ending: Ending, fetch: int, k: nat)
    requires Holding(net, s, SendRows(ws, ending, fetch)) && forall i | 0 <= i < |ws| :: |ws[i]| == k
    ensures ParseBatch(Unread(net), k, fetch, []) == Promised(ws, ending, fetch, [])
    ensures |Unread(net)| == |SendRows(ws, ending, fetch)|
  {
    hide *;
    HoldingIs(net, s, SendRows(ws, ending, fetch));
    BatchDecodes(ws, ending, fetch, k, [], []);
    assert Unread(net) + [] == Unread(net);
  }

  lemma PromisedIs(ws: seq<WireRow>, ending: Ending, fetch: int)
    ensures var n := Brings(|ws|, fetch);
            n <= |ws| &&
            Promised(ws, ending, fetch, []) ==
            if fetch > |ws| && ending.Throws? then Threw(ErrorOf(ending.e), |SendRows(ws, ending, fetch)|)
            else Complete(DecodedRows(ws[..n], 0), fetch > |ws|, |SendRows(ws, ending, fetch)|)
  {
    hide SendRows, ErrorOf, DecodedRow;
    var n := Brings(|ws|, fetch);
    assert [] + DecodedRows(ws[..n], 0) == DecodedRows(ws[..n], 0);
  }

  lemma Refusal(net: Net, k: nat, fetch: int, s: Server, e: H2Error, n: nat)
    requires ParseBatch(Unread(net), k, fetch, []) == Threw(e, n) && n <= |Unread(net)| && Idle(Take(net, n), s)
    ensures Rejected(FetchBatch(net, k, fetch, []), e, net, s)
  {
    hide ParseBatch, Idle;
  }

  lemma RejectionRight(f: Fetch, ws: seq<WireRow>, ending: Ending, fetch: int, k: nat, net: Net, s: Server)
    requires RowsOk(s.lobs, k, ws) && fetch > |ws| && ending.Throws? && Rejected(f, ErrorOf(ending.e), net, s)
    ensures BatchRight(f, ws, ending, fetch, k, net, s, 0)
  {
    hide RowsOk, Rejected, ErrorOf;
  }

  lemma Delivery(net: Net, k: nat, fetch: int, s: Server, d: seq<Row>, end: bool, n: nat, goal: seq<Row>, cost: nat)
    requires ParseBatch(Unread(net), k, fetch, []) == Complete(d, end, n) && n <= |Unread(net)|
    requires FetchedWithin(Resolve(Take(net, n), d, RowsPending(d)), goal, Take(net, n), s, cost)
    ensures Delivered(FetchBatch(net, k, fetch, []), goal, end, net, s, cost)
  {
    assert d[0..] == d;
    hide ParseBatch, Resolve, RowsPending, Idle, Same;
  }

  lemma DeliveryRight(f: Fetch, ws: seq<WireRow>, ending: Ending, fetch: int, k: nat, net: Net, s: Server, n: nat)
    requires RowsOk(s.lobs, k, ws) && !(fetch > |ws| && ending.Throws?) && n == Brings(|ws|, fetch) <= |ws|
    requires RowsOk(s.lobs, k, ws[..n])
    requires Delivered(f, ShownRows(s.lobs, k, ws[..n]), fetch > |ws|, net, s, RowsCost(s.lobs, ws[..n]))
    ensures BatchRight(f, ws, ending, fetch, k, net, s, 0)
  {
    hide RowsOk, Delivered, ShownRows, RowsCost;
  }

  // ---- One fetch request ----

  lemma StatusOk(t: Bytes)
    ensures ParseStatus(Put32(STATUS_OK) + t) == Got(None, 4) && |Put32(STATUS_OK)| == 4
  {
    Get32Put(STATUS_OK, t);
    hide Get32, Put32, ParseError;
  }

  lemma FetchServed(s: Server, id: int32, fetch: int32)
    requires s.open && s.resultID == id
    ensures Serve(s, FetchRequest(id, fetch)) ==
            (Put32(STATUS_OK) + SendRows(s.rows, s.ending, fetch), AfterRows(s, fetch))
  {
    UnderstandFetch(id, fetch);
    hide Understand, FetchRequest, SendRows, AfterRows, Put32;
  }

  /** A request for `fetch` more rows brings exactly the next `fetch` rows the server has left. */
  lemma FetchHonest(net: Net, s: Server, fetch: int32, k: nat)
    requires Idle(net, s) && s.open && RowsOk(s.lobs, k, s.rows)
    ensures BatchRight(FetchMore(net, s.resultID, k, fetch, []), s.rows, s.ending, fetch, k, net, AfterRows(s, fetch),
                       1)
  {
    var ok := Put32(STATUS_OK);
    hide *;
    AfterKeeps(s, fetch);
    var id, s' := s.resultID, AfterRows(s, fetch);
    var req, b := FetchRequest(id, fetch), SendRows(s.rows, s.ending, fetch);
    Exchange(net, s, req);
    FetchServed(s, id, fetch);
    Exact(fetch);
    if net.life == 0 {
      FetchLost(net, id, k, fetch);
      LostRight(FetchMore(net, id, k, fetch, []), s.rows, s.ending, fetch, k, net, s');
    } else {
      var sent := Send(net, req).value;
      StatusOk(b);
      HoldingIs(sent, s', ok + b);
      ReadOff(sent, s', ok, b);
      BatchHonest(Take(sent, 4), s', s.rows, s.ending, fetch, k);
      FetchStarts(net, id, k, fetch, sent);
      BatchAfter(FetchBatch(Take(sent, 4), k, fetch, []), s.rows, s.ending, fetch, k, net, Take(sent, 4), s');
    }
  }

  lemma AfterKeeps(s: Server, fetch: int)
    ensures AfterRows(s, fetch).lobs == s.lobs
  {
  }

  lemma Exact(fetch: int32)
    ensures ToInt32(fetch) == fetch
  {
  }

  lemma FetchLost(net: Net, id: int32, k: nat, fetch: int32)
    requires Send(net, FetchRequest(id, fetch)) == None && ToInt32(fetch) == fetch
    ensures FetchMore(net, id, k, fetch, []) == Dead(Lost)
  {
    hide Send, FetchRequest, ToInt32;
  }

  lemma LostRight(f: Fetch, ws: seq<WireRow>, ending: Ending, fetch: int, k: nat, net: Net, s: Server)
    requires f == Dead(Lost) && net.life == 0 && RowsOk(s.lobs, k, ws)
    ensures BatchRight(f, ws, ending, fetch, k, net, s, 1)
  {
    PrefixOk(s.lobs, k, ws, Brings(|ws|, fetch));
    hide RowsOk, RowsCost, ShownRows, ErrorOf;
  }

  lemma FetchStarts(net: Net, id: int32, k: nat, fetch: int32, sent: Net)
    requires Send(net, FetchRequest(id, fetch)) == Some(sent) && ToInt32(fetch) == fetch
    requires ParseStatus(Unread(sent)) == Got(None, 4)
    ensures FetchMore(net, id, k, fetch, []) == FetchBatch(Take(sent, 4), k, fetch, [])
            && Take(sent, 4).life == sent.life
  {
    hide Send, FetchRequest, ToInt32, ParseStatus, FetchBatch;
  }

  lemma BatchAfter(f: Fetch, ws: seq<WireRow>, ending: Ending, fetch: int, k: nat, net: Net, net': Net, s: Server)
    requires RowsOk(s.lobs, k, ws) && BatchRight(f, ws, ending, fetch, k, net', s, 0) && net'.life == net.life - 1
    ensures BatchRight(f, ws, ending, fetch, k, net, s, 1)
  {
    PrefixOk(s.lobs, k, ws, Brings(|ws|, fetch));
    hide RowsOk, RowsCost, ShownRows, ErrorOf, Idle, Same;
  }
}
