/**
  * Request and answer in lockstep: against the sequential server nothing is left unread when a request is written,
  * and a batch whose deferred LOBs are fetched at its boundary shows what an ideal decoder would have shown.
  */
module Lockstep {
  import opened Wire
  import opened Values
  import opened Network
  import opened RowStream

  // ---- One request, one answer ----

  /** No request was written while received bytes were still unread. */
  predicate AllRead(log: seq<Sent>) {
    forall i | 0 <= i < |log| :: log[i].unread == 0
  }

  /** Connected to server `s`, with exactly the bytes `b` received and not yet read. */
  predicate Holding(net: Net, s: Server, b: Bytes) {
    net.peer == Sequential(s) && Unread(net) == b && net.out == [] && AllRead(net.log)
  }

  predicate Idle(net: Net, s: Server) { Holding(net, s, []) }

  lemma Exchange(net: Net, s: Server, req: Bytes)
    requires Idle(net, s)
    ensures net.life == 0 ==> Send(net, req) == None
    ensures net.life > 0 ==>
              Send(net, req).Some? && Send(net, req).value.life == net.life - 1 &&
              Holding(Send(net, req).value, Serve(s, req).1, Serve(s, req).0)
  {
    hide Serve;
    assert net.out + req == req;
    assert (net.input + Serve(s, req).0)[net.pos..] == Serve(s, req).0;
  }

  lemma ReadOff(net: Net, s: Server, a: Bytes, b: Bytes)
    requires Holding(net, s, a + b)
    ensures Holding(Take(net, |a|), s, b)
  {
    assert Unread(Take(net, |a|)) == Unread(net)[|a|..] == b;
    hide AllRead;
  }

  lemma ReadAll(net: Net, s: Server, a: Bytes)
    requires Holding(net, s, a)
    ensures Idle(Take(net, |a|), s)
  {
    assert a == a + [];
    ReadOff(net, s, a, []);
  }

  // ---- One LOB ----

  predicate Servable(lobs: map<int64, Lob>, p: PendingLob) {
    p.lobID in lobs && lobs[p.lobID].mac == p.hmac && Announced(p) <= MAX_WIRE_LENGTH
  }

  /** The same server, except for its schedule of chunk sizes. */
  predicate Same(s: Server, s': Server) { s' == s.(chunks := s'.chunks) }

  /** The next chunk continues what was received and is empty only at the end. */
  lemma ChunkAnswered(s: Server, p: PendingLob, acc: Bytes) returns (chunk: Bytes)
    requires Servable(s.lobs, p) && acc <= s.lobs[p.lobID].content
    ensures acc + chunk <= s.lobs[p.lobID].content && (chunk == [] <==> acc == s.lobs[p.lobID].content)
    ensures var (b, s') := Serve(s, LobRequest(p.lobID, p.hmac, |acc|));
            Same(s, s') && ParseChunk(b) == Got(chunk, |b|)
  {
    hide *;
    ServableIn(s.lobs, p);
    var content := s.lobs[p.lobID].content;
    var n := ChunkSize(s, content, |acc|, CHUNK);
    ChunkServed(s, p, |acc|);
    SizeRight(s, content, |acc|);
    chunk := ChunkGlue(content, acc, n, Serve(s, LobRequest(p.lobID, p.hmac, |acc|)).0);
  }

  lemma ChunkGlue(content: Bytes, acc: Bytes, n: nat, b: Bytes) returns (chunk: Bytes)
    requires acc <= content && |acc| + n <= |content| && n <= 0x1_0000 && (n == 0 <==> |acc| == |content|)
    requires b == Put32(STATUS_OK) + (EncBE(n, 4) + content[|acc|..|acc| + n])
    ensures acc + chunk <= content && (chunk == [] <==> acc == content) && ParseChunk(b) == Got(chunk, |b|)
  {
    chunk := content[|acc|..|acc| + n];
    ChunkParses(chunk, n);
    hide *;
    if |acc| == |content| { assert acc == content; }
  }

  lemma SizeRight(s: Server, content: Bytes, offset: nat)
    requires offset <= |content|
    ensures var n := ChunkSize(s, content, offset, CHUNK);
            offset + n <= |content| && n <= 0x1_0000 && (n == 0 <==> offset == |content|)
  {
  }

  lemma ChunkServed(s: Server, p: PendingLob, offset: nat)
    requires Servable(s.lobs, p) && offset <= |s.lobs[p.lobID].content|
    ensures var content := s.lobs[p.lobID].content;
            var n := ChunkSize(s, content, offset, CHUNK);
            var (b, s') := Serve(s, LobRequest(p.lobID, p.hmac, offset));
            Same(s, s') && offset + n <= |content|
              && b == Put32(STATUS_OK) + (EncBE(n, 4) + content[offset..offset + n])
  {
    hide *;
    ServableIn(s.lobs, p);
    var content := s.lobs[p.lobID].content;
    var n := ChunkSize(s, content, offset, CHUNK);
    UnderstandLob(p.lobID, s.lobs[p.lobID].mac, offset);
    SizeRight(s, content, offset);
    ServeChunk(s, LobRequest(p.lobID, p.hmac, offset), p.lobID, offset);
    if n == 0 { assert content[offset..offset] == []; }
    SameChunks(s, Serve(s, LobRequest(p.lobID, p.hmac, offset)).1);
  }

  lemma ServableIn(lobs: map<int64, Lob>, p: PendingLob)
    requires Servable(lobs, p)
    ensures p.lobID in lobs && lobs[p.lobID].mac == p.hmac && |lobs[p.lobID].content| < 0x8000_0000_0000_0000
  {
  }

  lemma SameChunks(s: Server, s': Server)
    requires s' == s.(chunks := s'.chunks)
    ensures Same(s, s')
  {
  }

  lemma ServeChunk(s: Server, req: Bytes, id: int64, offset: nat)
    requires offset < 0x8000_0000_0000_0000 && id in s.lobs
             && Understand(req) == ReadLob(id, s.lobs[id].mac, offset, CHUNK)
    ensures var content := s.lobs[id].content;
            var n := ChunkSize(s, content, offset, CHUNK);
            && (n > 0 ==> offset + n <= |content|)
            && Serve(s, req) == (Put32(STATUS_OK) + (EncBE(n, 4) + if n == 0 then [] else content[offset..offset + n]),
                                 s.(chunks := if s.chunks == [] then [] else s.chunks[1..]))
  {
    hide Understand, Put32, EncBE;
  }

  lemma ChunkParses(chunk: Bytes, n: nat)
    requires |chunk| == n <= 0x1_0000
    ensures var b := Put32(STATUS_OK) + (EncBE(n, 4) + chunk);
            ParseChunk(b) == Got(chunk, |b|)
  {
    Int32Put(STATUS_OK);
    Int32Put(n);
    ChunkSplit(Put32(STATUS_OK), EncBE(n, 4), chunk);
  }

  lemma ChunkSplit(a: Bytes, l: Bytes, chunk: Bytes)
    requires |a| == |l| == 4 && Int32(a) == STATUS_OK && Int32(l) == |chunk| <= CHUNK
    ensures ParseChunk(a + (l + chunk)) == Got(chunk, 8 + |chunk|)
  {
    hide Int32;
    var b := a + (l + chunk);
    assert b[..4] == a && b[4..8] == l && b[8..8 + |chunk|] == chunk;
  }

  /** The outcome of fetching something that costs at most `cost` requests. */
  predicate FetchedWithin<T(==)>(r: Fetched<T>, v: T, net: Net, s: Server, cost: nat) {
    match r
    case Done(net', v') =>
      && v' == v && net'.peer.Sequential? && Same(s, net'.peer.server)
      && Idle(net', net'.peer.server) && net'.life >= net.life - cost
    case Failed(e) => e == Lost && net.life < cost
  }

  /** `net'` is the connection after one LOB_READ, sent after `acc` was received, was answered with `chunk`. */
  predicate ReadOne(net: Net, p: PendingLob, acc: Bytes, net': Net, chunk: Bytes) {
    var sent := Send(net, LobRequest(p.lobID, p.hmac, |acc|));
    && sent.Some? && ParseChunk(Unread(sent.value)).Got? && ParseChunk(Unread(sent.value)).v == chunk
    && net' == Take(sent.value, ParseChunk(Unread(sent.value)).n)
  }

  lemma ChunksStep(net: Net, p: PendingLob, acc: Bytes, net': Net, chunk: Bytes)
    requires ReadOne(net, p, acc, net', chunk)
    ensures FetchChunks(net, p, acc) == if chunk == [] then Done(net', acc) else FetchChunks(net', p, acc + chunk)
  {
    hide Send, LobRequest, ParseChunk;
  }

  lemma ChunkRead(net: Net, s: Server, p: PendingLob, acc: Bytes) returns (net': Net, s': Server, chunk: Bytes)
    requires Idle(net, s) && Servable(s.lobs, p) && acc <= s.lobs[p.lobID].content && net.life > 0
    ensures ReadOne(net, p, acc, net', chunk) && Idle(net', s') && Same(s, s') && net'.life == net.life - 1
    ensures acc + chunk <= s.lobs[p.lobID].content && (chunk == [] <==> acc == s.lobs[p.lobID].content)
  {
    hide *;
    var req := LobRequest(p.lobID, p.hmac, |acc|);
    Exchange(net, s, req);
    chunk := ChunkAnswered(s, p, acc);
    var sent := Send(net, req).value;
    s' := Serve(s, req).1;
    ReadAll(sent, s', Serve(s, req).0);
    HoldingIs(sent, s', Serve(s, req).0);
    net' := Take(sent, |Serve(s, req).0|);
    ReadOneIs(net, p, acc, sent, chunk);
  }

  lemma ReadOneIs(net: Net, p: PendingLob, acc: Bytes, sent: Net, chunk: Bytes)
    requires Send(net, LobRequest(p.lobID, p.hmac, |acc|)) == Some(sent)
    requires ParseChunk(Unread(sent)) == Got(chunk, |Unread(sent)|)
    ensures ReadOne(net, p, acc, Take(sent, |Unread(sent)|), chunk) && Take(sent, |Unread(sent)|).life == sent.life
  {
    hide Send, LobRequest, ParseChunk, Unread;
  }

  lemma HoldingIs(net: Net, s: Server, b: Bytes)
    requires Holding(net, s, b)
    ensures Unread(net) == b && net.peer == Sequential(s)
  {
  }

  /** Any chunking gives the whole content, and stays in lockstep. */
  lemma {:induction false} LobHonest(net: Net, s: Server, p: PendingLob, acc: Bytes)
    requires Idle(net, s) && Servable(s.lobs, p) && acc <= s.lobs[p.lobID].content
    ensures var content := s.lobs[p.lobID].content;
            FetchedWithin(FetchChunks(net, p, acc), content, net, s, |content| - |acc| + 1)
    decreases |s.lobs[p.lobID].content| - |acc|
  {
    var content := s.lobs[p.lobID].content;
    hide *;
    if net.life == 0 {
      Exchange(net, s, LobRequest(p.lobID, p.hmac, |acc|));
      ChunksLost(net, p, acc, content, s);
    } else {
      var net', s', chunk := ChunkRead(net, s, p, acc);
      ChunksStep(net, p, acc, net', chunk);
      HoldingIdle(net', s');
      if chunk == [] {
        ChunksDone(net, net', acc, s, s');
      } else {
        SameKeeps(s, s', p);
        LobHonest(net', s', p, acc + chunk);
        Dearer(FetchChunks(net', p, acc + chunk), content, net, net', s, s', |content| - |acc + chunk| + 1,
               |content| - |acc| + 1);
      }
    }
  }

  lemma HoldingIdle(net: Net, s: Server)
    requires Idle(net, s)
    ensures net.peer == Sequential(s)
  {
  }

  lemma SameKeeps(s: Server, s': Server, p: PendingLob)
    requires Same(s, s') && Servable(s.lobs, p)
    ensures Servable(s'.lobs, p) && s'.lobs == s.lobs && p.lobID in s.lobs
  {
  }

  lemma ChunksLost(net: Net, p: PendingLob, acc: Bytes, content: Bytes, s: Server)
    requires Send(net, LobRequest(p.lobID, p.hmac, |acc|)) == None && net.life == 0 && |acc| <= |content|
    ensures FetchedWithin(FetchChunks(net, p, acc), content, net, s, |content| - |acc| + 1)
  {
    hide Send, LobRequest;
  }

  lemma ChunksDone(net: Net, net': Net, acc: Bytes, s: Server, s': Server)
    requires net'.peer == Sequential(s') && Idle(net', s') && Same(s, s') && net'.life == net.life - 1
    ensures FetchedWithin(Done(net', acc), acc, net, s, 1)
  {
    hide Idle;
  }

  /** What is within a cost after one request is within a greater cost before it. */
  lemma Dearer<T>(r: Fetched<T>, v: T, net: Net, net': Net, s: Server, s': Server, cost: nat, cost': nat)
    requires FetchedWithin(r, v, net', s', cost) && Same(s, s') && net'.life >= net.life - (cost' - cost)
             && cost <= cost'
    ensures FetchedWithin(r, v, net, s, cost')
  {
    hide Idle;
  }

  // ---- All LOBs of a batch ----

  /** The requests needed for a LOB, whatever the chunking: at most one per byte and one for the end. */
  function LobCost(lobs: map<int64, Lob>, p: PendingLob): nat {
    if p.lobID in lobs then |lobs[p.lobID].content| + 1 else 0
  }

  function LobsCost(lobs: map<int64, Lob>, pending: seq<PendingLob>): nat {
    if pending == [] then 0 else LobCost(lobs, pending[0]) + LobsCost(lobs, pending[1..])
  }

  /** Fetching `p` produces the value its cell should show. */
  predicate Aims(lobs: map<int64, Lob>, goal: seq<Row>, p: PendingLob) {
    && Servable(lobs, p) && p.row < |goal| && p.col < |goal[p.row]|
    && goal[p.row][p.col] == LobValue(p, lobs[p.lobID].content)
  }

  predicate AllAim(lobs: map<int64, Lob>, goal: seq<Row>, pending: seq<PendingLob>) {
    forall i | 0 <= i < |pending| :: Aims(lobs, goal, pending[i])
  }

  /** The cell shows its goal, or its placeholder is still to be fetched. */
  predicate OnCourse(v: Value, goal: Value, r: nat, c: nat, pending: seq<PendingLob>) {
    v == goal || (v.Pending? && v.lob.row == r && v.lob.col == c && v.lob in pending)
  }

  predicate RowOnCourse(row: Row, goal: Row, r: nat, pending: seq<PendingLob>) {
    |row| == |goal| && forall c | 0 <= c < |row| :: OnCourse(row[c], goal[c], r, c, pending)
  }

  predicate RowsOnCourse(rows: seq<Row>, goal: seq<Row>, pending: seq<PendingLob>) {
    |rows| == |goal| && forall r | 0 <= r < |rows| :: RowOnCourse(rows[r], goal[r], r, pending)
  }

  lemma SpliceOnCourse(lobs: map<int64, Lob>, rows: seq<Row>, goal: seq<Row>, p: PendingLob, rest: seq<PendingLob>)
    requires RowsOnCourse(rows, goal, [p] + rest) && Aims(lobs, goal, p)
    ensures RowsOnCourse(Splice(rows, p, LobValue(p, lobs[p.lobID].content)), goal, rest)
  {
    var v := LobValue(p, lobs[p.lobID].content);
    assert RowOnCourse(rows[p.row], goal[p.row], p.row, [p] + rest);
    var rows' := Splice(rows, p, v);
    assert rows' == rows[p.row := rows[p.row][p.col := v]];
    hide LobValue, Servable, Splice;
    forall r | 0 <= r < |rows'|
      ensures RowOnCourse(rows'[r], goal[r], r, rest)
    {
      assert RowOnCourse(rows[r], goal[r], r, [p] + rest);
      CellsOnCourse(rows[r], rows'[r], goal[r], r, p, rest);
    }
  }

  lemma CellsOnCourse(row: Row, row': Row, goal: Row, r: nat, p: PendingLob, rest: seq<PendingLob>)
    requires RowOnCourse(row, goal, r, [p] + rest)
    requires r == p.row ==> p.col < |row| && row' == row[p.col := goal[p.col]]
    requires r != p.row ==> row' == row
    ensures RowOnCourse(row', goal, r, rest)
  {
    forall c | 0 <= c < |row'|
      ensures OnCourse(row'[c], goal[c], r, c, rest)
    {
      assert OnCourse(row[c], goal[c], r, c, [p] + rest);
    }
  }

  lemma Arrived(rows: seq<Row>, goal: seq<Row>)
    requires RowsOnCourse(rows, goal, [])
    ensures rows == goal
  {
    forall r | 0 <= r < |rows|
      ensures rows[r] == goal[r]
    {
      assert RowOnCourse(rows[r], goal[r], r, []);
    }
  }

  /** Resolution reaches the goal and stays in lockstep. */
  lemma {:induction false} ResolveHonest(net: Net, s: Server, rows: seq<Row>, goal: seq<Row>, pending: seq<PendingLob>)
    requires Idle(net, s) && RowsOnCourse(rows, goal, pending) && AllAim(s.lobs, goal, pending)
    ensures FetchedWithin(Resolve(net, rows, pending), goal, net, s, LobsCost(s.lobs, pending))
    decreases |pending|
  {
    hide *;
    if pending == [] {
      Arrived(rows, goal);
      NothingPending(net, s, rows);
    } else {
      var p, rest := pending[0], pending[1..];
      FirstAims(s.lobs, goal, pending);
      assert pending == [p] + rest;
      SpliceOnCourse(s.lobs, rows, goal, p, rest);
      OneLob(net, s, p);
      var v := LobValue(p, s.lobs[p.lobID].content);
      var f := FetchLob(net, p);
      if f.Done? {
        DoneMeans(f, v, net, s, LobCost(s.lobs, p));
        ResolveHonest(f.net, f.net.peer.server, Splice(rows, p, v), goal, rest);
        Dearer(Resolve(f.net, Splice(rows, p, v), rest), goal, net, f.net, s, f.net.peer.server, LobsCost(s.lobs, rest),
               LobsCost(s.lobs, pending));
      }
      ResolveStep(net, s, rows, goal, pending, v);
    }
  }

  lemma FirstAims(lobs: map<int64, Lob>, goal: seq<Row>, pending: seq<PendingLob>)
    requires AllAim(lobs, goal, pending) && pending != []
    ensures Aims(lobs, goal, pending[0]) && AllAim(lobs, goal, pending[1..])
    ensures Servable(lobs, pending[0]) && pending[0].lobID in lobs
    ensures LobsCost(lobs, pending) == LobCost(lobs, pending[0]) + LobsCost(lobs, pending[1..])
  {
    assert Aims(lobs, goal, pending[0]);
    hide LobValue, LobCost;
  }

  lemma NothingPending(net: Net, s: Server, rows: seq<Row>)
    requires Idle(net, s)
    ensures FetchedWithin(Resolve(net, rows, []), rows, net, s, LobsCost(s.lobs, []))
  {
  }

  lemma DoneMeans<T>(r: Fetched<T>, v: T, net: Net, s: Server, cost: nat)
    requires FetchedWithin(r, v, net, s, cost) && r.Done?
    ensures r.v == v && r.net.peer.Sequential? && Same(s, r.net.peer.server) && r.net.peer.server.lobs == s.lobs
    ensures Idle(r.net, r.net.peer.server) && r.net.life >= net.life - cost
  {
    hide Idle;
  }

  lemma OneLob(net: Net, s: Server, p: PendingLob)
    requires Idle(net, s) && Servable(s.lobs, p)
    ensures FetchedWithin(FetchLob(net, p), LobValue(p, s.lobs[p.lobID].content), net, s, LobCost(s.lobs, p))
  {
    LobHonest(net, s, p, []);
    hide FetchChunks, Idle, Same, LobValue;
  }

  lemma ResolveStep(net: Net, s: Server, rows: seq<Row>, goal: seq<Row>, pending: seq<PendingLob>, v: Value)
    requires pending != []
    requires FetchedWithin(FetchLob(net, pending[0]), v, net, s, LobCost(s.lobs, pending[0]))
    requires var f := FetchLob(net, pending[0]);
             f.Done? ==> FetchedWithin(Resolve(f.net, Splice(rows, pending[0], v), pending[1..]), goal, net, s,
                                       LobsCost(s.lobs, pending))
    ensures FetchedWithin(Resolve(net, rows, pending), goal, net, s, LobsCost(s.lobs, pending))
  {
    hide FetchLob, Splice, Idle, Same, LobCost;
  }
}
