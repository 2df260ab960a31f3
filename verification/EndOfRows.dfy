/**
  * When a result ends, for every state and every peer: the end of the rows is reported only after the server announced
  * it, and a session that is gone or dies while rows are expected is an error for ever after.
  */
module EndOfRows {
  import opened Wire
  import opened Values
  import opened Network
  import opened RowStream
  import opened Discard
  import Batches
  import Streaming
  import TypeInfos

  /** Rows are still expected and none is at hand: only the connection can tell what comes next. */
  predicate Waiting(st: RowsState) {
    !st.closed && st.err.None? && st.buffered == [] && !st.noMore && (st.rowCount >= 0 ==> st.offset < st.rowCount)
  }

  /** Every row was handed out, and an end flag or the announced count said so. */
  predicate Finished(st: RowsState) {
    st.err.None? && st.buffered == [] && (st.noMore || 0 <= st.rowCount <= st.offset)
  }

  function NextFetch(st: RowsState): Fetch
    requires st.net.Some?
  {
    FetchMore(st.net.value, st.resultID, st.columns, FetchCount(st), st.buffered)
  }

  /**
    * The end is reported exactly for a closed result, for one whose end was announced, and when a successful fetch
    * brought no row.
    */
  lemma EofExactly(st: RowsState, dest: nat)
    ensures Next(st, dest).1 == Eof <==>
            || st.closed
            || (dest == st.columns && Finished(st))
            || (dest == st.columns && Waiting(st) && st.net.Some? && NextFetch(st).Fresh? && NextFetch(st).rows == [])
  {
    hide FetchMore;
  }

  /** A closed result has ended; otherwise an error comes first, and a wrong destination changes nothing. */
  lemma FirstChecks(st: RowsState, dest: nat)
    ensures st.closed ==> Next(st, dest) == (st, Eof)
    ensures !st.closed && st.err.Some? ==> Next(st, dest) == (st, NextErr(st.err.value))
    ensures Next(st, dest).1 == BadDest <==> !st.closed && st.err.None? && dest != st.columns
    ensures Next(st, dest).1 == BadDest ==> Next(st, dest).0 == st
  {
    hide FetchMore;
  }

  /** Without a session rows that are still expected are an error, on this call and on every later one. */
  lemma NoSession(st: RowsState, n: nat)
    requires Waiting(st) && st.net.None?
    ensures Nth(st, n) == NextErr(BadConn)
    ensures StateAfter(st, n + 1) == st.(err := Some(BadConn))
  {
    FirstFailure(st);
    FailureSticks(st, BadConn, n);
  }

  lemma FirstFailure(st: RowsState)
    requires Waiting(st) && st.net.None?
    ensures Next(st, st.columns) == (st.(err := Some(BadConn)), NextErr(BadConn))
  {
  }

  /** The first error is the outcome of every later call, and the state does not change any more. */
  lemma FailureSticks(st: RowsState, e: Err, n: nat)
    requires Waiting(st) && Next(st, st.columns).1 == NextErr(e)
    ensures Nth(st, n) == NextErr(e) && StateAfter(st, n + 1) == Next(st, st.columns).0
  {
    hide *;
    FailedNow(st, e);
    var st' := Next(st, st.columns).0;
    NthIs(st, n);
    NthIs(st', n);
    StateFrom(st, n);
    if n > 0 {
      StateFrom(st, n - 1);
      NthIs(st', n - 1);
      Streaming.ErrorSticks(st', n - 1);
    }
    Streaming.ErrorSticks(st', n);
  }

  lemma FailedNow(st: RowsState, e: Err)
    requires Waiting(st) && Next(st, st.columns).1 == NextErr(e)
    ensures var st' := Next(st, st.columns).0; st'.err == Some(e) && !st'.closed && st'.columns == st.columns
  {
    hide FetchMore;
  }

  lemma NthIs(st: RowsState, n: nat)
    ensures StateAfter(st, 0) == st && Nth(st, n) == Next(StateAfter(st, n), st.columns).1
  {
    hide Next;
  }

  /** All calls after the first. */
  lemma {:induction false} StateFrom(st: RowsState, n: nat)
    requires Next(st, st.columns).0.columns == st.columns
    ensures StateAfter(st, n + 1) == StateAfter(Next(st, st.columns).0, n)
  {
    hide Next;
    if n == 0 {
      assert StateAfter(st, 0) == st;
    } else {
      StateFrom(st, n - 1);
    }
  }

  /** A session lost in a fetch, whatever the peer sent, is an error for ever: never the end, never a row. */
  lemma DeadFetch(st: RowsState, n: nat)
    requires Waiting(st) && st.net.Some? && Next(st, st.columns).0.net.None?
    ensures NextFetch(st).Dead? && (NextFetch(st).why == Lost || NextFetch(st).why == Broken)
    ensures Nth(st, n) == NextErr(NextFetch(st).why)
    ensures StateAfter(st, n + 1) == st.(net := None, err := Some(NextFetch(st).why))
  {
    DeadOutcome(st);
    DeadReason(st.net.value, st.resultID, st.columns, FetchCount(st), st.buffered);
    hide *;
    FailureSticks(st, NextFetch(st).why, n);
  }

  lemma DeadOutcome(st: RowsState)
    requires Waiting(st) && st.net.Some? && Next(st, st.columns).0.net.None?
    ensures NextFetch(st).Dead?
    ensures Next(st, st.columns) ==
            (st.(net := None, err := Some(NextFetch(st).why)), NextErr(NextFetch(st).why))
  {
    hide FetchMore;
  }

  lemma DeadReason(net: Net, id: int32, k: nat, fetch: int, have: seq<Row>)
    requires FetchMore(net, id, k, fetch, have).Dead?
    ensures FetchMore(net, id, k, fetch, have).why == Lost || FetchMore(net, id, k, fetch, have).why == Broken
  {
    hide ParseBatch, ParseStatus, Send, Resolve, RowsPending;
    if Send(net, FetchRequest(id, ToInt32(fetch))).Some? {
      var sent := Send(net, FetchRequest(id, ToInt32(fetch))).value;
      if ParseStatus(Unread(sent)).Got? {
        var mid := Take(sent, ParseStatus(Unread(sent)).n);
        var b := ParseBatch(Unread(mid), k, fetch, have);
        if b.Complete? { ResolveReason(Take(mid, b.n), b.rows, RowsPending(b.rows[|have|..])); }
      }
    }
  }

  lemma {:induction false} ResolveReason(net: Net, rows: seq<Row>, pending: seq<PendingLob>)
    ensures Resolve(net, rows, pending).Failed? ==>
              Resolve(net, rows, pending).e == Lost || Resolve(net, rows, pending).e == Broken
    decreases |pending|
  {
    if pending != [] {
      ChunksReason(net, pending[0], []);
      hide FetchChunks;
      var f := FetchLob(net, pending[0]);
      if f.Done? { ResolveReason(f.net, Splice(rows, pending[0], f.v), pending[1..]); }
    }
  }

  lemma {:induction false} ChunksReason(net: Net, p: PendingLob, acc: Bytes)
    ensures FetchChunks(net, p, acc).Failed? ==>
              FetchChunks(net, p, acc).e == Lost || FetchChunks(net, p, acc).e == Broken
    decreases net.life
  {
    hide ParseChunk;
    var sent := Send(net, LobRequest(p.lobID, p.hmac, |acc|));
    if sent.Some? && ParseChunk(Unread(sent.value)).Got? && ParseChunk(Unread(sent.value)).v != [] {
      var g := ParseChunk(Unread(sent.value));
      ChunksReason(Take(sent.value, g.n), p, acc + g.v);
    }
  }

  /** What a response says to the caller of Next. */
  predicate Means(out: Outcome, r: Response) {
    match r
    case Rejected(e) => out == NextErr(Reported(Batches.ErrorOf(e)))
    case Answered(_, b, _) =>
      match b.tail
      case ByError(e) => out == NextErr(Reported(Batches.ErrorOf(e)))
      case _ => if b.rows == [] then out == Eof else out.NextRow?
  }

  /**
    * A session that survives Next has read exactly one complete response, and the outcome is what that response says:
    * its error, its first row, or the end when it has no row.
    */
  lemma LiveFetch(st: RowsState) returns (r: Response)
    requires Waiting(st) && st.net.Some? && Next(st, st.columns).0.net.Some?
    ensures IsResponse(r, 0, st.columns, FetchCount(st))
    ensures var (st', out) := Next(st, st.columns);
            && Extends(st.net.value, st'.net.value) && ReadBetween(st.net.value, st'.net.value) == ResponseBytes(r)
            && Means(out, r)
            && (out.NextRow? ==> (st'.noMore <==> r.batch.tail.ByFlag?) && |st'.buffered| == |r.batch.rows| - 1
                                 && st'.offset == st.offset + 1 && st'.err.None?)
  {
    hide *;
    LiveOutcome(st);
    r := DiscardRule(st.net.value, st.resultID, st.columns, FetchCount(st), st.buffered);
    NextTells(st, r);
  }

  lemma NextTells(st: RowsState, r: Response)
    requires Waiting(st) && st.net.Some? && Told(NextFetch(st), r, 0)
    ensures var (st', out) := Next(st, st.columns);
            && Means(out, r)
            && (out.NextRow? ==> r.Answered? && (st'.noMore <==> r.batch.tail.ByFlag?) && st'.err.None?
                                 && |st'.buffered| == |r.batch.rows| - 1 && st'.offset == st.offset + 1)
  {
    hide FetchMore, FetchCount, Batches.ErrorOf;
  }

  lemma LiveOutcome(st: RowsState)
    requires Waiting(st) && st.net.Some? && Next(st, st.columns).0.net.Some?
    ensures !NextFetch(st).Dead? && Live(NextFetch(st)) == Next(st, st.columns).0.net && st.buffered == []
    ensures NextFetch(st) == FetchMore(st.net.value, st.resultID, st.columns, FetchCount(st), st.buffered)
  {
    hide FetchMore;
  }

  /** The end of rows that were still expected was announced: a success status and the end flag, and nothing else. */
  lemma EofHeard(st: RowsState)
    requires Waiting(st) && st.fetchSize > 0 && Next(st, st.columns).1 == Eof
    ensures st.net.Some? && Next(st, st.columns).0.net.Some?
    ensures var net, net' := st.net.value, Next(st, st.columns).0.net.value;
            Extends(net, net') && (ReadBetween(net, net') == Put32(1) + [0] || ReadBetween(net, net') == Put32(3) + [0])
  {
    EofExactly(st, st.columns);
    EofLive(st);
    var r := LiveFetch(st);
    hide Next, ReadBetween, Put32;
    EmptyResponse(r, st.columns, FetchCount(st));
  }

  lemma EofLive(st: RowsState)
    requires Waiting(st) && st.net.Some? && NextFetch(st).Fresh? && NextFetch(st).rows == []
    ensures Next(st, st.columns).0.net.Some?
  {
    hide FetchMore;
  }

  lemma EmptyResponse(r: Response, k: nat, fetch: int)
    requires IsResponse(r, 0, k, fetch) && fetch > 0 && Means(Eof, r)
    ensures ResponseBytes(r) == Put32(1) + [0] || ResponseBytes(r) == Put32(3) + [0]
  {
    hide Put32, ErrorBytes;
    assert r.Answered? && r.batch.rows == [] && r.batch.tail.ByFlag?;
    assert BatchRefs([], 0) == 0;
    assert r.lobs == [];
    assert BatchBytes([], ByFlag) + LobsBytes([]) == [0];
  }

  // ---- What is asked ----

  /** Nothing sent is forgotten. */
  predicate Grown(log: seq<Sent>, log': seq<Sent>) { log <= log' }

  lemma {:induction false} ChunksGrow(net: Net, p: PendingLob, acc: Bytes)
    ensures FetchChunks(net, p, acc).Done? ==> Grown(net.log, FetchChunks(net, p, acc).net.log)
    decreases net.life
  {
    hide ParseChunk, Answer;
    var sent := Send(net, LobRequest(p.lobID, p.hmac, |acc|));
    if sent.Some? && ParseChunk(Unread(sent.value)).Got? && ParseChunk(Unread(sent.value)).v != [] {
      var g := ParseChunk(Unread(sent.value));
      ChunksGrow(Take(sent.value, g.n), p, acc + g.v);
    }
  }

  lemma {:induction false} ResolveGrows(net: Net, rows: seq<Row>, pending: seq<PendingLob>)
    ensures Resolve(net, rows, pending).Done? ==> Grown(net.log, Resolve(net, rows, pending).net.log)
    decreases |pending|
  {
    if pending != [] {
      ChunksGrow(net, pending[0], []);
      hide FetchChunks;
      var f := FetchLob(net, pending[0]);
      if f.Done? { ResolveGrows(f.net, Splice(rows, pending[0], f.v), pending[1..]); }
    }
  }

  lemma BatchGrows(net: Net, k: nat, fetch: int, have: seq<Row>)
    ensures Live(FetchBatch(net, k, fetch, have)).Some? ==>
              Grown(net.log, Live(FetchBatch(net, k, fetch, have)).value.log)
  {
    hide ParseBatch, Resolve, RowsPending;
    var b := ParseBatch(Unread(net), k, fetch, have);
    if b.Complete? { ResolveGrows(Take(net, b.n), b.rows, RowsPending(b.rows[|have|..])); }
  }

  /** The fetch size, but never more rows than the announced count leaves. */
  function Wanted(st: RowsState): int32
    requires Waiting(st) && 0 < st.fetchSize <= MAX_INT32
  {
    if st.rowCount >= 0 && st.rowCount - st.offset < st.fetchSize then st.rowCount - st.offset else st.fetchSize
  }

  /** The first request of a fetch: operation 5 for this result and the number of rows wanted. */
  lemma Asks(st: RowsState)
    requires Waiting(st) && st.net.Some? && Next(st, st.columns).0.net.Some? && 0 < st.fetchSize <= MAX_INT32
    ensures var net, log' := st.net.value, Next(st, st.columns).0.net.value.log;
            net.log + [Sent(net.out + (Put32(5) + (Put32(st.resultID) + Put32(Wanted(st)))), |Unread(net)|)] <= log'
  {
    hide *;
    LiveOutcome(st);
    WantedIs(st);
    FetchLogs(st.net.value, st.resultID, st.columns, FetchCount(st), st.buffered);
    RequestIs(st.resultID, Wanted(st));
  }

  lemma WantedIs(st: RowsState)
    requires Waiting(st) && st.net.Some? && 0 < st.fetchSize <= MAX_INT32
    ensures ToInt32(FetchCount(st)) == Wanted(st)
    ensures NextFetch(st) == FetchMore(st.net.value, st.resultID, st.columns, FetchCount(st), st.buffered)
  {
    hide FetchMore;
  }

  lemma RequestIs(id: int32, n: int32)
    ensures FetchRequest(id, n) == Put32(5) + (Put32(id) + Put32(n))
  {
    hide Put32;
  }

  lemma FetchLogs(net: Net, id: int32, k: nat, fetch: int, have: seq<Row>)
    requires Live(FetchMore(net, id, k, fetch, have)).Some?
    ensures net.log + [Sent(net.out + FetchRequest(id, ToInt32(fetch)), |Unread(net)|)]
            <= Live(FetchMore(net, id, k, fetch, have)).value.log
  {
    hide ParseStatus, FetchBatch, Answer, FetchRequest, ToInt32;
    var sent := Send(net, FetchRequest(id, ToInt32(fetch))).value;
    var n := ParseStatus(Unread(sent)).n;
    BatchGrows(Take(sent, n), k, fetch, have);
  }

  // ---- LOBs that announce too much ----

  /** A CLOB of more than 512 MiB octets or a BLOB of such a precision is given up, whatever the server would send. */
  lemma OversizedLob(net: Net, p: PendingLob)
    requires (if p.clob then p.octetLength else p.precision) > 0x2000_0000
    ensures FetchLob(net, p) == Failed(Broken)
  {
  }

  // ---- Opening ----

  /**
    * A connection that survives the opening of a result has read the row count, the column metadata and one complete
    * batch with its deferred LOBs; the new result starts before the first row, and an error of the server is passed on.
    */
  lemma OpenRule(net: Net, id: int32, columns: int32, fetchSize: int)
    returns (n: nat, b: BatchFrame, lobs: seq<seq<Bytes>>)
    requires !OpenRows(net, id, columns, fetchSize).OpenDead?
    ensures columns >= 0
    ensures 8 + n <= |Unread(net)| && TypeInfos.ParseMeta(columns, Unread(net)[8..]).Got?
            && TypeInfos.ParseMeta(columns, Unread(net)[8..]).n == n
    ensures var count := Int64(Unread(net)[..8]);
            && IsBatch(b, 0, columns, if 0 <= count < fetchSize then count else fetchSize) && AllLobs(lobs)
            && |lobs| == (if b.tail.ByError? then 0 else BatchRefs(b.rows, 0))
            && match OpenRows(net, id, columns, fetchSize)
               case Open(st) =>
                 && !b.tail.ByError? && |st.buffered| == |b.rows| && (st.noMore <==> b.tail.ByFlag?)
                 && st == RowsState(st.net, id, columns, count, fetchSize, st.buffered, 0, st.noMore, false, None)
                 && st.net.Some? && OpeningRead(net, st.net.value, n, b, lobs)
               case OpenRefused(net', e) =>
                 b.tail.ByError? && e == Batches.ErrorOf(b.tail.e) && OpeningRead(net, net', n, b, lobs)
               case OpenDead(_) => false
  {
    hide FetchBatch, TypeInfos.ParseMeta, IsBatch, AllLobs, BatchRefs, OpeningRead, BatchTold;
    n := TypeInfos.ParseMeta(columns, Unread(net)[8..]).n;
    var count := Int64(Unread(net)[..8]);
    var first := if count >= 0 && fetchSize > count then count else fetchSize;
    var mid := Take(net, 8 + n);
    b, lobs := BatchRead(mid, columns, first, []);
    OpenedFrom(net, n, mid, Live(FetchBatch(mid, columns, first, [])).value, b, lobs);
    ToldCases(FetchBatch(mid, columns, first, []), b);
  }

  lemma ToldCases(f: Fetch, b: BatchFrame)
    requires BatchTold(f, b, 0)
    ensures b.tail.ByError? ==> f.Refused? && f.e == Batches.ErrorOf(b.tail.e)
    ensures !b.tail.ByError? ==> f.Fresh? && |f.rows| == |b.rows| && (f.end <==> b.tail.ByFlag?)
  {
  }

  /** Count and metadata, `8 + n` bytes, then the batch and its LOBs. */
  predicate OpeningRead(net: Net, net': Net, n: nat, b: BatchFrame, lobs: seq<seq<Bytes>>) {
    && 8 + n <= |Unread(net)| && Extends(net, net')
    && ReadBetween(net, net') == Unread(net)[..8 + n] + (BatchBytes(b.rows, b.tail) + LobsBytes(lobs))
  }

  lemma OpenedFrom(net: Net, n: nat, mid: Net, net': Net, b: BatchFrame, lobs: seq<seq<Bytes>>)
    requires 8 + n <= |Unread(net)| && mid == Take(net, 8 + n) && Extends(mid, net')
    requires ReadBetween(mid, net') == BatchBytes(b.rows, b.tail) + LobsBytes(lobs)
    ensures OpeningRead(net, net', n, b, lobs)
  {
    ReadTake(net, 8 + n);
    ReadJoin(net, mid, net');
    hide BatchBytes, LobsBytes, ReadBetween;
  }
}
