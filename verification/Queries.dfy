/**
  * A query from its answer to its last row: opening the result, the whole run, and how deferred LOBs compare with
  * inline ones.
  */
module Queries {
  import opened Wire
  import opened Unicode
  import opened Values
  import opened Encoding
  import opened Network
  import opened RowStream
  import opened Batches
  import opened Lockstep
  import opened BatchFetch
  import opened Streaming
  import TypeInfos

  // ---- Opening ----

  function First(count: int, fetchSize: int): int {
    if count >= 0 && fetchSize > count then count else fetchSize
  }

  /** Row count, columns and the first batch, as the server sends them after the column count. */
  function Opening(count: int64, cols: seq<TypeInfos.ColumnTree>, rows: seq<WireRow>, ending: Ending,
                   fetchSize: int): Bytes
    requires TypeInfos.ColumnsOk(cols)
  {
    Put64(count) + (TypeInfos.ColumnsBytes(cols) + SendRows(rows, ending, First(count, fetchSize)))
  }

  /**
    * The server has run a query with result `s` and sent the opening of its answer. The fetch size reaches it as a
    * 32-bit field.
    */
  ghost predicate Asked(net: Net, s: Server, cols: seq<TypeInfos.ColumnTree>, count: int64, fetchSize: int) {
    var c := ToInt32(fetchSize);
    && TypeInfos.ColumnsOk(cols) && |cols| <= MAX_COLLECTION && s.open && 1 <= fetchSize
    && RowsOk(s.lobs, |cols|, s.rows)
    && Holding(net, AfterRows(s, First(count, c)), Opening(count, cols, s.rows, s.ending, c))
  }

  /**
    * The driver waits for more rows than the cut fetch size asked for, and the server has no reason to end the batch.
    */
  predicate Starves(count: int, fetchSize: int, rows: nat) {
    var c := ToInt32(fetchSize);
    c != fetchSize && count != 0 && (count < 0 || count > c) && c <= rows
  }

  ghost predicate OpenedRight(o: Opened, s: Server, cols: seq<TypeInfos.ColumnTree>, count: int64, fetchSize: int,
                              net: Net) {
    match o
    case OpenRefused(net', e) =>
      First(count, fetchSize) > |s.rows| && s.ending.Throws? && e == ErrorOf(s.ending.e) && AllRead(net'.log)
    case OpenDead(why) => why == Lost && net.life < Demand(s.lobs, s.rows)
    case Open(st) =>
      && Streams(st, s.rows, 0) && !(First(count, fetchSize) > |s.rows| && s.ending.Throws?)
      && st.rowCount == count && st.fetchSize == fetchSize && st.columns == |cols|
      && st.net.Some? && st.net.value.peer.Sequential?
      && st.net.value.peer.server.lobs == s.lobs && st.net.value.peer.server.ending == s.ending
      && (net.life > Demand(s.lobs, s.rows) ==> Enough(st))
  }

  function OpenedBy(f: Fetch, id: int32, columns: nat, count: int, fetchSize: int): Opened {
    match f
    case Dead(e) => OpenDead(e)
    case Refused(net, e) => OpenRefused(net, e)
    case Fresh(net, rows, end) => Open(RowsState(Some(net), id, columns, count, fetchSize, rows, 0, end, false, None))
  }

  lemma OpenUnfolds(net: Net, id: int32, columns: int32, fetchSize: int, count: int64, n: nat)
    requires Get64(Unread(net)) == Got(count, 8) && 8 + n <= |Unread(net)| && columns >= 0
    requires TypeInfos.ParseMeta(columns, Unread(net)[8..]).Got?
             && TypeInfos.ParseMeta(columns, Unread(net)[8..]).n == n
    ensures OpenRows(net, id, columns, fetchSize) ==
            OpenedBy(FetchBatch(Take(net, 8 + n), columns, First(count, fetchSize), []), id, columns, count, fetchSize)
  {
    hide Get64, TypeInfos.ParseMeta, FetchBatch, Unread;
  }

  lemma HeaderRead(net: Net, s: Server, count: int64, cols: seq<TypeInfos.ColumnTree>, batch: Bytes)
    requires TypeInfos.ColumnsOk(cols) && |cols| <= MAX_COLLECTION
    requires Holding(net, s, Put64(count) + (TypeInfos.ColumnsBytes(cols) + batch))
    ensures Get64(Unread(net)) == Got(count, 8) && |Unread(net)| >= 8
    ensures var g := TypeInfos.ParseMeta(|cols|, Unread(net)[8..]);
            && g.Got? && g.n == |TypeInfos.ColumnsBytes(cols)| && 8 + g.n <= |Unread(net)|
            && Holding(Take(net, 8 + g.n), s, batch)
  {
    hide *;
    MetaRead(cols, batch);
    var a, b := Put64(count), TypeInfos.ColumnsBytes(cols);
    HoldingIs(net, s, a + (b + batch));
    Get64Put(count, b + batch);
    ReadOff(net, s, a, b + batch);
    ReadOff(Take(net, 8), s, b, batch);
    TakeTwice(net, 8, |b|);
  }

  lemma MetaRead(cols: seq<TypeInfos.ColumnTree>, batch: Bytes)
    requires TypeInfos.ColumnsOk(cols) && |cols| <= MAX_COLLECTION
    ensures var g := TypeInfos.ParseMeta(|cols|, TypeInfos.ColumnsBytes(cols) + batch);
            g.Got? && g.n == |TypeInfos.ColumnsBytes(cols)|
  {
    TypeInfos.MetaRoundTrip(cols, batch);
    hide TypeInfos.ParseColumns, TypeInfos.ColumnsBytes, TypeInfos.EraseColumns;
  }

  lemma TakeTwice(net: Net, a: nat, b: nat)
    requires a + b <= |Unread(net)|
    ensures b <= |Unread(Take(net, a))| && Take(Take(net, a), b) == Take(net, a + b)
  {
  }

  /**
    * Unless it starves, opening a result starts a run at row zero, passes on the server's error, or finds the
    * connection gone.
    */
  lemma OpenStreams(net: Net, s: Server, cols: seq<TypeInfos.ColumnTree>, count: int64, fetchSize: int)
    requires Asked(net, s, cols, count, fetchSize) && !Starves(count, fetchSize, |s.rows|)
    ensures OpenedRight(OpenRows(net, s.resultID, |cols|, fetchSize), s, cols, count, fetchSize, net)
  {
    hide *;
    AskedMeans(net, s, cols, count, fetchSize);
    var first := First(count, fetchSize);
    var s' := AfterRows(s, first);
    var at := OpenReads(net, s', s.resultID, cols, count, fetchSize, SendRows(s.rows, s.ending, first));
    BatchHonest(at, s', s.rows, s.ending, first, |cols|);
    FirstBatch(net, at, s, cols, count, fetchSize, FetchBatch(at, |cols|, first, []));
  }

  lemma OpenReads(net: Net, s: Server, id: int32, cols: seq<TypeInfos.ColumnTree>, count: int64, fetchSize: int,
                  batch: Bytes) returns (at: Net)
    requires TypeInfos.ColumnsOk(cols) && |cols| <= MAX_COLLECTION
    requires Holding(net, s, Put64(count) + (TypeInfos.ColumnsBytes(cols) + batch))
    ensures Holding(at, s, batch) && at.life == net.life
    ensures OpenRows(net, id, |cols|, fetchSize) ==
            OpenedBy(FetchBatch(at, |cols|, First(count, fetchSize), []), id, |cols|, count, fetchSize)
  {
    hide *;
    FewColumns(|cols|);
    HeaderRead(net, s, count, cols, batch);
    var n := |TypeInfos.ColumnsBytes(cols)|;
    at := Take(net, 8 + n);
    TakeLives(net, 8 + n);
    OpenUnfolds(net, id, |cols|, fetchSize, count, n);
  }

  lemma FewColumns(n: nat)
    requires n <= MAX_COLLECTION
    ensures n < 0x8000_0000
  {
  }

  lemma TakeLives(net: Net, n: nat)
    requires n <= |Unread(net)|
    ensures Take(net, n).life == net.life
  {
  }

  lemma AskedMeans(net: Net, s: Server, cols: seq<TypeInfos.ColumnTree>, count: int64, fetchSize: int)
    requires Asked(net, s, cols, count, fetchSize) && !Starves(count, fetchSize, |s.rows|)
    ensures TypeInfos.ColumnsOk(cols) && |cols| <= MAX_COLLECTION && s.open && 1 <= fetchSize
    ensures var first := First(count, fetchSize);
            && RowsOk(s.lobs, |cols|, s.rows) && AfterRows(s, first).lobs == s.lobs
            && Holding(net, AfterRows(s, first),
                       Put64(count) + (TypeInfos.ColumnsBytes(cols) + SendRows(s.rows, s.ending, first)))
  {
    hide TypeInfos.ColumnsOk, RowsOk, Holding, First, SendRows, TypeInfos.ColumnsBytes, Put64, Starves, ToInt32;
    SameAnswer(s, count, fetchSize);
  }

  /** Unless the driver starves, the server answers the cut fetch size as it would have answered the full one. */
  lemma SameAnswer(s: Server, count: int, fetchSize: int)
    requires 1 <= fetchSize && !Starves(count, fetchSize, |s.rows|)
    ensures var a, b := First(count, ToInt32(fetchSize)), First(count, fetchSize);
            AfterRows(s, a) == AfterRows(s, b) && SendRows(s.rows, s.ending, a) == SendRows(s.rows, s.ending, b)
  {
    SendSame(s.rows, s.ending, First(count, ToInt32(fetchSize)), First(count, fetchSize));
    hide SendRows;
  }

  /** Counts beyond the rows there are get the same answer, and so do counts of nothing. */
  lemma {:induction false} SendSame(rows: seq<WireRow>, ending: Ending, a: int, b: int)
    requires a == b || (a <= 0 && b <= 0) || (a > |rows| && b > |rows|)
    ensures SendRows(rows, ending, a) == SendRows(rows, ending, b)
    decreases |rows|
  {
    hide *;
    if a <= 0 || b <= 0 {
      SentNone(rows, ending, a);
      SentNone(rows, ending, b);
    } else if rows == [] {
      SentEnd(ending, a, b);
    } else {
      SendSame(rows[1..], ending, a - 1, b - 1);
      SendCons(rows, ending, a);
      SendCons(rows, ending, b);
    }
  }

  lemma SentNone(rows: seq<WireRow>, ending: Ending, count: int)
    requires count <= 0
    ensures SendRows(rows, ending, count) == []
  {
  }

  lemma SentEnd(ending: Ending, a: int, b: int)
    requires a > 0 && b > 0
    ensures SendRows([], ending, a) == SendRows([], ending, b)
  {
    hide ErrorBytes;
  }

  lemma FirstBatch(net: Net, at: Net, s: Server, cols: seq<TypeInfos.ColumnTree>, count: int64, fetchSize: int,
                   f: Fetch)
    requires 1 <= fetchSize && !Starves(count, fetchSize, |s.rows|)
    requires s.open && RowsOk(s.lobs, |cols|, s.rows) && at.life == net.life
    requires AfterRows(s, First(count, fetchSize)).lobs == s.lobs
    requires BatchRight(f, s.rows, s.ending, First(count, fetchSize), |cols|, at,
                        AfterRows(s, First(count, fetchSize)), 0)
    ensures OpenedRight(OpenedBy(f, s.resultID, |cols|, count, fetchSize), s, cols, count, fetchSize, net)
  {
    var k, first := |cols|, First(count, fetchSize);
    var n := Brings(|s.rows|, first);
    PrefixOk(s.lobs, k, s.rows, n);
    SplitCost(s.lobs, s.rows, n);
    if first > |s.rows| && s.ending.Throws? {
      hide RowsOk, ShownRows, RowsCost, ErrorOf, AfterRows, Streams;
    } else if f.Fresh? {
      FreshOpens(at, s, k, count, fetchSize, f);
      OpenEnough(at, s, count, fetchSize, f);
      hide *;
      OpensRight(net, s, cols, count, fetchSize, f);
    } else {
      hide RowsOk, ShownRows, RowsCost, ErrorOf, AfterRows, Streams;
    }
  }

  lemma OpensRight(net: Net, s: Server, cols: seq<TypeInfos.ColumnTree>, count: int64, fetchSize: int, f: Fetch)
    requires f.Fresh? && !(First(count, fetchSize) > |s.rows| && s.ending.Throws?)
    requires var st := RowsState(Some(f.net), s.resultID, |cols|, count, fetchSize, f.rows, 0, f.end, false, None);
             && Streams(st, s.rows, 0) && f.net.peer.Sequential?
             && f.net.peer.server.lobs == s.lobs && f.net.peer.server.ending == s.ending
             && (net.life > Demand(s.lobs, s.rows) ==> Enough(st))
    ensures OpenedRight(OpenedBy(f, s.resultID, |cols|, count, fetchSize), s, cols, count, fetchSize, net)
  {
    hide Streams, Demand, Enough, First;
  }

  lemma FreshOpens(at: Net, s: Server, k: nat, count: int64, fetchSize: int, f: Fetch)
    requires 1 <= fetchSize && !Starves(count, fetchSize, |s.rows|)
    requires s.open && RowsOk(s.lobs, k, s.rows) && f.Fresh?
    requires !(First(count, fetchSize) > |s.rows| && s.ending.Throws?)
    requires AfterRows(s, First(count, fetchSize)).lobs == s.lobs
    requires BatchRight(f, s.rows, s.ending, First(count, fetchSize), k, at, AfterRows(s, First(count, fetchSize)), 0)
    ensures Streams(RowsState(Some(f.net), s.resultID, k, count, fetchSize, f.rows, 0, f.end, false, None), s.rows, 0)
    ensures f.net.peer.Sequential? && f.net.peer.server.lobs == s.lobs && f.net.peer.server.ending == s.ending
  {
    var first := First(count, fetchSize);
    var n := Brings(|s.rows|, first);
    PrefixOk(s.lobs, k, s.rows, n);
    ShowsSlice(s.lobs, k, s.rows, 0, n);
    assert s.rows[0..][..n] == s.rows[..n];
    Whole(fetchSize);
    NothingLeft(count, fetchSize, |s.rows|);
    hide Starves, First, Brings, RowsOk, ShownRows, BufferShows, RowsCost, ErrorOf, Idle;
  }

  /** A fetch size beyond 32 bits that does not starve brings everything at once. */
  lemma NothingLeft(count: int, fetchSize: int, rows: nat)
    requires 1 <= fetchSize && !Starves(count, fetchSize, rows)
    ensures var first := First(count, fetchSize);
            && (fetchSize <= MAX_INT32 || first > rows || Brings(rows, first) == count)
            && Brings(rows, first) == (if first > rows then rows else if first < 0 then 0 else first)
            && 0 <= first <= fetchSize && (count >= 0 ==> first <= count) && (first == fetchSize || first == count)
  {
    FetchField(fetchSize);
  }

  lemma Whole(f: nat)
    requires f > 0
    ensures f % f == 0 && 0 % f == 0
  {
  }

  lemma OpenEnough(at: Net, s: Server, count: int64, fetchSize: int, f: Fetch)
    requires 1 <= fetchSize && f.Fresh? && f.net.peer.Sequential?
    requires var n := Brings(|s.rows|, First(count, fetchSize));
             && n <= |s.rows| && Same(AfterRows(s, First(count, fetchSize)), f.net.peer.server)
             && f.net.life >= at.life - RowsCost(s.lobs, s.rows[..n])
    ensures at.life > Demand(s.lobs, s.rows) ==>
              Enough(RowsState(Some(f.net), s.resultID, 0, count, fetchSize, f.rows, 0, f.end, false, None))
  {
    var n := Brings(|s.rows|, First(count, fetchSize));
    SplitCost(s.lobs, s.rows, n);
    hide RowsCost;
  }

  // ---- A fetch size beyond 32 bits ----

  /** The requested size travels as a 32-bit field, which is exact for exactly the sizes that fit. */
  lemma FetchField(fetch: int)
    ensures ToInt32(fetch) == fetch <==> -0x8000_0000 <= fetch <= MAX_INT32
  {
  }

  /**
    * For every fetch size, opening a result breaks the session if and only if the size does not fit 32 bits, the driver
    * expects rows beyond the cut size, and the server has at least as many as the cut size asks for.
    */
  lemma OpenStarves(net: Net, s: Server, cols: seq<TypeInfos.ColumnTree>, count: int64, fetchSize: int)
    requires Asked(net, s, cols, count, fetchSize)
    ensures OpenRows(net, s.resultID, |cols|, fetchSize) == OpenDead(Broken) <==> Starves(count, fetchSize, |s.rows|)
  {
    if Starves(count, fetchSize, |s.rows|) {
      StarvingMeans(net, s, cols, count, fetchSize);
      hide *;
      var c := ToInt32(fetchSize);
      var s', b := AfterRows(s, c), SendRows(s.rows, s.ending, c);
      WidthOk(s.lobs, |cols|, s.rows);
      var at := OpenReads(net, s', s.resultID, cols, count, fetchSize, b);
      HoldingIs(at, s', b);
      BatchStarves(s.rows, s.ending, c, First(count, fetchSize), |cols|, []);
      StarvedBatch(at, b, |cols|, First(count, fetchSize), s.resultID, count, fetchSize);
    } else {
      OpenStreams(net, s, cols, count, fetchSize);
      hide OpenRows, Asked, Starves, Streams, Demand, First, Enough, AllRead, ErrorOf;
    }
  }

  lemma StarvingMeans(net: Net, s: Server, cols: seq<TypeInfos.ColumnTree>, count: int64, fetchSize: int)
    requires Asked(net, s, cols, count, fetchSize) && Starves(count, fetchSize, |s.rows|)
    ensures TypeInfos.ColumnsOk(cols) && |cols| <= MAX_COLLECTION && RowsOk(s.lobs, |cols|, s.rows)
    ensures var c := ToInt32(fetchSize);
            && c <= |s.rows| && First(count, fetchSize) > 0 && First(count, fetchSize) > c
            && Holding(net, AfterRows(s, c),
                       Put64(count) + (TypeInfos.ColumnsBytes(cols) + SendRows(s.rows, s.ending, c)))
  {
    FetchField(fetchSize);
    hide TypeInfos.ColumnsOk, RowsOk, Holding, SendRows, TypeInfos.ColumnsBytes, Put64;
  }

  lemma StarvedBatch(at: Net, b: Bytes, k: nat, fetch: int, id: int32, count: int, fetchSize: int)
    requires Unread(at) == b && ParseBatch(b + [], k, fetch, []) == Garbled
    ensures OpenedBy(FetchBatch(at, k, fetch, []), id, k, count, fetchSize) == OpenDead(Broken)
  {
    assert b + [] == b;
    hide ParseBatch;
  }

  /** The smallest size that does not fit is cut to a negative one: with a lazy count every opening starves. */
  lemma SmallestStarves(rows: nat)
    ensures Starves(-1, MAX_INT32 + 1, rows)
  {
  }

  /** Everything there is was fetched. */
  predicate Fetched(st: RowsState) {
    st.err == None && !st.closed && (st.noMore || (st.rowCount >= 0 && st.offset + |st.buffered| == st.rowCount))
  }

  lemma {:induction false} FetchedStays(st: RowsState, n: nat)
    requires Fetched(st)
    ensures Fetched(StateAfter(st, n)) && StateAfter(st, n).net == st.net && StateAfter(st, n).columns == st.columns
  {
    if n > 0 {
      FetchedStays(st, n - 1);
      hide Refill;
    }
  }

  /** A result that opens with such a fetch size never asks the server for rows again, so no later request is cut. */
  lemma NeverAsksAgain(net: Net, s: Server, cols: seq<TypeInfos.ColumnTree>, count: int64, fetchSize: int, n: nat)
    requires Asked(net, s, cols, count, fetchSize) && fetchSize > MAX_INT32
    ensures var o := OpenRows(net, s.resultID, |cols|, fetchSize);
            o.Open? ==> StateAfter(o.st, n).net == o.st.net
  {
    OpenStarves(net, s, cols, count, fetchSize);
    var o := OpenRows(net, s.resultID, |cols|, fetchSize);
    if o.Open? {
      OpenStreams(net, s, cols, count, fetchSize);
      StreamsFetched(o.st, s.rows);
      hide OpenRows, Asked, StateAfter, Streams, Fetched;
      FetchedStays(o.st, n);
    }
  }

  lemma StreamsFetched(st: RowsState, all: seq<WireRow>)
    requires Streams(st, all, 0) && st.fetchSize > MAX_INT32
    ensures Fetched(st)
  {
    hide Idle, RowsOk, BufferShows, OnBoundary;
  }

  // ---- Whole queries ----

  /**
    * On a connection that lasts, a query that neither starves nor gets an error as its first batch opens, and call
    * number `n` of `Next` has the expected outcome, whatever row count was announced and whatever the fetch size.
    */
  lemma WholeQuery(net: Net, s: Server, cols: seq<TypeInfos.ColumnTree>, count: int64, fetchSize: int, n: nat)
    requires Asked(net, s, cols, count, fetchSize) && net.life > Demand(s.lobs, s.rows)
    ensures var o := OpenRows(net, s.resultID, |cols|, fetchSize);
            if Starves(count, fetchSize, |s.rows|) then o == OpenDead(Broken)
            else if First(count, fetchSize) > |s.rows| && s.ending.Throws? then
              o.OpenRefused? && o.e == ErrorOf(s.ending.e)
            else
              && o.Open? && Nth(o.st, n) == Expected(s.lobs, |cols|, s.rows, s.ending, count, fetchSize, n)
              && StateAfter(o.st, n).offset == Min(n, Deliverable(s.rows, s.ending, count, fetchSize))
              && StateAfter(o.st, n).net.Some? && AllRead(StateAfter(o.st, n).net.value.log)
  {
    OpenStarves(net, s, cols, count, fetchSize);
    if Starves(count, fetchSize, |s.rows|) {
      hide *;
      return;
    }
    OpenStreams(net, s, cols, count, fetchSize);
    var o := OpenRows(net, s.resultID, |cols|, fetchSize);
    if o.Open? {
      StreamingRefinement(o.st, s.rows, n);
      NotLost(o.st, s.rows, n);
      hide OpenRows, Next, StateAfter, Asked, Starves, Expected, AllRead, ErrorOf, Streams, Enough;
    } else {
      hide OpenRows, Next, StateAfter, Asked, Starves, Expected, ErrorOf, Streams, Enough;
    }
  }

  lemma NotLost(st: RowsState, all: seq<WireRow>, n: nat)
    requires Streams(st, all, 0) && Enough(st)
    ensures StateAfter(st, n).err != Some(Lost) && StateAfter(st, n).net.Some?
    ensures Nth(st, n) != NextErr(Lost)
  {
    Basics(st, all, 0);
    RunReaches(st, all, 0, n);
    var now := StateAfter(st, n);
    NthIs(st, all, n);
    if now.err.Some? {
      ErrorStep(now);
      hide Streams, Enough, Next, StateAfter, Goal;
    } else {
      var j := Min(n, Goal(st, all));
      Basics(now, all, j);
      NextStreams(now, all, j);
      hide Streams, Enough, Next, StateAfter, Goal, Final, RowOk, ShownRow, AllRead;
    }
  }

  /** With an exact or a lazy count and a server that does not fail, the rows of the list are delivered exactly. */
  lemma ExactlyTheRows(net: Net, s: Server, cols: seq<TypeInfos.ColumnTree>, count: int64, fetchSize: int, n: nat)
    requires Asked(net, s, cols, count, fetchSize) && net.life > Demand(s.lobs, s.rows)
    requires s.ending.Exhausted? && (count < 0 || count == |s.rows|)
    ensures var o := OpenRows(net, s.resultID, |cols|, fetchSize);
            if Starves(count, fetchSize, |s.rows|) then o == OpenDead(Broken)
            else
              && o.Open? && StateAfter(o.st, n).offset == Min(n, |s.rows|)
              && if n < |s.rows| then
                   RowOk(s.lobs, |cols|, s.rows[n]) && Nth(o.st, n) == NextRow(ShownRow(s.lobs, |cols|, s.rows[n]))
                 else
                   Nth(o.st, n) == Eof
  {
    WholeQuery(net, s, cols, count, fetchSize, n);
    hide OpenRows, Nth, StateAfter, Holding, AllRead, Opening, ShownRow, RowOk, Starves, Asked;
  }

  /** The result opened and call number `n` of Next delivers a row. */
  predicate Delivers(o: Opened, n: nat) { o.Open? && Nth(o.st, n).NextRow? }

  /**
    * With a server that fails after its last row and a driver that reads that far, every row reaches the caller if and
    * only if the rows fill whole batches: those of the batch that ends in the error do not.
    */
  lemma AllOfThemDelivered(net: Net, s: Server, cols: seq<TypeInfos.ColumnTree>, count: int64, fetchSize: int)
    requires Asked(net, s, cols, count, fetchSize) && net.life > Demand(s.lobs, s.rows)
    requires !Starves(count, fetchSize, |s.rows|) && Fails(s.rows, s.ending, count)
    ensures var o := OpenRows(net, s.resultID, |cols|, fetchSize);
            (forall n: nat | n < |s.rows| :: Delivers(o, n)) <==> |s.rows| % fetchSize == 0
  {
    hide *;
    AskedSize(net, s, cols, count, fetchSize);
    var o := OpenRows(net, s.resultID, |cols|, fetchSize);
    forall n: nat | n < |s.rows|
      ensures Delivers(o, n) <==> n < |s.rows| - |s.rows| % fetchSize
    {
      RowDelivered(net, s, cols, count, fetchSize, n);
    }
    WholeBatches(o, |s.rows|, fetchSize);
  }

  lemma WholeBatches(o: Opened, rows: nat, fetchSize: int)
    requires fetchSize > 0
    requires forall n: nat | n < rows :: Delivers(o, n) <==> n < rows - rows % fetchSize
    ensures (forall n: nat | n < rows :: Delivers(o, n)) <==> rows % fetchSize == 0
  {
    hide *;
    LastLost(rows, fetchSize);
    if rows % fetchSize != 0 {
      var n: nat := rows - 1;
      assert !Delivers(o, n);
    }
  }

  lemma AskedSize(net: Net, s: Server, cols: seq<TypeInfos.ColumnTree>, count: int64, fetchSize: int)
    requires Asked(net, s, cols, count, fetchSize)
    ensures 1 <= fetchSize && |cols| < 0x8000_0000
  {
    hide Holding, RowsOk, Opening;
  }

  lemma RowDelivered(net: Net, s: Server, cols: seq<TypeInfos.ColumnTree>, count: int64, fetchSize: int, n: nat)
    requires Asked(net, s, cols, count, fetchSize) && net.life > Demand(s.lobs, s.rows) && 1 <= fetchSize
    requires !Starves(count, fetchSize, |s.rows|) && Fails(s.rows, s.ending, count) && n < |s.rows|
    ensures var o := OpenRows(net, s.resultID, |cols|, fetchSize);
            Delivers(o, n) <==> n < |s.rows| - |s.rows| % fetchSize
  {
    hide OpenRows, Nth, StateAfter, Asked, Starves, AllRead, ShownRow, RowOk, Demand, ErrorOf, First, Deliverable;
    WholeQuery(net, s, cols, count, fetchSize, n);
    FailingBatch(s, count, fetchSize, n);
  }

  lemma FailingBatch(s: Server, count: int64, fetchSize: int, n: nat)
    requires 1 <= fetchSize && n < |s.rows| && Fails(s.rows, s.ending, count)
    ensures First(count, fetchSize) > |s.rows| ==> |s.rows| % fetchSize == |s.rows|
    ensures Deliverable(s.rows, s.ending, count, fetchSize) == |s.rows| - |s.rows| % fetchSize
  {
    if |s.rows| < fetchSize { SmallRest(|s.rows|, fetchSize); }
  }

  lemma SmallRest(n: nat, m: nat)
    requires n < m
    ensures n % m == n
  {
  }

  lemma LastLost(rows: nat, fetchSize: nat)
    requires fetchSize > 0
    ensures 0 <= rows % fetchSize <= rows
  {
  }

  /** One row and a fetch size of two: the row is sent and not delivered. */
  lemma OneRowLost(e: ErrorFrame)
    ensures Fails([[]], Throws(e), -1) && Deliverable([[]], Throws(e), -1, 2) == 0
  {
  }

  // ---- Deferred against inline ----

  /** A deferred BLOB shows what an inline one shows, except that an empty one of non-positive precision is nil. */
  lemma DeferredBlob(lobs: map<int64, Lob>, w: WireValue)
    requires w.WLobRef? && !w.clob && Sendable(w, false) && RefOk(lobs, w)
    requires |lobs[w.lobID].content| <= MAX_WIRE_LENGTH
    ensures var content := lobs[w.lobID].content;
            && (Shown(lobs, w) == Meaning(WBlob(content), Cell(0, 0)) <==> !(content == [] && w.precision <= 0))
            && (content == [] && w.precision <= 0 ==> Shown(lobs, w) == Binary(None))
  {
  }

  /** A deferred CLOB shows the text; an inline one shows it exactly when it has no surrogate pair. */
  lemma DeferredClob(lobs: map<int64, Lob>, w: WireValue, u: seq<Unit>)
    requires w.WLobRef? && w.clob && Sendable(w, false) && RefOk(lobs, w)
    requires |u| <= MAX_WIRE_LENGTH && lobs[w.lobID].content == Utf8(Decode16(u))
    ensures Shown(lobs, w) == Meaning(WClob(u), Cell(0, 0)) <==> !HasPair(u)
  {
    ClobAgainstString(u);
    RunesOfUtf8(Decode16(u));
    RunesOfUtf8(ClobText(u));
    hide Utf8, Decode16, ClobText, HasPair, Runes;
  }
}
