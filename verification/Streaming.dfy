/**
  * Row streaming refines the server's row list: whatever the announced count, fetch size, chunking and deferred LOBs,
  * successive calls of `Next` deliver the rows in order, once each, and then the end.
  */
module Streaming {
  import opened Wire
  import opened Values
  import opened Network
  import opened RowStream
  import opened Batches
  import opened Lockstep
  import opened BatchFetch

  // ---- The specification: what a run must deliver ----

  /** The server fails after its last row, and the driver does not stop before it. */
  predicate Fails(all: seq<WireRow>, ending: Ending, rowCount: int) {
    ending.Throws? && (rowCount < 0 || rowCount > |all|)
  }

  /** How many rows reach the caller. The rows of a batch that ends in an error frame do not. */
  function Deliverable(all: seq<WireRow>, ending: Ending, rowCount: int, fetchSize: int): int
    requires fetchSize > 0
  {
    if Fails(all, ending, rowCount) then |all| - |all| % fetchSize
    else if 0 <= rowCount < |all| then rowCount
    else |all|
  }

  function Finally(all: seq<WireRow>, ending: Ending, rowCount: int): Outcome {
    if Fails(all, ending, rowCount) then NextErr(Reported(ErrorOf(ending.e))) else Eof
  }

  // ---- The invariant ----

  /**
    * `i` rows were delivered; the buffer and the server hold the rest of `all`, in order and without overlap. With a
    * fetch size beyond 32 bits nothing is left to ask for.
    */
  ghost predicate Streams(st: RowsState, all: seq<WireRow>, i: nat) {
    && st.net.Some? && st.net.value.peer.Sequential? && !st.closed && st.err == None
    && var s := st.net.value.peer.server;
    && var base := i + |st.buffered|;
    && Idle(st.net.value, s) && RowsOk(s.lobs, st.columns, all)
    && s.resultID == st.resultID && 1 <= st.fetchSize
    && (st.fetchSize <= MAX_INT32 || st.noMore || base == st.rowCount)
    && st.offset == i && base <= |all|
    && st.buffered == BufferShows(s.lobs, st.columns, all, i, base)
    && s.rows == all[base..]
    && (st.rowCount >= 0 ==> base <= st.rowCount)
    && (if st.noMore then base == |all| && s.ending.Exhausted? else s.open)
    && (st.noMore || OnBoundary(base, st.fetchSize) || base == st.rowCount)
  }

  predicate OnBoundary(base: nat, fetchSize: int)
    requires fetchSize > 0
  {
    base % fetchSize == 0
  }

  ghost function BufferShows(lobs: map<int64, Lob>, k: nat, all: seq<WireRow>, i: nat, base: nat): seq<Row>
    requires RowsOk(lobs, k, all) && i <= base <= |all|
  {
    PrefixOk(lobs, k, all, base);
    PrefixOk(lobs, k, all[..base], i);
    ShownRows(lobs, k, all[..base][i..])
  }

  /** The connection survives every request the remaining rows can take. */
  predicate Enough(st: RowsState) {
    st.noMore || (st.net.Some? && st.net.value.peer.Sequential? &&
                  st.net.value.life > Demand(st.net.value.peer.server.lobs, st.net.value.peer.server.rows))
  }

  function Demand(lobs: map<int64, Lob>, rows: seq<WireRow>): nat { |rows| + RowsCost(lobs, rows) }

  /** The same query: what a run does not change. */
  predicate SameJob(st: RowsState, st': RowsState) {
    && st'.columns == st.columns && st'.rowCount == st.rowCount && st'.fetchSize == st.fetchSize
    && st.net.Some? && st.net.value.peer.Sequential? && st'.net.Some? && st'.net.value.peer.Sequential?
    && st'.net.value.peer.server.lobs == st.net.value.peer.server.lobs
    && st'.net.value.peer.server.ending == st.net.value.peer.server.ending
  }

  function Goal(st: RowsState, all: seq<WireRow>): int
    requires st.fetchSize > 0 && st.net.Some? && st.net.value.peer.Sequential?
  {
    Deliverable(all, st.net.value.peer.server.ending, st.rowCount, st.fetchSize)
  }

  function Final(st: RowsState, all: seq<WireRow>): Outcome
    requires st.net.Some? && st.net.value.peer.Sequential?
  {
    Finally(all, st.net.value.peer.server.ending, st.rowCount)
  }

  // ---- One call ----

  /** Everything buffered is deliverable. */
  lemma Bound(st: RowsState, all: seq<WireRow>, i: nat)
    requires Streams(st, all, i)
    ensures i + |st.buffered| <= Goal(st, all)
  {
    var base, f := i + |st.buffered|, st.fetchSize;
    hide Idle, RowsOk, BufferShows;
    if Fails(all, st.net.value.peer.server.ending, st.rowCount) {
      Multiple(base, |all|, f);
    }
  }

  lemma Multiple(a: nat, n: nat, f: nat)
    requires f > 0 && a % f == 0 && a <= n
    ensures a <= n - n % f
    ensures n < a + f ==> a == n - n % f
  {
    var q, r := a / f, n / f;
    assert a == q * f && n == r * f + n % f;
    if q > r {
      AtLeast(q - r, f);
    } else if q < r {
      AtLeast(r - q, f);
    }
  }

  lemma AtLeast(k: int, f: nat)
    requires k >= 1
    ensures k * f >= f
  {
    assert k * f == (k - 1) * f + f;
  }

  lemma Aligned(i: nat, f: nat)
    requires f > 0
    ensures OnBoundary(i, f) ==> OnBoundary(i + f, f)
  {
    var q, r, x := i / f, (i + f) / f, (i + f) % f;
    assert i == q * f + i % f && i + f == r * f + x;
    if r < q + 1 {
      AtLeast(q + 1 - r, f);
    } else if r > q + 1 {
      AtLeast(r - q - 1, f);
    }
  }

  /** A buffered row is the next row of the list. */
  lemma PopStreams(st: RowsState, all: seq<WireRow>, i: nat)
    requires Streams(st, all, i) && st.buffered != []
    ensures i < |all| && Streams(Pop(st).0, all, i + 1)
    ensures var lobs := st.net.value.peer.server.lobs;
            RowOk(lobs, st.columns, all[i]) && Pop(st).1 == NextRow(ShownRow(lobs, st.columns, all[i]))
    ensures SameJob(st, Pop(st).0) && (Enough(st) ==> Enough(Pop(st).0))
  {
    var lobs, base := st.net.value.peer.server.lobs, i + |st.buffered|;
    ShowsHead(lobs, st.columns, all, i, base);
    hide Idle, RowsOk, RowOk, BufferShows, ShownRow, Demand;
  }

  lemma ShowsHead(lobs: map<int64, Lob>, k: nat, all: seq<WireRow>, i: nat, base: nat)
    requires RowsOk(lobs, k, all) && i < base <= |all|
    ensures RowOk(lobs, k, all[i])
    ensures |BufferShows(lobs, k, all, i, base)| == base - i
    ensures BufferShows(lobs, k, all, i, base)[0] == ShownRow(lobs, k, all[i])
    ensures BufferShows(lobs, k, all, i, base)[1..] == BufferShows(lobs, k, all, i + 1, base)
  {
    PrefixOk(lobs, k, all, base);
    PrefixOk(lobs, k, all[..base], i);
    PrefixOk(lobs, k, all[..base], i + 1);
    hide RowOk, ShownRow;
    assert RowOk(lobs, k, all[i]);
    var a := all[..base][i..];
    assert a[0] == all[i] && a[1..] == all[..base][i + 1..];
  }

  lemma ShowsSlice(lobs: map<int64, Lob>, k: nat, all: seq<WireRow>, i: nat, n: nat)
    requires RowsOk(lobs, k, all) && i + n <= |all|
    ensures RowsOk(lobs, k, all[i..]) && RowsOk(lobs, k, all[i..][..n])
    ensures BufferShows(lobs, k, all, i, i + n) == ShownRows(lobs, k, all[i..][..n])
  {
    PrefixOk(lobs, k, all, i);
    PrefixOk(lobs, k, all[i..], n);
    hide RowOk, ShownRow;
    assert all[..i + n][i..] == all[i..][..n];
  }

  /** The state between a refill and the row it hands out. */
  function Refilled(st: RowsState, net: Net, rows: seq<Row>, end: bool): RowsState {
    st.(net := Some(net), buffered := rows, noMore := st.noMore || end)
  }

  predicate NeedsRefill(st: RowsState) {
    st.buffered == [] && !(st.rowCount >= 0 && st.offset >= st.rowCount) && !st.noMore
  }

  /** The fetch for state `st` brought `rows` over a connection that is now `net`. */
  ghost predicate Brought(st: RowsState, net: Net, rows: seq<Row>, end: bool) {
    && st.net.Some? && st.net.value.peer.Sequential? && 1 <= FetchCount(st) <= st.fetchSize
    && var s, fetch := st.net.value.peer.server, FetchCount(st);
    && !(fetch > |s.rows| && s.ending.Throws?)
    && RowsOk(s.lobs, st.columns, s.rows) && RowsOk(s.lobs, st.columns, s.rows[..Brings(|s.rows|, fetch)])
    && Delivered(Fresh(net, rows, end), ShownRows(s.lobs, st.columns, s.rows[..Brings(|s.rows|, fetch)]),
                 fetch > |s.rows|, st.net.value, AfterRows(s, fetch),
                 1 + RowsCost(s.lobs, s.rows[..Brings(|s.rows|, fetch)]))
  }

  /** A fetch keeps the rows in order: what it brings continues what was delivered. */
  lemma RefillStreams(st: RowsState, all: seq<WireRow>, i: nat, net': Net, rows: seq<Row>, end: bool)
    requires Streams(st, all, i) && NeedsRefill(st) && Brought(st, net', rows, end)
    ensures Streams(Refilled(st, net', rows, end), all, i)
    ensures SameJob(st, Refilled(st, net', rows, end))
    ensures rows == [] ==> i == |all| && end
  {
    hide *;
    RefillJob(st, all, i, net', rows, end);
    RefillOrder(st, all, i, net', rows, end);
  }

  lemma RefillJob(st: RowsState, all: seq<WireRow>, i: nat, net': Net, rows: seq<Row>, end: bool)
    requires Streams(st, all, i) && NeedsRefill(st) && Brought(st, net', rows, end)
    ensures SameJob(st, Refilled(st, net', rows, end))
    ensures rows == [] ==> i == |all| && end
  {
    hide Idle, RowsOk, BufferShows, ShownRows, RowsCost, AfterRows, Brings, OnBoundary;
    AfterIs(st.net.value.peer.server, FetchCount(st));
  }

  lemma RefillOrder(st: RowsState, all: seq<WireRow>, i: nat, net': Net, rows: seq<Row>, end: bool)
    requires Streams(st, all, i) && NeedsRefill(st) && Brought(st, net', rows, end)
    ensures Streams(Refilled(st, net', rows, end), all, i)
  {
    hide Idle, RowsOk, BufferShows, ShownRows, RowsCost, AfterRows, Brings, OnBoundary;
    var s, fetch := st.net.value.peer.server, FetchCount(st);
    var n := Brings(|s.rows|, fetch);
    AfterIs(s, fetch);
    ShowsSlice(s.lobs, st.columns, all, i, n);
    assert s.rows[n..] == all[i + n..];
    NextBoundary(i, n, |all|, fetch, st.fetchSize, st.rowCount);
  }

  /** After a fetch the driver is again at a multiple of the fetch size, at the announced count, or at the end. */
  lemma NextBoundary(i: nat, n: nat, total: nat, fetch: int, size: int, rowCount: int)
    requires i <= total && n == (if fetch > total - i then total - i else fetch) && size > 0 && 1 <= fetch
    requires fetch == if rowCount >= 0 && size > rowCount - i then rowCount - i else size
    requires OnBoundary(i, size)
    ensures fetch > total - i || OnBoundary(i + n, size) || i + n == rowCount
    ensures rowCount >= 0 ==> i + n <= rowCount
  {
    hide OnBoundary;
    Aligned(i, size);
  }

  lemma AfterIs(s: Server, fetch: int)
    requires fetch >= 1
    ensures var s', n := AfterRows(s, fetch), Brings(|s.rows|, fetch);
            && n <= |s.rows| && n == (if fetch > |s.rows| then |s.rows| else fetch) && s'.rows == s.rows[n..]
            && s'.lobs == s.lobs && s'.ending == s.ending && s'.resultID == s.resultID
            && (s.open ==> s'.open == (fetch <= |s.rows|))
  {
  }

  /** Each fetched row pays for the request that brought it. */
  lemma RefillEnough(st: RowsState, all: seq<WireRow>, i: nat, net': Net, rows: seq<Row>, end: bool)
    requires Streams(st, all, i) && NeedsRefill(st) && 1 <= FetchCount(st) && Enough(st)
    requires var s, fetch := st.net.value.peer.server, FetchCount(st);
             && end == (fetch > |s.rows|) && net'.peer.Sequential? && Same(AfterRows(s, fetch), net'.peer.server)
             && net'.life >= st.net.value.life - (1 + RowsCost(s.lobs, s.rows[..Brings(|s.rows|, fetch)]))
    ensures Enough(Refilled(st, net', rows, end))
  {
    var s, fetch := st.net.value.peer.server, FetchCount(st);
    var n := Brings(|s.rows|, fetch);
    AfterIs(s, fetch);
    SplitCost(s.lobs, s.rows, n);
    hide Idle, RowsOk, BufferShows, RowsCost, AfterRows, Brings;
  }

  lemma SplitCost(lobs: map<int64, Lob>, rows: seq<WireRow>, n: nat)
    requires n <= |rows|
    ensures RowsCost(lobs, rows) == RowsCost(lobs, rows[..n]) + RowsCost(lobs, rows[n..])
  {
    RowsCostAppend(lobs, rows[..n], rows[n..]);
    hide RowsCost;
    assert rows == rows[..n] + rows[n..];
  }

  /** The connection is lost only for want of requests. */
  lemma LostMeans(st: RowsState, all: seq<WireRow>, i: nat, n: nat)
    requires Streams(st, all, i) && NeedsRefill(st) && n <= |st.net.value.peer.server.rows|
    requires var s := st.net.value.peer.server;
             st.net.value.life < 1 + RowsCost(s.lobs, s.rows[..n])
    ensures !Enough(st)
  {
    var s := st.net.value.peer.server;
    SplitCost(s.lobs, s.rows, n);
    hide Idle, RowsOk, BufferShows, RowsCost;
  }

  /** What one call of `Next` must do when `i` rows were delivered before it. */
  ghost predicate StepRight(st: RowsState, all: seq<WireRow>, i: nat, st': RowsState, out: Outcome)
    requires Streams(st, all, i)
  {
    var s := st.net.value.peer.server;
    if out == NextErr(Lost) then !Enough(st) && st' == WithErr(st, None, Lost)
    else if i < Goal(st, all) then
      && i < |all| && RowOk(s.lobs, st.columns, all[i]) && out == NextRow(ShownRow(s.lobs, st.columns, all[i]))
      && Streams(st', all, i + 1) && SameJob(st, st') && (Enough(st) ==> Enough(st'))
    else
      && out == Final(st, all)
      && if out.Eof? then Streams(st', all, i) && SameJob(st, st') && (Enough(st) ==> Enough(st'))
         else out.NextErr? && st'.net.Some? && AllRead(st'.net.value.log) && st' == WithErr(st, st'.net, out.e)
  }

  lemma NextStreams(st: RowsState, all: seq<WireRow>, i: nat)
    requires Streams(st, all, i)
    ensures StepRight(st, all, i, Next(st, st.columns).0, Next(st, st.columns).1)
  {
    NextIs(st, all, i);
    if st.buffered != [] {
      PopStep(st, all, i);
    } else if NeedsRefill(st) {
      hide *;
      RefillRight(st, all, i);
    } else {
      AtEnd(st, all, i);
    }
  }

  lemma NextIs(st: RowsState, all: seq<WireRow>, i: nat)
    requires Streams(st, all, i)
    ensures st.buffered != [] ==> Next(st, st.columns) == Pop(st)
    ensures NeedsRefill(st) ==> Next(st, st.columns) == Refill(st)
    ensures st.buffered == [] && !NeedsRefill(st) ==> Next(st, st.columns) == (st, Eof)
  {
    hide Idle, RowsOk, BufferShows, Refill;
  }

  lemma PopRight(st: RowsState, all: seq<WireRow>, i: nat)
    requires Streams(st, all, i) && st.buffered != [] && st.fetchSize > 0 && st.net.Some?
             && st.net.value.peer.Sequential?
    requires i + |st.buffered| <= Goal(st, all) && i < |all| && Streams(Pop(st).0, all, i + 1)
    requires SameJob(st, Pop(st).0) && (Enough(st) ==> Enough(Pop(st).0))
    requires var lobs := st.net.value.peer.server.lobs;
             RowOk(lobs, st.columns, all[i]) && Pop(st).1 == NextRow(ShownRow(lobs, st.columns, all[i]))
    ensures StepRight(st, all, i, Pop(st).0, Pop(st).1)
  {
    hide Streams, Enough, SameJob, Pop, RowOk, ShownRow, Goal, Final;
  }

  lemma AtEnd(st: RowsState, all: seq<WireRow>, i: nat)
    requires Streams(st, all, i) && st.buffered == [] && !NeedsRefill(st)
    ensures StepRight(st, all, i, st, Eof)
  {
    hide Idle, RowsOk, BufferShows, Enough, RowOk, ShownRow;
  }

  // ---- A call that has to fetch ----

  lemma RefillRight(st: RowsState, all: seq<WireRow>, i: nat)
    requires Streams(st, all, i) && NeedsRefill(st)
    ensures StepRight(st, all, i, Refill(st).0, Refill(st).1)
  {
    RestOk(st, all, i);
    var net, s, fetch := st.net.value, st.net.value.peer.server, FetchCount(st);
    hide *;
    FetchHonest(net, s, fetch, st.columns);
    if fetch > |s.rows| && s.ending.Throws? {
      FailMeans(st, all, i);
      ErrorRight(st, all, i, FetchMore(net, s.resultID, st.columns, fetch, []));
    } else {
      ArrivalRight(st, all, i, FetchMore(net, s.resultID, st.columns, fetch, []));
    }
  }

  lemma ArrivalRight(st: RowsState, all: seq<WireRow>, i: nat, f: Fetch)
    requires Streams(st, all, i) && NeedsRefill(st) && 1 <= FetchCount(st) <= st.fetchSize
    requires f == FetchMore(st.net.value, st.net.value.peer.server.resultID, st.columns, FetchCount(st), [])
    requires var s, fetch := st.net.value.peer.server, FetchCount(st);
             && RowsOk(s.lobs, st.columns, s.rows) && !(fetch > |s.rows| && s.ending.Throws?)
             && AfterRows(s, fetch).lobs == s.lobs
             && BatchRight(f, s.rows, s.ending, fetch, st.columns, st.net.value, AfterRows(s, fetch), 1)
    ensures StepRight(st, all, i, Refill(st).0, Refill(st).1)
  {
    hide *;
    Basics(st, all, i);
    var s, fetch := st.net.value.peer.server, FetchCount(st);
    Unwrap(f, s.rows, s.ending, fetch, st.columns, st.net.value, AfterRows(s, fetch), s.lobs);
    if f.Dead? {
      LostMeans(st, all, i, Brings(|s.rows|, fetch));
      DeadRight(st, all, i, f);
    } else {
      ItBrought(st, f);
      FreshArrival(st, all, i, f);
    }
  }

  lemma ItBrought(st: RowsState, f: Fetch)
    requires st.net.Some? && st.net.value.peer.Sequential? && 1 <= FetchCount(st) <= st.fetchSize && f.Fresh?
    requires var s, fetch := st.net.value.peer.server, FetchCount(st);
             var n := Brings(|s.rows|, fetch);
             && n <= |s.rows| && RowsOk(s.lobs, st.columns, s.rows) && !(fetch > |s.rows| && s.ending.Throws?)
             && RowsOk(s.lobs, st.columns, s.rows[..n])
             && Delivered(f, ShownRows(s.lobs, st.columns, s.rows[..n]), fetch > |s.rows|, st.net.value,
                          AfterRows(s, fetch), 1 + RowsCost(s.lobs, s.rows[..n]))
    ensures Brought(st, f.net, f.rows, f.end)
  {
    hide RowsOk, Delivered, ShownRows, AfterRows, RowsCost, Brings;
  }

  lemma FreshArrival(st: RowsState, all: seq<WireRow>, i: nat, f: Fetch)
    requires Streams(st, all, i) && NeedsRefill(st) && f.Fresh? && 1 <= FetchCount(st)
    requires Brought(st, f.net, f.rows, f.end)
    requires f == FetchMore(st.net.value, st.net.value.peer.server.resultID, st.columns, FetchCount(st), [])
    requires var s, fetch := st.net.value.peer.server, FetchCount(st);
             var n := Brings(|s.rows|, fetch);
             && n <= |s.rows|
             && f.end == (fetch > |s.rows|) && f.net.peer.Sequential? && Same(AfterRows(s, fetch), f.net.peer.server)
             && f.net.life >= st.net.value.life - (1 + RowsCost(s.lobs, s.rows[..n]))
    ensures StepRight(st, all, i, Refill(st).0, Refill(st).1)
  {
    hide *;
    RefillStreams(st, all, i, f.net, f.rows, f.end);
    if Enough(st) { RefillEnough(st, all, i, f.net, f.rows, f.end); }
    FreshRight(st, all, i, f);
  }

  lemma RestOk(st: RowsState, all: seq<WireRow>, i: nat)
    requires Streams(st, all, i) && NeedsRefill(st)
    ensures var s := st.net.value.peer.server;
            && RowsOk(s.lobs, st.columns, s.rows) && s.open && s.resultID == st.resultID && Idle(st.net.value, s)
            && 1 <= FetchCount(st) <= st.fetchSize <= MAX_INT32
            && RowsOk(s.lobs, st.columns, s.rows[..Brings(|s.rows|, FetchCount(st))])
  {
    var s := st.net.value.peer.server;
    PrefixOk(s.lobs, st.columns, all, i);
    PrefixOk(s.lobs, st.columns, all[i..], Brings(|all| - i, FetchCount(st)));
    hide Idle, RowsOk, BufferShows;
  }

  lemma Unwrap(f: Fetch, ws: seq<WireRow>, ending: Ending, fetch: int, k: nat, net: Net, s: Server,
               lobs: map<int64, Lob>)
    requires lobs == s.lobs && RowsOk(lobs, k, ws) && !(fetch > |ws| && ending.Throws?)
    requires BatchRight(f, ws, ending, fetch, k, net, s, 1)
    ensures var n := Brings(|ws|, fetch);
            && n <= |ws| && RowsOk(lobs, k, ws[..n]) && !f.Refused?
            && Delivered(f, ShownRows(lobs, k, ws[..n]), fetch > |ws|, net, s, 1 + RowsCost(lobs, ws[..n]))
            && (f.Dead? ==> f == Dead(Lost) && net.life < 1 + RowsCost(lobs, ws[..n]))
            && (f.Fresh? ==> f.end == (fetch > |ws|) && f.net.peer.Sequential? && Same(s, f.net.peer.server)
                             && f.net.life >= net.life - (1 + RowsCost(lobs, ws[..n])))
  {
    PrefixOk(s.lobs, k, ws, Brings(|ws|, fetch));
    hide RowsOk, ShownRows, RowsCost, Idle, Same, ErrorOf;
  }

  /** An error frame in this batch means that exactly `i` rows are deliverable. */
  lemma FailMeans(st: RowsState, all: seq<WireRow>, i: nat)
    requires Streams(st, all, i) && NeedsRefill(st)
    requires FetchCount(st) > |st.net.value.peer.server.rows| && st.net.value.peer.server.ending.Throws?
    ensures Goal(st, all) == i
    ensures Final(st, all) == NextErr(Reported(ErrorOf(st.net.value.peer.server.ending.e)))
  {
    Multiple(i, |all|, st.fetchSize);
    hide Idle, RowsOk, BufferShows, ErrorOf;
  }

  lemma ErrorRight(st: RowsState, all: seq<WireRow>, i: nat, f: Fetch)
    requires Streams(st, all, i) && NeedsRefill(st) && Goal(st, all) == i && st.net.value.peer.server.ending.Throws?
    requires f == FetchMore(st.net.value, st.net.value.peer.server.resultID, st.columns, FetchCount(st), [])
    requires FetchCount(st) > |st.net.value.peer.server.rows|
    requires var s := st.net.value.peer.server;
             && Final(st, all) == NextErr(Reported(ErrorOf(s.ending.e)))
             && RowsOk(s.lobs, st.columns, s.rows)
             && BatchRight(f, s.rows, s.ending, FetchCount(st), st.columns, st.net.value, AfterRows(s, FetchCount(st)),
                           1)
    ensures StepRight(st, all, i, Refill(st).0, Refill(st).1)
  {
    hide RowsOk, BufferShows, ErrorOf, FetchMore, AfterRows, RowsCost;
  }

  lemma DeadRight(st: RowsState, all: seq<WireRow>, i: nat, f: Fetch)
    requires Streams(st, all, i) && NeedsRefill(st) && f == Dead(Lost) && !Enough(st)
    requires f == FetchMore(st.net.value, st.net.value.peer.server.resultID, st.columns, FetchCount(st), [])
    ensures StepRight(st, all, i, Refill(st).0, Refill(st).1)
  {
    hide Idle, RowsOk, BufferShows, FetchMore, FetchCount, Enough;
  }

  lemma FreshRight(st: RowsState, all: seq<WireRow>, i: nat, f: Fetch)
    requires Streams(st, all, i) && NeedsRefill(st) && f.Fresh?
    requires f == FetchMore(st.net.value, st.net.value.peer.server.resultID, st.columns, FetchCount(st), [])
    requires var st1 := Refilled(st, f.net, f.rows, f.end);
             Streams(st1, all, i) && SameJob(st, st1) && (Enough(st) ==> Enough(st1))
               && (f.rows == [] ==> i == |all| && f.end)
    ensures StepRight(st, all, i, Refill(st).0, Refill(st).1)
  {
    hide *;
    var st1 := Refilled(st, f.net, f.rows, f.end);
    RefillIs(st, all, i, f);
    if f.rows == [] {
      Dry(st, st1, all, i, f);
      CarryStep(st, st1, all, i, st1, Eof);
    } else {
      PopStep(st1, all, i);
      CarryStep(st, st1, all, i, Pop(st1).0, Pop(st1).1);
    }
  }

  lemma PopStep(st: RowsState, all: seq<WireRow>, i: nat)
    requires Streams(st, all, i) && st.buffered != []
    ensures StepRight(st, all, i, Pop(st).0, Pop(st).1) && !Pop(st).1.NextErr?
  {
    Bound(st, all, i);
    PopStreams(st, all, i);
    hide *;
    PopRight(st, all, i);
  }

  lemma RefillIs(st: RowsState, all: seq<WireRow>, i: nat, f: Fetch)
    requires Streams(st, all, i) && NeedsRefill(st) && f.Fresh?
    requires f == FetchMore(st.net.value, st.net.value.peer.server.resultID, st.columns, FetchCount(st), [])
    ensures Refill(st) == Pop(Refilled(st, f.net, f.rows, f.end))
            && Refilled(st, f.net, f.rows, f.end).buffered == f.rows
    ensures f.rows == [] ==> Refill(st) == (Refilled(st, f.net, f.rows, f.end), Eof)
  {
    hide Idle, RowsOk, BufferShows, FetchMore, FetchCount;
  }

  /** Nothing came although rows were asked for: the server is exhausted. */
  lemma Dry(st: RowsState, st1: RowsState, all: seq<WireRow>, i: nat, f: Fetch)
    requires f.Fresh? && st1 == Refilled(st, f.net, [], true) && Streams(st1, all, i) && i == |all|
    ensures StepRight(st1, all, i, st1, Eof)
  {
    hide Idle, RowsOk, BufferShows, Enough, RowOk, ShownRow;
  }

  /** A step that is right after the refill is right for the call that made the refill. */
  lemma CarryStep(st: RowsState, st1: RowsState, all: seq<WireRow>, i: nat, st': RowsState, out: Outcome)
    requires Streams(st, all, i) && Streams(st1, all, i) && SameJob(st, st1) && (Enough(st) ==> Enough(st1))
    requires StepRight(st1, all, i, st', out) && !out.NextErr?
    ensures StepRight(st, all, i, st', out)
  {
    hide Streams, Enough, RowOk, ShownRow;
  }

  // ---- Whole runs ----

  /** Where `n` calls lead. */
  ghost predicate Reached(st: RowsState, all: seq<WireRow>, i: nat, n: nat, st': RowsState)
    requires Streams(st, all, i)
  {
    && st'.columns == st.columns && !st'.closed
    && if st'.err == Some(Lost) then !Enough(st) && st'.net == None
       else if i + n <= Goal(st, all) then Continues(st, all, i + n, st')
       else if Final(st, all).Eof? then Goal(st, all) >= 0 && Continues(st, all, Goal(st, all), st')
       else Stopped(st, all, st')
  }

  ghost predicate Continues(st: RowsState, all: seq<WireRow>, j: nat, st': RowsState) {
    Streams(st', all, j) && SameJob(st, st') && (Enough(st) ==> Enough(st'))
  }

  ghost predicate Stopped(st: RowsState, all: seq<WireRow>, st': RowsState)
    requires st.fetchSize > 0 && st.net.Some? && st.net.value.peer.Sequential?
  {
    && Final(st, all).NextErr? && st'.err == Some(Final(st, all).e)
    && st'.net.Some? && AllRead(st'.net.value.log) && st'.offset == Goal(st, all)
  }

  /** An error sticks: later calls repeat it, send nothing and read nothing. */
  lemma {:induction false} ErrorSticks(st: RowsState, n: nat)
    requires st.err.Some? && !st.closed
    ensures StateAfter(st, n) == st && Nth(st, n) == NextErr(st.err.value)
  {
    ErrorStep(st);
    hide Next;
    if n > 0 { ErrorSticks(st, n - 1); }
  }

  lemma ErrorStep(st: RowsState)
    requires st.err.Some? && !st.closed
    ensures Next(st, st.columns) == (st, NextErr(st.err.value))
  {
    hide Refill, Pop;
  }

  lemma SameGoal(st: RowsState, st': RowsState, all: seq<WireRow>)
    requires SameJob(st, st') && st.fetchSize > 0
    ensures st'.fetchSize > 0 && Goal(st', all) == Goal(st, all) && Final(st', all) == Final(st, all)
  {
    hide Deliverable, Finally;
  }

  /** One more call, when the run still goes on. */
  lemma StepReaches(st: RowsState, all: seq<WireRow>, i: nat, n: nat, st1: RowsState, st': RowsState, out: Outcome)
    requires Streams(st, all, i) && i + n <= Goal(st, all) && Continues(st, all, i + n, st1)
    requires StepRight(st1, all, i + n, st', out) && st'.columns == st1.columns
    ensures Reached(st, all, i, n + 1, st')
  {
    hide Streams, Enough, RowOk, ShownRow, Goal, Finally, AllRead, ErrorOf;
    Basics(st, all, i);
    Basics(st1, all, i + n);
    SameGoal(st, st1, all);
    if Streams(st', all, i + n + 1) { Basics(st', all, i + n + 1); }
    if Streams(st', all, i + n) { Basics(st', all, i + n); }
  }

  lemma Basics(st: RowsState, all: seq<WireRow>, i: nat)
    requires Streams(st, all, i)
    ensures st.fetchSize > 0 && st.net.Some? && st.net.value.peer.Sequential? && st.err == None && !st.closed
    ensures AllRead(st.net.value.log) && st.offset == i && i <= Goal(st, all)
  {
    Bound(st, all, i);
    hide RowsOk, BufferShows, AllRead, Goal;
  }

  /** One more call after the end was reported. */
  lemma StepStays(st: RowsState, all: seq<WireRow>, i: nat, n: nat, st1: RowsState, st': RowsState, out: Outcome)
    requires Streams(st, all, i) && i + n > Goal(st, all) >= 0 && Final(st, all).Eof?
             && Continues(st, all, Goal(st, all), st1)
    requires StepRight(st1, all, Goal(st, all), st', out) && st'.columns == st1.columns
    ensures Reached(st, all, i, n + 1, st')
  {
    Basics(st, all, i);
    SameGoal(st, st1, all);
    hide Idle, RowsOk, BufferShows, Enough, RowOk, ShownRow, Goal, Finally, AllRead, ErrorOf;
  }

  lemma KeepsColumns(st: RowsState)
    ensures Next(st, st.columns).0.columns == st.columns
  {
    hide FetchMore;
  }

  lemma {:induction false} RunReaches(st: RowsState, all: seq<WireRow>, i: nat, n: nat)
    requires Streams(st, all, i)
    ensures Reached(st, all, i, n, StateAfter(st, n))
  {
    hide *;
    RunUnfolds(st, n);
    if n == 0 {
      Basics(st, all, i);
      Starts(st, all, i);
    } else {
      RunReaches(st, all, i, n - 1);
      OneMore(st, all, i, n - 1, StateAfter(st, n - 1));
      ReachedColumns(st, all, i, n - 1, StateAfter(st, n - 1));
    }
  }

  lemma RunUnfolds(st: RowsState, n: nat)
    ensures n == 0 ==> StateAfter(st, n) == st
    ensures n > 0 ==> StateAfter(st, n) == Next(StateAfter(st, n - 1), st.columns).0
  {
    hide Next;
  }

  lemma ReachedColumns(st: RowsState, all: seq<WireRow>, i: nat, n: nat, st': RowsState)
    requires Streams(st, all, i) && Reached(st, all, i, n, st')
    ensures st'.columns == st.columns
  {
    Basics(st, all, i);
    hide Streams, Goal, Enough, Continues, Stopped;
  }

  lemma Starts(st: RowsState, all: seq<WireRow>, i: nat)
    requires Streams(st, all, i) && st.err == None && !st.closed && st.fetchSize > 0 && st.net.Some?
             && st.net.value.peer.Sequential?
    requires i <= Goal(st, all)
    ensures Reached(st, all, i, 0, st)
  {
    hide Streams, Goal, Enough;
  }

  lemma OneMore(st: RowsState, all: seq<WireRow>, i: nat, n: nat, st1: RowsState)
    requires Streams(st, all, i) && Reached(st, all, i, n, st1)
    ensures Reached(st, all, i, n + 1, Next(st1, st1.columns).0)
  {
    hide Streams, Next, Goal, Enough, SameJob, Final;
    Basics(st, all, i);
    var goal := Goal(st, all);
    KeepsColumns(st1);
    var st', out := Next(st1, st1.columns).0, Next(st1, st1.columns).1;
    if st1.err.Some? {
      ErrorStep(st1);
      StuckReaches(st, all, i, n, st1);
    } else if i + n <= goal {
      NextStreams(st1, all, i + n);
      hide *;
      StepReaches(st, all, i, n, st1, st', out);
    } else {
      NextStreams(st1, all, goal);
      hide *;
      StepStays(st, all, i, n, st1, st', out);
    }
  }

  lemma StuckReaches(st: RowsState, all: seq<WireRow>, i: nat, n: nat, st1: RowsState)
    requires Streams(st, all, i) && Reached(st, all, i, n, st1) && st1.err.Some?
    ensures Reached(st, all, i, n + 1, st1)
  {
    hide Idle, RowsOk, BufferShows, Enough, Goal, Final, AllRead;
  }

  /** The outcome call number `n` must have, counted from the first call. */
  ghost function Expected(lobs: map<int64, Lob>, k: nat, all: seq<WireRow>, ending: Ending, rowCount: int,
                          fetchSize: int, n: nat): Outcome
    requires RowsOk(lobs, k, all) && fetchSize > 0
  {
    if n < Deliverable(all, ending, rowCount, fetchSize) && n < |all| then
      assert RowOk(lobs, k, all[n]);
      NextRow(ShownRow(lobs, k, all[n]))
    else Finally(all, ending, rowCount)
  }

  /**
    * Streaming refinement. In every run against the sequential server each call of `Next` has the expected outcome:
    * the rows of the list in order and once each, then the end (or the server's error) for ever. The only exception is
    * a connection that dies for want of requests. Nothing is unread when a request is written, and the row offset is
    * the number of rows delivered.
    */
  lemma StreamingRefinement(st: RowsState, all: seq<WireRow>, n: nat)
    requires Streams(st, all, 0)
    ensures var s, out, now := st.net.value.peer.server, Nth(st, n), StateAfter(st, n);
            && (out == Expected(s.lobs, st.columns, all, s.ending, st.rowCount, st.fetchSize, n)
                || (out == NextErr(Lost) && !Enough(st)))
            && (now.net.Some? ==> AllRead(now.net.value.log))
            && (now.err != Some(Lost) ==> now.offset == Min(n, Goal(st, all)))
  {
    Basics(st, all, 0);
    RunReaches(st, all, 0, n);
    var now := StateAfter(st, n);
    NthIs(st, all, n);
    if now.err.Some? {
      ErrorStep(now);
      EndsStuck(st, all, n, now);
    } else {
      var j := Min(n, Goal(st, all));
      Basics(now, all, j);
      NextStreams(now, all, j);
      hide *;
      EndsRight(st, all, n, j, now, Next(now, now.columns).0, Next(now, now.columns).1);
    }
  }

  lemma NthIs(st: RowsState, all: seq<WireRow>, n: nat)
    requires Streams(st, all, 0) && Reached(st, all, 0, n, StateAfter(st, n))
    ensures Nth(st, n) == Next(StateAfter(st, n), StateAfter(st, n).columns).1
  {
    ReachedColumns(st, all, 0, n, StateAfter(st, n));
    hide Next, Reached, Streams;
  }

  lemma EndsStuck(st: RowsState, all: seq<WireRow>, n: nat, now: RowsState)
    requires Streams(st, all, 0) && Reached(st, all, 0, n, now) && now.err.Some?
    ensures var s := st.net.value.peer.server;
            && (NextErr(now.err.value) == Expected(s.lobs, st.columns, all, s.ending, st.rowCount, st.fetchSize, n)
                || (now.err == Some(Lost) && !Enough(st)))
            && (now.net.Some? ==> AllRead(now.net.value.log))
            && (now.err != Some(Lost) ==> now.offset == Min(n, Goal(st, all)))
  {
    hide Idle, RowsOk, BufferShows, Enough, AllRead, ShownRow, RowOk, Deliverable, Finally;
  }

  lemma EndsRight(st: RowsState, all: seq<WireRow>, n: nat, j: nat, now: RowsState, st': RowsState, out: Outcome)
    requires Streams(st, all, 0) && j == Min(n, Goal(st, all)) && Continues(st, all, j, now)
             && now.columns == st.columns
    requires StepRight(now, all, j, st', out)
    ensures var s := st.net.value.peer.server;
            out == Expected(s.lobs, st.columns, all, s.ending, st.rowCount, st.fetchSize, n)
              || (out == NextErr(Lost) && !Enough(st))
  {
    SameGoal(st, now, all);
    hide Idle, BufferShows, Enough, AllRead, ShownRow, RowOk, Deliverable, Finally;
  }
}
