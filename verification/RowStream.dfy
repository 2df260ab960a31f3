/**
  * Row streaming as functions of the connection: batches, deferred LOBs, and the calls `Next` and `Close`.
  * The classes of module Driver are proved against these functions.
  */
module RowStream {
  import opened Wire
  import opened Unicode
  import opened Values
  import opened Network
  import TypeInfos

  datatype H2Error = H2Error(sqlState: Bytes, message: Bytes, sql: Bytes, code: int32, trace: Bytes)

  /** `Reported` is a fully parsed server error; `Lost` a failed flush; `Broken` an undecodable or unexpected answer. */
  datatype Err = Reported(e: H2Error) | Lost | Broken | BadConn

  // ---- Status and error frames ----

  function ParseError(s: Bytes): (g: Got<H2Error>)
    ensures g.Got? ==> g.n <= |s|
  {
    match TypeInfos.GetStrings(s, 3)
    case Fail => Fail
    case Got(texts, n) =>
      match Get32(s[n..])
      case Fail => Fail
      case Got(code, _) =>
        match GetString(s[n + 4..])
        case Fail => Fail
        case Got(trace, m) => Got(H2Error(texts[0], texts[1], texts[2], code, TypeInfos.OrEmpty(trace)), n + 4 + m)
  }

  /** None for success, the error for STATUS_ERROR; everything else fails. */
  function ParseStatus(s: Bytes): (g: Got<Option<H2Error>>)
    ensures g.Got? ==> 4 <= g.n <= |s|
  {
    match Get32(s)
    case Fail => Fail
    case Got(status, _) =>
      if status == STATUS_OK || status == STATUS_OK_STATE_CHANGED then Got(None, 4)
      else if status == STATUS_ERROR then
        match ParseError(s[4..])
        case Fail => Fail
        case Got(e, n) => Got(Some(e), 4 + n)
      else Fail
  }

  // ---- One batch ----

  /** The values of the columns from `col` on, of the row buffered at index `row`. */
  function ParseRow(s: Bytes, row: nat, col: nat, k: nat): (g: Got<seq<Value>>)
    requires col <= k
    ensures g.Got? ==> g.n <= |s| && |g.v| == k - col
    decreases k - col
  {
    if col == k then Got([], 0) else
      match ParseValue(s, Cell(row, col))
      case Fail => Fail
      case Got(v, n) =>
        match ParseRow(s[n..], row, col + 1, k)
        case Fail => Fail
        case Got(vs, m) => Got([v] + vs, n + m)
  }

  lemma RowStep(s: Bytes, row: nat, col: nat, k: nat)
    requires col < k && ParseRow(s, row, col, k).Got?
    ensures var g := ParseValue(s, Cell(row, col));
            g.Got? &&
            var h := ParseRow(s[g.n..], row, col + 1, k);
            h.Got? && ParseRow(s, row, col, k) == Got([g.v] + h.v, g.n + h.n)
  {
    hide ParseValue;
  }

  type Row = seq<Value>

  datatype Batch = Complete(rows: seq<Row>, end: bool, n: nat) | Threw(e: H2Error, n: nat) | Garbled

  /** Reads up to `fetch` flagged rows and adds them to those already buffered. */
  function ParseBatch(s: Bytes, k: nat, fetch: int, have: seq<Row>): (b: Batch)
    ensures !b.Garbled? ==> b.n <= |s|
    ensures b.Complete? ==> have <= b.rows
    decreases fetch
  {
    if fetch <= 0 then Complete(have, false, 0)
    else if |s| < 1 then Garbled
    else if s[0] == 1 then
      match ParseRow(s[1..], |have|, 0, k)
      case Fail => Garbled
      case Got(row, n) => After(ParseBatch(s[1 + n..], k, fetch - 1, have + [row]), 1 + n)
    else if s[0] == 0 then Complete(have, true, 1)
    else if s[0] == 255 then
      match ParseError(s[1..])
      case Fail => Garbled
      case Got(e, n) => Threw(e, 1 + n)
    else Garbled
  }

  /** The first step of a batch that is not garbled. */
  lemma BatchStep(s: Bytes, k: nat, fetch: int, have: seq<Row>)
    requires fetch > 0 && !ParseBatch(s, k, fetch, have).Garbled?
    ensures s != [] && (s[0] == 0 || s[0] == 1 || s[0] == 255)
    ensures s[0] == 1 ==>
              var g := ParseRow(s[1..], |have|, 0, k);
              g.Got? && ParseBatch(s, k, fetch, have) ==
                After(ParseBatch(s[1 + g.n..], k, fetch - 1, have + [g.v]), 1 + g.n)
    ensures s[0] == 0 ==> ParseBatch(s, k, fetch, have) == Complete(have, true, 1)
    ensures s[0] == 255 ==>
              var g := ParseError(s[1..]);
              g.Got? && ParseBatch(s, k, fetch, have) == Threw(g.v, 1 + g.n)
  {
    hide ParseRow, ParseError;
  }

  function After(b: Batch, k: nat): Batch {
    match b
    case Complete(rows, end, n) => Complete(rows, end, n + k)
    case Threw(e, n) => Threw(e, n + k)
    case Garbled => Garbled
  }

  /** The placeholders of a row, in column order. */
  function RowPending(row: Row): seq<PendingLob> {
    if row == [] then [] else RowPending(row[..|row| - 1]) + CellPending(row[|row| - 1])
  }

  function CellPending(v: Value): seq<PendingLob> {
    if v.Pending? then [v.lob] else []
  }

  function RowsPending(rows: seq<Row>): seq<PendingLob> {
    if rows == [] then [] else RowsPending(rows[..|rows| - 1]) + RowPending(rows[|rows| - 1])
  }

  lemma {:induction false} RowPendingCons(v: Value, rest: Row)
    ensures RowPending([v] + rest) == CellPending(v) + RowPending(rest)
  {
    hide CellPending;
    var row := [v] + rest;
    if rest == [] {
      assert row[..0] == [];
      assert [] + CellPending(v) == CellPending(v) == CellPending(v) + [];
    } else {
      var init := rest[..|rest| - 1];
      RowPendingCons(v, init);
      assert row[..|row| - 1] == [v] + init;
      assert row[|row| - 1] == rest[|rest| - 1];
    }
  }

  lemma {:induction false} RowsPendingCons(row: Row, rest: seq<Row>)
    ensures RowsPending([row] + rest) == RowPending(row) + RowsPending(rest)
  {
    hide RowPending;
    var rows := [row] + rest;
    if rest == [] {
      assert rows[..0] == [];
      assert [] + RowPending(row) == RowPending(row) == RowPending(row) + [];
    } else {
      var init := rest[..|rest| - 1];
      RowsPendingCons(row, init);
      assert rows[..|rows| - 1] == [row] + init;
      assert rows[|rows| - 1] == rest[|rest| - 1];
    }
  }

  // ---- Deferred LOBs ----

  datatype Fetched<+T> = Done(net: Net, v: T) | Failed(e: Err)

  /** One LOB_READ answer: status, length, data; an empty chunk ends the LOB. */
  function ParseChunk(s: Bytes): (g: Got<Bytes>)
    ensures g.Got? ==> 8 <= g.n <= |s|
  {
    if |s| < 8 || Int32(s[..4]) != STATUS_OK then Fail
    else
      var len := Int32(s[4..8]);
      if len < 0 || len > CHUNK || |s| < 8 + len then Fail else Got(s[8..8 + len], 8 + len)
  }

  /** Repeated LOB_READ requests, each for the bytes after those already received. */
  function FetchChunks(net: Net, p: PendingLob, acc: Bytes): (r: Fetched<Bytes>)
    decreases net.life
  {
    match Send(net, LobRequest(p.lobID, p.hmac, |acc|))
    case None => Failed(Lost)
    case Some(sent) =>
      match ParseChunk(Unread(sent))
      case Fail => Failed(Broken)
      case Got(chunk, n) =>
        if chunk == [] then Done(Take(sent, n), acc) else FetchChunks(Take(sent, n), p, acc + chunk)
  }

  /** The length the server announced. */
  function Announced(p: PendingLob): int { if p.clob then p.octetLength else p.precision }

  /** A CLOB becomes text. A BLOB buffer that was never grown nor written is a nil slice. */
  function LobValue(p: PendingLob, content: Bytes): Value {
    if p.clob then Str(content)
    else if content == [] && p.precision <= 0 then Binary(None)
    else Binary(Some(content))
  }

  function FetchLob(net: Net, p: PendingLob): Fetched<Value> {
    if Announced(p) > MAX_WIRE_LENGTH then Failed(Broken)
    else match FetchChunks(net, p, [])
      case Failed(e) => Failed(e)
      case Done(net', content) => Done(net', LobValue(p, content))
  }

  predicate Locates(rows: seq<Row>, p: PendingLob) {
    p.row < |rows| && p.col < |rows[p.row]|
  }

  function Splice(rows: seq<Row>, p: PendingLob, v: Value): (r: seq<Row>)
    ensures |r| == |rows|
  {
    if Locates(rows, p) then rows[p.row := rows[p.row][p.col := v]] else rows
  }

  /** Fetches the recorded LOBs in order and writes each into its cell. */
  function Resolve(net: Net, rows: seq<Row>, pending: seq<PendingLob>): Fetched<seq<Row>>
    decreases |pending|
  {
    if pending == [] then Done(net, rows) else
      match FetchLob(net, pending[0])
      case Failed(e) => Failed(e)
      case Done(net', v) => Resolve(net', Splice(rows, pending[0], v), pending[1..])
  }

  // ---- Fetching ----

  datatype Fetch = Fresh(net: Net, rows: seq<Row>, end: bool) | Refused(net: Net, e: H2Error) | Dead(why: Err)

  function FetchBatch(net: Net, k: nat, fetch: int, have: seq<Row>): Fetch {
    match ParseBatch(Unread(net), k, fetch, have)
    case Garbled => Dead(Broken)
    case Threw(e, n) => Refused(Take(net, n), e)
    case Complete(rows, end, n) =>
      match Resolve(Take(net, n), rows, RowsPending(rows[|have|..]))
      case Failed(e) => Dead(e)
      case Done(net', rows') => Fresh(net', rows', end)
  }

  /** RESULT_FETCH_ROWS and its answer. */
  function FetchMore(net: Net, id: int32, k: nat, fetch: int, have: seq<Row>): Fetch {
    match Send(net, FetchRequest(id, ToInt32(fetch)))
    case None => Dead(Lost)
    case Some(sent) =>
      match ParseStatus(Unread(sent))
      case Fail => Dead(Broken)
      case Got(Some(e), n) => Refused(Take(sent, n), e)
      case Got(None, n) => FetchBatch(Take(sent, n), k, fetch, have)
  }

  // ---- Rows ----

  /**
    * An open result. `net` is None once the session is dead. Once `err` is set nothing else is looked at any more: the
    * buffer is shown empty and `noMore` false.
    */
  datatype RowsState = RowsState(net: Option<Net>, resultID: int32, columns: nat, rowCount: int, fetchSize: int,
                                 buffered: seq<Row>, offset: nat, noMore: bool, closed: bool, err: Option<Err>)

  datatype Outcome = NextRow(row: Row) | Eof | NextErr(e: Err) | BadDest

  function WithErr(st: RowsState, net: Option<Net>, e: Err): RowsState {
    st.(net := net, err := Some(e), buffered := [], noMore := false)
  }

  function Pop(st: RowsState): (RowsState, Outcome) {
    if st.buffered == [] then (st, Eof)
    else (st.(buffered := st.buffered[1..], offset := st.offset + 1), NextRow(st.buffered[0]))
  }

  /** How many rows the next request asks for. */
  function FetchCount(st: RowsState): int {
    if st.rowCount >= 0 && st.fetchSize > st.rowCount - st.offset then st.rowCount - st.offset else st.fetchSize
  }

  function Refill(st: RowsState): (RowsState, Outcome) {
    match st.net
    case None => (WithErr(st, None, BadConn), NextErr(BadConn))
    case Some(net) =>
      match FetchMore(net, st.resultID, st.columns, FetchCount(st), st.buffered)
      case Dead(e) => (WithErr(st, None, e), NextErr(e))
      case Refused(net', e) => (WithErr(st, Some(net'), Reported(e)), NextErr(Reported(e)))
      case Fresh(net', rows, end) => Pop(st.(net := Some(net'), buffered := rows, noMore := st.noMore || end))
  }

  function Next(st: RowsState, dest: nat): (RowsState, Outcome) {
    if st.closed then (st, Eof)
    else if st.err.Some? then (st, NextErr(st.err.value))
    else if dest != st.columns then (st, BadDest)
    else if st.buffered != [] then Pop(st)
    else if st.rowCount >= 0 && st.offset >= st.rowCount then (st, Eof)
    else if st.noMore then (st, Eof)
    else Refill(st)
  }

  /** The state after `n` calls of Next with a matching destination. */
  function StateAfter(st: RowsState, n: nat): RowsState {
    if n == 0 then st else Next(StateAfter(st, n - 1), st.columns).0
  }

  /** The outcome of call number `n`, counted from zero. */
  function Nth(st: RowsState, n: nat): Outcome { Next(StateAfter(st, n), st.columns).1 }

  // ---- Opening a result ----

  datatype Opened = Open(st: RowsState) | OpenRefused(net: Net, e: H2Error) | OpenDead(why: Err)

  /** Row count, column metadata and the first batch, which follow the column count. */
  function OpenRows(net: Net, id: int32, columns: int32, fetchSize: int): Opened {
    match Get64(Unread(net))
    case Fail => OpenDead(Broken)
    case Got(count, _) =>
      match TypeInfos.ParseMeta(columns, Unread(net)[8..])
      case Fail => OpenDead(Broken)
      case Got(_, n) =>
        var first := if count >= 0 && fetchSize > count then count else fetchSize;
        match FetchBatch(Take(net, 8 + n), columns, first, [])
        case Dead(e) => OpenDead(e)
        case Refused(net', e) => OpenRefused(net', e)
        case Fresh(net', rows, end) =>
          Open(RowsState(Some(net'), id, columns, count, fetchSize, rows, 0, end, false, None))
  }
}
