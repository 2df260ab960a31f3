/** The rows object of an open result: opening, fetching, Next and Close. */
module ResultRows {
  import opened Wire
  import opened Values
  import opened Network
  import opened RowStream
  import opened Transfer
  import opened Decoder
  import opened Metadata
  import opened Driver
  import EndOfRows
  import TypeInfos

  const RESULT_CLOSE := 7
  const COMMAND_CLOSE := 4

  // ---- Row widths ----

  predicate Wide(rows: seq<Row>, k: nat) { forall i | 0 <= i < |rows| :: |rows[i]| == k }

  lemma {:induction false} BatchWide(s: Bytes, k: nat, fetch: int, have: seq<Row>)
    requires Wide(have, k)
    ensures ParseBatch(s, k, fetch, have).Complete? ==> Wide(ParseBatch(s, k, fetch, have).rows, k)
    decreases fetch
  {
    hide ParseBatch, ParseRow;
    if fetch <= 0 {
      EmptyBatchIs(s, k, fetch, have);
    } else if ParseBatch(s, k, fetch, have).Complete? {
      BatchStep(s, k, fetch, have);
      if s[0] == 1 {
        var g := ParseRow(s[1..], |have|, 0, k);
        BatchWide(s[1 + g.n..], k, fetch - 1, have + [g.v]);
      }
    }
  }

  lemma EmptyBatchIs(s: Bytes, k: nat, fetch: int, have: seq<Row>)
    requires fetch <= 0
    ensures ParseBatch(s, k, fetch, have) == Complete(have, false, 0)
  {
  }

  lemma {:induction false} ResolveWide(net: Net, k: nat, rows: seq<Row>, pending: seq<PendingLob>)
    requires Wide(rows, k)
    ensures Resolve(net, rows, pending).Done? ==> Wide(Resolve(net, rows, pending).v, k)
    decreases |pending|
  {
    hide RowStream.FetchLob, Splice, Wide;
    if pending != [] {
      var f := RowStream.FetchLob(net, pending[0]);
      if f.Done? {
        SpliceWide(rows, pending[0], f.v, k);
        ResolveWide(f.net, k, Splice(rows, pending[0], f.v), pending[1..]);
      }
    }
  }

  lemma SpliceWide(rows: seq<Row>, p: PendingLob, v: Value, k: nat)
    requires Wide(rows, k)
    ensures Wide(Splice(rows, p, v), k)
  {
  }

  lemma FetchWide(net: Net, k: nat, fetch: int, have: seq<Row>)
    requires Wide(have, k)
    ensures FetchBatch(net, k, fetch, have).Fresh? ==> Wide(FetchBatch(net, k, fetch, have).rows, k)
  {
    BatchWide(Unread(net), k, fetch, have);
    var b := ParseBatch(Unread(net), k, fetch, have);
    hide ParseBatch, Resolve, RowsPending;
    if b.Complete? { ResolveWide(Take(net, b.n), k, b.rows, RowsPending(b.rows[|have|..])); }
  }

  lemma Widened(had: seq<Row>, read: seq<Row>, k: nat)
    requires Wide(had, k) && had <= read && forall i | |had| <= i < |read| :: |read[i]| == k
    ensures Wide(read, k)
  {
  }

  lemma Reshaped(rows: seq<Row>, now: seq<Row>, k: nat)
    requires Wide(rows, k) && SameShape(rows, now)
    ensures Wide(now, k)
  {
  }

  // ---- Closing, as a function ----

  /** A request nobody answers; what cannot be flushed stays in the buffer. */
  function SendQuiet(net: Net, req: Bytes): (Net, bool) {
    match Send(net, req) case Some(n) => (n, true) case None => (Network.Write(net, req), false)
  }

  function Goodbyes(net: Net, id: int32, command: Option<int32>): (Net, bool) {
    var (n1, ok1) := SendQuiet(net, Put32(RESULT_CLOSE) + Put32(id));
    match command
    case None => (n1, ok1)
    case Some(cmd) => var (n2, ok2) := SendQuiet(n1, Put32(COMMAND_CLOSE) + Put32(cmd)); (n2, ok1 && ok2)
  }

  lemma QuietSent(net: Net, req: Bytes)
    ensures var (n, ok) := SendQuiet(net, req);
            |n.log| == |net.log| + if ok then 1 else 0
  {
    hide Answer;
  }

  lemma GoodbyesSent(net: Net, id: int32, command: Option<int32>)
    ensures var (n, ok) := Goodbyes(net, id, command);
            ok <==> |n.log| == |net.log| + if command.Some? then 2 else 1
  {
    hide SendQuiet, Put32;
    var req := Put32(RESULT_CLOSE) + Put32(id);
    QuietSent(net, req);
    if command.Some? { QuietSent(SendQuiet(net, req).0, Put32(COMMAND_CLOSE) + Put32(command.value)); }
  }

  /** The state after Close: a dead session is left alone, a closed result as it is. */
  function Closed(st: RowsState, command: Option<int32>): RowsState {
    if st.closed then st
    else st.(closed := true, buffered := [],
             net := if st.net.None? then None else Some(Goodbyes(st.net.value, st.resultID, command).0))
  }

  lemma QuietHeard(net: Net, req: Bytes, s: Server)
    requires net.out == [] && net.life > 0 && net.peer == Sequential(s) && Serve(s, req).0 == []
    ensures var (n, ok) := SendQuiet(net, req);
            ok && n.input == net.input && n.pos == net.pos && n.out == [] && n.life == net.life - 1
            && n.peer == Sequential(Serve(s, req).1)
  {
    hide Serve;
    assert [] + req == req;
    assert net.input + [] == net.input;
  }

  lemma ClosesHeard(s: Server, id: int32)
    ensures Serve(s, Put32(RESULT_CLOSE) + Put32(id)) == ([], s.(open := s.open && id != s.resultID))
    ensures Serve(s, Put32(COMMAND_CLOSE) + Put32(id)) == ([], s.(commands := s.commands - {id}))
  {
    UnderstandClose(id);
    hide Understand, Put32;
  }

  /** The server without this result and this command. */
  function Without(s: Server, id: int32, command: Option<int32>): Server {
    s.(open := s.open && id != s.resultID, commands := s.commands - (if command.Some? then {command.value} else {}))
  }

  lemma GoodbyesHeard(net: Net, id: int32, command: Option<int32>, s: Server)
    requires net.out == [] && net.life >= 2 && net.peer == Sequential(s)
    ensures var n := Goodbyes(net, id, command).0;
            n.input == net.input && n.pos == net.pos && n.out == [] && n.peer == Sequential(Without(s, id, command))
  {
    hide Serve, SendQuiet, Put32;
    var req := Put32(RESULT_CLOSE) + Put32(id);
    ClosesHeard(s, id);
    QuietHeard(net, req, s);
    var n1, s1 := SendQuiet(net, req).0, s.(open := s.open && id != s.resultID);
    if command.Some? {
      ClosesHeard(s1, command.value);
      QuietHeard(n1, Put32(COMMAND_CLOSE) + Put32(command.value), s1);
    } else {
      assert s.commands - {} == s.commands;
    }
  }

  /** The server closes this result and this command, and nothing else; it answers nothing. */
  lemma CloseHeard(st: RowsState, command: Option<int32>, s: Server)
    requires !st.closed && st.net.Some? && st.net.value.peer == Sequential(s)
    requires st.net.value.out == [] && st.net.value.life >= 2
    ensures var net, net' := st.net.value, Closed(st, command).net;
            && net'.Some? && net'.value.input == net.input && net'.value.pos == net.pos && net'.value.out == []
            && net'.value.peer == Sequential(Without(s, st.resultID, command))
  {
    hide Goodbyes, Without;
    GoodbyesHeard(st.net.value, st.resultID, command, s);
  }

  // ---- The object ----

  class Rows {
    const session: Session
    const resultID: int32
    const columnCount: nat
    const fetchSize: int
    const ownsCommand: bool
    const commandID: int32
    var columns: seq<TypeInfos.Column>
    var rowCount: int
    var rowOffset: nat
    var bufferedRows: seq<Row>
    var currentRow: Row
    var noMoreRows: bool
    var closed: bool
    var err: Option<Err>
    var callback: bool     // closeCallback is set
    var releases: nat      // how often it was called

    predicate Valid()
      reads this, session, session.tr
    {
      session.Valid() && Wide(bufferedRows, columnCount)
    }

    function View(): RowsState
      requires Valid()
      reads this, session, session.tr
    {
      RowsState(session.Link(), resultID, columnCount, rowCount, fetchSize,
                if err.Some? then [] else bufferedRows, rowOffset, err.None? && noMoreRows, closed, err)
    }

    constructor (session: Session, resultID: int32, columnCount: nat, fetchSize: int, ownsCommand: bool,
                 commandID: int32)
      requires session.Valid()
      ensures Valid() && this.session == session && this.ownsCommand == ownsCommand && this.commandID == commandID
      ensures View() == RowsState(session.Link(), resultID, columnCount, -1, fetchSize, [], 0, false, false, None)
      ensures !callback && releases == 0 && columns == []
    {
      this.session, this.resultID, this.columnCount, this.fetchSize := session, resultID, columnCount, fetchSize;
      this.ownsCommand, this.commandID := ownsCommand, commandID;
      columns, rowCount, rowOffset, bufferedRows, currentRow := [], -1, 0, [], [];
      noMoreRows, closed, err, callback, releases := false, false, None, false, 0;
    }

    /**
      * Reads one batch and resolves its LOBs. Every failure but a parsed server error kills the session. Rows and an
      * end flag that came before a failure stay in their fields.
      */
    method FetchRows(fetch: int) returns (e: Option<Err>)
      requires Valid() && session.tr != null
      modifies this`bufferedRows, this`noMoreRows, session, session.tr
      ensures Valid()
      ensures match FetchBatch(old(session.tr.State()), columnCount, fetch, old(bufferedRows))
              case Dead(why) => e == Some(why) && session.tr == null
              case Refused(net, x) =>
                e == Some(Reported(x)) && session.tr == old(session.tr) && session.tr.State() == net
              case Fresh(net, rows, end) =>
                && e == None && session.tr == old(session.tr) && session.tr.State() == net
                && bufferedRows == rows && noMoreRows == (old(noMoreRows) || end)
      ensures |bufferedRows| >= |old(bufferedRows)| && (old(noMoreRows) ==> noMoreRows)
    {
      hide ParseBatch, Resolve, RowsPending, Wide;
      var tr := session.tr;
      ghost var net := tr.State();
      FetchWide(net, columnCount, fetch, bufferedRows);
      var lc := new LobCollector(false);
      var had := bufferedRows;
      var b, read := ReadBatch(tr, lc, columnCount, fetch, had);
      bufferedRows := read;
      Widened(had, read, columnCount);
      match b {
        case Unreadable =>
          session.MarkStreamBroken();
          return Some(Broken);
        case Failing(x) =>
          session.MarkUnlessAligned(Reported(x));
          return Some(Reported(x));
        case Whole(rows, end) =>
          noMoreRows := noMoreRows || end;
          var filled, now := ResolveLobs(tr, rows, lc.pending);
          bufferedRows := now;
          Reshaped(rows, now, columnCount);
          if filled.Failure? {
            session.Abort();
            return Some(filled.e);
          }
          return None;
      }
    }

    /** RESULT_FETCH_ROWS, its status and the batch. */
    method FetchMoreRows(fetch: int) returns (e: Option<Err>)
      requires Valid()
      modifies this`bufferedRows, this`noMoreRows, session, session.tr
      ensures Valid()
      ensures old(session.tr) == null ==> e == Some(BadConn) && session.tr == null && unchanged(this)
      ensures old(session.tr) != null ==>
                match FetchMore(old(session.tr.State()), resultID, columnCount, fetch, old(bufferedRows))
                case Dead(why) => e == Some(why) && session.tr == null
                case Refused(net, x) =>
                  e == Some(Reported(x)) && session.tr == old(session.tr) && session.tr.State() == net
                case Fresh(net, rows, end) =>
                  && e == None && session.tr == old(session.tr) && session.tr.State() == net
                  && bufferedRows == rows && noMoreRows == (old(noMoreRows) || end)
    {
      hide FetchBatch, ParseStatus, Wide, ToInt32, Put32, Answer;
      if session.tr == null { return Some(BadConn); }
      var tr := session.tr;
      ghost var net := tr.State();
      tr.WriteInt32(RESULT_FETCH_ROWS);
      tr.WriteInt32(resultID);
      tr.WriteInt32(ToInt32(fetch));
      ThreeJoined(net.out, Put32(RESULT_FETCH_ROWS), Put32(resultID), Put32(ToInt32(fetch)));
      var sent := tr.Flush();
      if !sent {
        session.MarkUnlessAligned(Lost);
        return Some(Lost);
      }
      ghost var waiting := tr.State();
      assert Send(net, FetchRequest(resultID, ToInt32(fetch))) == Some(waiting);
      var status := ReadStatus(tr);
      if status == None {
        session.MarkUnlessAligned(Broken);
        return Some(Broken);
      }
      if status.value.Some? {
        session.MarkUnlessAligned(Reported(status.value.value));
        return Some(Reported(status.value.value));
      }
      e := FetchRows(fetch);
    }

    /** Fetches when the buffer is empty; an error sticks, and nothing fetched is the end. */
    method Refill() returns (stop: Option<Outcome>)
      requires Valid() && bufferedRows == [] && err == None && !closed && (rowCount >= 0 ==> rowOffset < rowCount)
      modifies this`bufferedRows, this`noMoreRows, this`err, session, session.tr
      ensures Valid()
      ensures stop.Some? ==> (View(), stop.value) == RowStream.Refill(old(View())) && !stop.value.NextRow?
      ensures stop == None ==> bufferedRows != [] && err == None && Pop(View()) == RowStream.Refill(old(View()))
      ensures old(session.tr) == null ==> stop == Some(NextErr(BadConn)) && err == Some(BadConn)
      ensures session.tr == null ==> stop.Some? && stop.value.NextErr? && err == Some(stop.value.e)
    {
      hide FetchMore, Wide;
      var fetch := fetchSize;
      if rowCount >= 0 {
        var remaining := rowCount - rowOffset;
        if fetch > remaining { fetch := remaining; }
      }
      var e := FetchMoreRows(fetch);
      if e.Some? {
        err := e;
        return Some(NextErr(e.value));
      }
      return if bufferedRows == [] then Some(Eof) else None;
    }

    /** Hands out the first buffered row. */
    method Deliver(dest: array<Value>) returns (out: Outcome)
      requires Valid() && bufferedRows != [] && err == None && dest.Length == columnCount
      modifies this`bufferedRows, this`currentRow, this`rowOffset, dest
      ensures Valid() && (View(), out) == Pop(old(View())) && out.NextRow? && dest[..] == out.row
    {
      currentRow := bufferedRows[0];
      bufferedRows := bufferedRows[1..];
      rowOffset := rowOffset + 1;
      var row := currentRow;
      for i := 0 to dest.Length
        invariant dest[..i] == row[..i]
        modifies dest
      {
        dest[i] := row[i];
        assert dest[..i + 1] == dest[..i] + [row[i]];
      }
      assert dest[..] == dest[..dest.Length] && row == row[..dest.Length];
      return NextRow(row);
    }

    /** One call of Next: the next row into `dest`, the end, or an error that sticks. */
    method Next(dest: array<Value>) returns (out: Outcome)
      requires Valid()
      modifies this, session, session.tr, dest
      ensures Valid() && (View(), out) == RowStream.Next(old(View()), dest.Length)
      ensures dest[..] == if out.NextRow? then out.row else old(dest[..])
      ensures callback == old(callback) && releases == old(releases)
      ensures !old(closed) && old(err) == None && out == Eof ==>
                || (0 <= old(rowCount) <= old(rowOffset)) || old(noMoreRows)
                || (old(session.tr) != null && EndOfRows.NextFetch(old(View())).Fresh?
                    && EndOfRows.NextFetch(old(View())).rows == [])
      ensures EndOfRows.Waiting(old(View())) && dest.Length == columnCount && session.tr == null ==>
                out.NextErr? && err == Some(out.e) && (old(session.tr) == null ==> out.e == BadConn)
    {
      EndOfRows.EofExactly(View(), dest.Length);
      if EndOfRows.Waiting(View()) && session.tr == null { EndOfRows.FirstFailure(View()); }
      hide RowStream.Refill, Pop, Wide, FetchMore;
      if closed { return Eof; }
      if err.Some? { return NextErr(err.value); }
      if dest.Length != columnCount { return BadDest; }
      if bufferedRows == [] {
        if rowCount >= 0 && rowOffset >= rowCount { return Eof; }
        if noMoreRows { return Eof; }
        var stop := Refill();
        if stop.Some? { return stop.value; }
      }
      out := Deliver(dest);
    }

    method SendRequest(op: int32, id: int32) returns (ok: bool)
      requires Valid() && session.tr != null
      modifies session.tr
      ensures Valid() && session.tr == old(session.tr)
      ensures (session.tr.State(), ok) == SendQuiet(old(session.tr.State()), Put32(op) + Put32(id))
    {
      hide Put32, Answer, Wide;
      var tr := session.tr;
      ghost var net := tr.State();
      tr.WriteInt32(op);
      tr.WriteInt32(id);
      assert net.out + Put32(op) + Put32(id) == net.out + (Put32(op) + Put32(id));
      ok := tr.Flush();
    }

    /** The command this result has to close with itself. */
    function Command(): Option<int32> { if ownsCommand && commandID != 0 then Some(commandID) else None }

    /** The requests of Close; a dead session gets none. */
    method Farewell() returns (ok: bool)
      requires Valid()
      modifies session.tr
      ensures Valid() && session.tr == old(session.tr)
      ensures session.tr == null ==> ok
      ensures session.tr != null ==> (session.tr.State(), ok) == Goodbyes(old(session.tr.State()), resultID, Command())
    {
      hide SendQuiet, Put32, Wide;
      ok := true;
      if session.tr != null && !session.dead {
        ok := SendRequest(RESULT_CLOSE, resultID);
      }
      if ownsCommand && commandID != 0 && session.tr != null && !session.dead {
        var sent := SendRequest(COMMAND_CLOSE, commandID);
        ok := ok && sent;
      }
    }

    /** How many requests a first Close of a live result sends. */
    function Farewells(): nat { if Command().Some? then 2 else 1 }

    /**
      * Tells the server, forgets the rows and calls the callback; a second Close does nothing. It reports success
      * exactly when every request that had to be sent was sent.
      */
    method Close() returns (ok: bool)
      requires Valid()
      modifies this, session.tr
      ensures Valid() && View() == Closed(old(View()), Command())
      ensures ok <==>
                || old(closed) || old(View()).net.None?
                || (View().net.Some? && |View().net.value.log| == |old(View()).net.value.log| + Farewells())
      ensures !callback == (!old(callback) || !old(closed))
      ensures releases == old(releases) + if old(callback) && !old(closed) then 1 else 0
    {
      hide Goodbyes;
      if View().net.Some? { GoodbyesSent(View().net.value, resultID, Command()); }
      if closed { return true; }
      closed := true;
      ok := Farewell();
      bufferedRows := [];
      currentRow := [];
      columns := [];
      if callback {
        releases := releases + 1;
        callback := false;
      }
    }
  }

  lemma ThreeJoined(o: Bytes, a: Bytes, b: Bytes, c: Bytes)
    ensures o + a + b + c == o + (a + (b + c))
  {
  }

  /** Row count, column metadata and first batch of a result whose column count was just read. */
  method NewRows(session: Session, resultID: int32, columnCount: int32, fetchSize: int, ownsCommand: bool,
                 commandID: int32)
    returns (rows: Rows?, e: Option<Err>)
    requires session.Valid()
    modifies session, session.tr
    ensures session.Valid() && (rows == null <==> e.Some?)
    ensures old(session.tr) == null ==> e == Some(BadConn) && session.tr == null
    ensures old(session.tr) != null ==>
              match OpenRows(old(session.tr.State()), resultID, columnCount, fetchSize)
              case OpenDead(why) => rows == null && e == Some(why) && session.tr == null
              case OpenRefused(net, x) =>
                rows == null && e == Some(Reported(x)) && session.tr == old(session.tr) && session.tr.State() == net
              case Open(st) =>
                && rows != null && fresh(rows) && rows.session == session && rows.Valid() && rows.View() == st
                && !rows.callback && rows.releases == 0
                && rows.ownsCommand == ownsCommand && rows.commandID == commandID
                && TypeInfos.ParseMeta(columnCount, Unread(old(session.tr.State()))[8..]).v == rows.columns
  {
    hide FetchBatch, TypeInfos.ParseMeta, Get64, Wide;
    e := None;
    if session.tr == null { return null, Some(BadConn); }
    var tr := session.tr;
    ghost var net := tr.State();
    var count := tr.ReadInt64();
    if count == None {
      session.MarkStreamBroken();
      return null, Some(Broken);
    }
    UnreadTake(net, 8);
    var meta := ReadResultMeta(tr, columnCount);
    if meta == None {
      session.MarkStreamBroken();
      return null, Some(Broken);
    }
    rows := new Rows(session, resultID, columnCount, fetchSize, ownsCommand, commandID);
    rows.rowCount := count.value;
    rows.columns := meta.value;
    var fetch := fetchSize;
    if rows.rowCount >= 0 && fetch > rows.rowCount { fetch := rows.rowCount; }
    if fetch > 0 {
      e := rows.FetchRows(fetch);
      if e.Some? { rows := null; }
    } else {
      NothingToFetch(tr.State(), columnCount, fetch);
    }
  }

  lemma NothingToFetch(net: Net, k: nat, fetch: int)
    requires fetch <= 0
    ensures FetchBatch(net, k, fetch, []) == Fresh(net, [], false)
  {
  }
}
