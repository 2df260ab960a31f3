/**
  * The critical sections of a connection and of a prepared statement: what happens under each mutex, once as functions
  * of the guarded fields and once as methods that update them.
  */
module Sections {

  // ---- Connection ----

  /** `session` is false once the session was dropped; `dead` is the session's flag. */
  datatype ConnView = ConnView(session: bool, dead: bool, busy: bool)

  predicate Usable(c: ConnView) { c.session && !c.dead }

  predicate CanAcquire(c: ConnView) { Usable(c) && !c.busy }

  function Acquired(c: ConnView): ConnView { if CanAcquire(c) then c.(busy := true) else c }

  function Released(c: ConnView): ConnView { c.(busy := false) }

  function Dropped(c: ConnView): ConnView { if c.session then c.(session := false, busy := false) else c }

  class Connection {
    var session: bool
    var dead: bool
    var busy: bool

    function View(): ConnView
      reads this
    {
      ConnView(session, dead, busy)
    }

    /** Only a connection with a session is ever busy. */
    ghost predicate Valid()
      reads this
    {
      busy ==> session
    }

    constructor ()
      ensures Valid() && CanAcquire(View())
    {
      session, dead, busy := true, false, false;
    }

    /** Succeeds exactly on a usable, free connection, and from then on for nobody else. */
    method Acquire() returns (ok: bool)
      requires Valid()
      modifies this
      ensures Valid() && View() == Acquired(old(View()))
      ensures ok == CanAcquire(old(View())) && !CanAcquire(View())
    {
      if !session || dead { return false; }
      if busy { return false; }
      busy := true;
      return true;
    }

    /** Afterwards the connection can be acquired exactly if its session is still usable. */
    method Release()
      requires Valid()
      modifies this
      ensures Valid() && View() == Released(old(View()))
      ensures CanAcquire(View()) <==> Usable(old(View()))
    {
      busy := false;
    }

    /** The result says whether the open transaction is rolled back and the session closed in good order. */
    method Close(autoCommit: bool) returns (rollback: bool, goodbye: bool)
      requires Valid()
      modifies this
      ensures Valid() && View() == Dropped(old(View())) && !Usable(View())
      ensures goodbye == (old(session) && !old(busy)) && rollback == (goodbye && !autoCommit)
    {
      if !session { return false, false; }
      if busy {
        session := false;
        busy := false;
        return false, false;
      }
      rollback, goodbye := !autoCommit, true;
      session := false;
      busy := false;
    }
  }

  // ---- Statement ----

  /** `cmd` and `conn` tell whether the references are still held. */
  datatype StmtView = StmtView(closed: bool, pending: bool, sent: bool, cmd: bool, conn: bool)

  const FRESH := StmtView(false, false, false, true, true)

  /** The views a statement can reach. */
  predicate Sane(v: StmtView) {
    && (v.sent <==> !v.cmd) && v.conn == v.cmd
    && (v.pending ==> v.closed && !v.sent) && (v.sent ==> v.closed)
  }

  predicate CanBegin(s: StmtView) { !s.closed && s.conn && s.cmd && !s.sent }

  /** The first section of Close: nothing is left to do, or the statement stops accepting executions. */
  predicate NothingToClose(s: StmtView) { s.sent || !s.cmd }

  function CloseAsked(s: StmtView): StmtView { s.(closed := true) }

  function Deferred(s: StmtView): StmtView { if s.sent then s else s.(pending := true) }

  /** The owner's check before it releases the connection. */
  predicate OwesClose(s: StmtView) { s.closed && s.pending && !s.sent && s.cmd }

  /** The command the caller held is still the statement's command exactly when the statement has one. */
  function Marked(s: StmtView): StmtView {
    if s.cmd then s.(cmd := false, conn := false, pending := false, sent := true) else s
  }

  datatype CloseTodo = Nothing | JustMark | TryToClose

  datatype CloseOutcome = AlreadyClosed | Sent | Postponed | Refused

  class Statement {
    var closed: bool
    var closePending: bool
    var closeSent: bool
    var cmd: bool
    var conn: Connection?

    function View(): StmtView
      reads this
    {
      StmtView(closed, closePending, closeSent, cmd, conn != null)
    }

    ghost predicate Valid()
      reads this
    {
      Sane(View())
    }

    constructor (c: Connection)
      ensures Valid() && View() == FRESH && conn == c
    {
      closed, closePending, closeSent, cmd, conn := false, false, false, true, c;
    }

    method BeginOperation() returns (c: Connection?)
      requires Valid() && (conn != null ==> conn.Valid())
      modifies conn
      ensures c != null <==> !closed && CanAcquire(old(conn.View()))
      ensures c != null ==> c == old(conn) && c.Valid() && c.View() == Acquired(old(conn.View()))
      ensures conn != null && c == null ==> conn.View() == old(conn.View())
    {
      if closed || conn == null || !cmd || closeSent { return null; }
      var ok := conn.Acquire();
      return if ok then conn else null;
    }

    /** No operation begins from here on; nothing is left to do exactly if the command was closed before. */
    method StartClose() returns (todo: CloseTodo)
      requires Valid()
      modifies this
      ensures Valid() && View() == CloseAsked(old(View())) && conn == old(conn)
      ensures !CanBegin(View()) && OwesClose(View()) == old(closePending)
      ensures todo == if old(closeSent) then Nothing else TryToClose
    {
      if closeSent || !cmd {
        closed := true;
        return Nothing;
      }
      closed := true;
      return if conn == null then JustMark else TryToClose;
    }

    /** Leaves a debt for the next owner that looks, exactly if the command is not closed yet. */
    method Defer()
      requires Valid() && closed
      modifies this
      ensures Valid() && View() == Deferred(old(View())) && conn == old(conn)
      ensures OwesClose(View()) <==> !old(closeSent)
    {
      if !closeSent { closePending := true; }
    }

    /** Of the four fields it looks at, the deferral alone decides. */
    method Owes() returns (owes: bool)
      requires Valid()
      ensures owes == closePending == OwesClose(View())
    {
      return !(!closed || !closePending || closeSent || !cmd);
    }

    /** Settles the debt for good: nothing begins, is owed or is left to close; a second time changes nothing. */
    method MarkClosed()
      requires Valid() && closed
      modifies this
      ensures Valid() && View() == Marked(old(View()))
      ensures !CanBegin(View()) && !OwesClose(View()) && NothingToClose(View())
      ensures old(closeSent) ==> View() == old(View())
    {
      if cmd {
        cmd := false;
        conn := null;
        closePending := false;
        closeSent := true;
      }
    }

    /**
      * The end of an operation that owns the connection: a deferred close is sent or, without a usable session,
      * written off; a refused one stays owed. The connection is released in every case.
      */
    method FinishOperation(c: Connection, ok: bool) returns (sent: bool, failed: bool)
      requires Valid() && c.Valid()
      modifies this, c
      ensures Valid() && c.Valid() && c.session == old(c.session) && c.dead == old(c.dead)
      ensures CanAcquire(c.View()) <==> Usable(old(c.View()))
      ensures sent == (old(closePending) && Usable(old(c.View())) && ok)
      ensures failed == (old(closePending) && Usable(old(c.View())) && !ok)
      ensures failed || !old(closePending) ==> View() == old(View())
      ensures !failed ==> !OwesClose(View()) && (old(closePending) ==> NothingToClose(View()))
    {
      sent, failed := false, false;
      var owes := Owes();
      if owes {
        if c.session && !c.dead {
          sent, failed := ok, !ok;
        }
        if !failed {
          MarkClosed();
        }
      }
      c.Release();
    }

    /**
      * Close without interference: the command is closed, found closed, or owed to the operation that has the
      * connection; afterwards no operation begins, and the connection is as free as it was.
      */
    method Close(ok: bool) returns (outcome: CloseOutcome)
      requires Valid() && (conn != null ==> conn.Valid())
      modifies this, conn
      ensures Valid() && !CanBegin(View())
      ensures outcome.AlreadyClosed? <==> old(closeSent)
      ensures outcome.Postponed? <==> !old(closeSent) && !CanAcquire(old(conn.View()))
      ensures outcome.Refused? <==> !old(closeSent) && CanAcquire(old(conn.View())) && !ok
      ensures OwesClose(View()) <==> outcome.Postponed? || (outcome.Refused? && old(closePending))
      ensures NothingToClose(View()) <==> outcome.AlreadyClosed? || outcome.Sent?
      ensures old(conn) != null ==> old(conn).View() == old(conn.View())
    {
      var c := conn;
      var todo := StartClose();
      if todo.Nothing? {
        return AlreadyClosed;
      }
      var free := c.Acquire();
      if !free {
        Defer();
        return Postponed;
      }
      if !ok {
        c.Release();
        return Refused;
      }
      MarkClosed();
      c.Release();
      return Sent;
    }
  }
}
