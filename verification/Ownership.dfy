/**
  * Any number of goroutines using one connection, any number of its prepared statements and the result sets they open,
  * interleaved at the critical sections. Every run is a sequence of actions; an action that is not enabled changes
  * nothing. The connection knows only whether it is busy, not who made it so: that the one that releases it is the one
  * that holds it is proved.
  */
module Ownership {
  import opened Sections

  /** Where a goroutine is. The number is the statement it works on. */
  datatype Place =
    | Idle
    | Began(k: nat, query: bool)   // beginOperation succeeded; nothing executed yet
    | Ran(k: nat)                  // the owner's check for a deferred close is next
    | Sending(k: nat)              // the owner is about to send COMMAND_CLOSE
    | Marking(k: nat)              // COMMAND_CLOSE was sent or needed no sending
    | Leaving                      // release is next
    | CloseTrying(k: nat)          // Close marked the statement closed; acquire is next
    | CloseDeferring(k: nat)       // acquire failed; closePending is next
    | CloseSending(k: nat)         // Close owns the connection and is about to send COMMAND_CLOSE
    | CloseMarking(k: nat)
    | Busy(query: bool)            // any other operation that owns the connection

  datatype Backing = Adhoc | Prepared(k: nat)

  /** An open result set keeps the connection that was acquired for it; its callback gives it back. */
  datatype ResultSet = ResultSet(closed: bool, of: Backing, hold: nat)

  /** Every successful acquire has its own number; a release carries the number the releasing goroutine was given. */
  datatype Event =
    | Acquire(h: nat) | Release(h: nat) | Execute(k: nat) | CloseCalled(k: nat)
    | CloseSent(k: nat, deferred: bool) | CloseFailed(k: nat) | Dropped

  datatype State = State(
    conn: ConnView,
    stmts: seq<StmtView>,
    at: seq<Place>,
    mine: map<nat, nat>,    // the number of each goroutine's latest acquire
    rows: seq<ResultSet>,
    next: nat,              // the number of the next acquire
    log: seq<Event>)

  datatype Action =
    | StartOp(t: nat, k: nat, query: bool)
    | StartClose(t: nat, k: nat)
    | StartOther(t: nat, query: bool)
    | CloseRows(t: nat, r: nat)   // Rows.Close of any result set by any goroutine, the first time or again
    | Go(t: nat, ok: bool)        // the goroutine's next section; `ok` is whether its request succeeds
    | CloseConn
    | Die                         // the session is aborted

  // ---- Steps ----

  function Mine(s: State, t: nat): nat { if t in s.mine then s.mine[t] else 0 }

  function Move(s: State, t: nat, p: Place, events: seq<Event>): State
    requires t < |s.at|
  {
    s.(at := s.at[t := p], log := s.log + events)
  }

  function SetStmt(s: State, k: nat, v: StmtView): State
    requires k < |s.stmts|
  {
    s.(stmts := s.stmts[k := v])
  }

  function TryAcquire(s: State, t: nat, won: Place, lost: Place): State
    requires t < |s.at|
  {
    if CanAcquire(s.conn) then
      Move(s.(conn := Sections.Acquired(s.conn), mine := s.mine[t := s.next], next := s.next + 1), t, won,
           [Acquire(s.next)])
    else
      Move(s, t, lost, [])
  }

  /** cmd.Close: without a usable session it succeeds and sends nothing. */
  function SendClose(s: State, t: nat, k: nat, ok: bool, deferred: bool): State
    requires t < |s.at|
  {
    var done := if deferred then Marking(k) else CloseMarking(k);
    if !Usable(s.conn) then Move(s, t, done, [])
    else if ok then Move(s, t, done, [CloseSent(k, deferred)])
    else Move(s, t, Leaving, [CloseFailed(k)])
  }

  function Leave(s: State, t: nat): State
    requires t < |s.at|
  {
    Move(s.(conn := Sections.Released(s.conn)), t, Idle, [Release(Mine(s, t))])
  }

  /** The query succeeded: the goroutine returns a result set, which keeps the connection. */
  function OpenRows(s: State, t: nat, of: Backing, events: seq<Event>): State
    requires t < |s.at|
  {
    Move(s.(rows := s.rows + [ResultSet(false, of, Mine(s, t))]), t, Idle, events)
  }

  /** Execution of a prepared statement. */
  function Execution(s: State, t: nat, k: nat, query: bool, ok: bool): State
    requires t < |s.at|
  {
    if !Usable(s.conn) then Move(s, t, Ran(k), [])
    else if query && ok then OpenRows(s, t, Prepared(k), [Execute(k)])
    else Move(s, t, Ran(k), [Execute(k)])
  }

  function Mark(s: State, t: nat, k: nat): State
    requires t < |s.at|
  {
    Move(if k < |s.stmts| then SetStmt(s, k, Marked(s.stmts[k])) else s, t, Leaving, [])
  }

  function Advance(s: State, t: nat, ok: bool): State
    requires t < |s.at|
  {
    match s.at[t]
    case Idle => s
    case Began(k, query) => Execution(s, t, k, query, ok)
    case Ran(k) => Move(s, t, if k < |s.stmts| && OwesClose(s.stmts[k]) then Sending(k) else Leaving, [])
    case Sending(k) => SendClose(s, t, k, ok, true)
    case Marking(k) => Mark(s, t, k)
    case Leaving => Leave(s, t)
    case CloseTrying(k) => TryAcquire(s, t, CloseSending(k), CloseDeferring(k))
    case CloseDeferring(k) => Move(if k < |s.stmts| then SetStmt(s, k, Deferred(s.stmts[k])) else s, t, Idle, [])
    case CloseSending(k) => SendClose(s, t, k, ok, false)
    case CloseMarking(k) => Mark(s, t, k)
    case Busy(query) => if query && ok && Usable(s.conn) then OpenRows(s, t, Adhoc, []) else Leave(s, t)
  }

  function BeginClose(s: State, t: nat, k: nat): State
    requires t < |s.at| && k < |s.stmts|
  {
    var v := s.stmts[k];
    var s' := SetStmt(s, k, CloseAsked(v));
    if NothingToClose(v) then Move(s', t, Idle, [CloseCalled(k)])
    else if !v.conn then Move(SetStmt(s, k, Marked(CloseAsked(v))), t, Idle, [CloseCalled(k)])
    else Move(s', t, CloseTrying(k), [CloseCalled(k)])
  }

  /** The flag is set first; only the call that set it runs the callback. */
  function BeginRowsClose(s: State, t: nat, r: nat): State
    requires t < |s.at| && r < |s.rows|
  {
    var q := s.rows[r];
    if q.closed then s else
    Move(s.(rows := s.rows[r := q.(closed := true)], mine := s.mine[t := q.hold]), t,
         if q.of.Prepared? then Ran(q.of.k) else Leaving, [])
  }

  function Step(s: State, a: Action): State {
    match a
    case StartOp(t, k, query) =>
      if t < |s.at| && s.at[t].Idle? && k < |s.stmts| && CanBegin(s.stmts[k]) then
        TryAcquire(s, t, Began(k, query), Idle)
      else s
    case StartClose(t, k) => if t < |s.at| && s.at[t].Idle? && k < |s.stmts| then BeginClose(s, t, k) else s
    case StartOther(t, query) => if t < |s.at| && s.at[t].Idle? then TryAcquire(s, t, Busy(query), Idle) else s
    case CloseRows(t, r) => if t < |s.at| && s.at[t].Idle? && r < |s.rows| then BeginRowsClose(s, t, r) else s
    case Go(t, ok) => if t < |s.at| then Advance(s, t, ok) else s
    case CloseConn =>
      s.(conn := Sections.Dropped(s.conn), log := s.log + if s.conn.session then [Event.Dropped] else [])
    case Die => s.(conn := s.conn.(dead := true))
  }

  function Run(s: State, actions: seq<Action>): State
    decreases |actions|
  {
    if actions == [] then s else Step(Run(s, actions[..|actions| - 1]), actions[|actions| - 1])
  }

  /** A live connection with `k` freshly prepared statements and `n` goroutines. */
  function Start(k: nat, n: nat): State {
    State(ConnView(true, false, false), seq(k, _ => FRESH), seq(n, _ => Idle), map[], [], 0, [])
  }

  // ---- Counting events ----

  function Count(log: seq<Event>, e: Event): nat {
    if log == [] then 0 else Count(log[..|log| - 1], e) + if log[|log| - 1] == e then 1 else 0
  }

  lemma CountSnoc(log: seq<Event>, x: Event, e: Event)
    ensures Count(log + [x], e) == Count(log, e) + if x == e then 1 else 0
  {
    assert (log + [x])[..|log|] == log;
  }

  // ---- At most one holder ----

  predicate Owns(p: Place) {
    !p.Idle? && !p.CloseTrying? && !p.CloseDeferring?
  }

  datatype Holder = ByGoroutine(t: nat) | ByRows(r: nat)

  predicate Holds(s: State, o: Holder) {
    match o
    case ByGoroutine(t) => t < |s.at| && Owns(s.at[t])
    case ByRows(r) => r < |s.rows| && !s.rows[r].closed
  }

  function HoldOf(s: State, o: Holder): nat
    requires Holds(s, o)
  {
    match o
    case ByGoroutine(t) => Mine(s, t)
    case ByRows(r) => s.rows[r].hold
  }

  /**
    * At most one goroutine or result set holds the connection, it is the one that acquired last, and it keeps it busy.
    */
  ghost predicate OneOwner(s: State) {
    && (forall o, p | Holds(s, o) && Holds(s, p) :: o == p)
    && (forall o | Holds(s, o) :: HoldOf(s, o) + 1 == s.next)
    && (s.conn.session ==> forall o | Holds(s, o) :: s.conn.busy)
  }

  /** Whoever holds now held before, under the same number. */
  lemma SameOwner(s: State, s': State)
    requires OneOwner(s) && s'.next == s.next && (s'.conn.session ==> s.conn.session && s'.conn.busy == s.conn.busy)
    requires forall o | Holds(s', o) :: Holds(s, o) && HoldOf(s', o) == HoldOf(s, o)
    ensures OneOwner(s')
  {
    hide Holds, HoldOf;
  }

  /** One holder hands the connection to another. */
  lemma Handed(s: State, s': State, from: Holder, to: Holder)
    requires OneOwner(s) && s'.next == s.next && s'.conn == s.conn && Holds(s, from) && Holds(s', to)
    requires HoldOf(s', to) == HoldOf(s, from)
    requires forall o | Holds(s', o) :: o == to || (Holds(s, o) && o != from)
    ensures OneOwner(s')
  {
    hide Holds, HoldOf;
  }

  lemma AcquireOwner(s: State, t: nat, won: Place, lost: Place)
    requires OneOwner(s) && t < |s.at| && !Owns(s.at[t]) && Owns(won) && !Owns(lost)
    ensures OneOwner(TryAcquire(s, t, won, lost))
  {
    var s' := TryAcquire(s, t, won, lost);
    if CanAcquire(s.conn) {
      assert forall o | Holds(s', o) && o != ByGoroutine(t) :: Holds(s, o);
    } else {
      SameOwner(s, s');
    }
  }

  lemma LeaveOwner(s: State, t: nat)
    requires OneOwner(s) && t < |s.at| && Owns(s.at[t])
    ensures OneOwner(Leave(s, t)) && forall o :: !Holds(Leave(s, t), o)
  {
    var s' := Leave(s, t);
    assert Holds(s, ByGoroutine(t));
    assert forall o | Holds(s', o) :: Holds(s, o) && o != ByGoroutine(t);
  }

  lemma OpenOwner(s: State, t: nat, of: Backing, events: seq<Event>)
    requires OneOwner(s) && t < |s.at| && Owns(s.at[t])
    ensures OneOwner(OpenRows(s, t, of, events))
  {
    var s' := OpenRows(s, t, of, events);
    var from, to := ByGoroutine(t), ByRows(|s.rows|);
    assert Holds(s, from) && Holds(s', to) && HoldOf(s', to) == HoldOf(s, from);
    assert forall o | Holds(s', o) :: o == to || (Holds(s, o) && o != from);
    Handed(s, s', from, to);
  }

  lemma RowsCloseOwner(s: State, t: nat, r: nat)
    requires OneOwner(s) && t < |s.at| && s.at[t].Idle? && r < |s.rows|
    ensures OneOwner(BeginRowsClose(s, t, r))
  {
    if !s.rows[r].closed {
      var s' := BeginRowsClose(s, t, r);
      var from, to := ByRows(r), ByGoroutine(t);
      assert Holds(s, from) && Holds(s', to) && HoldOf(s', to) == HoldOf(s, from);
      assert forall o | Holds(s', o) :: o == to || (Holds(s, o) && o != from);
      Handed(s, s', from, to);
    }
  }

  lemma AdvanceOwner(s: State, t: nat, ok: bool)
    requires OneOwner(s) && t < |s.at|
    ensures OneOwner(Advance(s, t, ok))
  {
    match s.at[t]
    case Idle =>
    case Leaving => LeaveOwner(s, t);
    case Busy(query) =>
      if query && ok && Usable(s.conn) { OpenOwner(s, t, Adhoc, []); } else { LeaveOwner(s, t); }
    case Began(k, query) =>
      if query && ok && Usable(s.conn) { OpenOwner(s, t, Prepared(k), [Execute(k)]); } else { SettleOwner(s, t, ok); }
    case CloseTrying(k) => AcquireOwner(s, t, CloseSending(k), CloseDeferring(k));
    case _ => SettleOwner(s, t, ok);
  }

  /** The sections in which the connection stays with whoever holds it. */
  predicate Settles(s: State, t: nat, ok: bool)
    requires t < |s.at|
  {
    match s.at[t]
    case Idle => false
    case Leaving => false
    case Busy(_) => false
    case CloseTrying(_) => false
    case Began(_, query) => !(query && ok && Usable(s.conn))
    case _ => true
  }

  lemma SettleOwner(s: State, t: nat, ok: bool)
    requires OneOwner(s) && t < |s.at| && Settles(s, t, ok)
    ensures OneOwner(Advance(s, t, ok))
  {
    var s' := Advance(s, t, ok);
    Settled(s, t, ok);
    assert forall o | Holds(s', o) :: Holds(s, o) && HoldOf(s', o) == HoldOf(s, o);
    hide Advance, OneOwner, Holds, HoldOf;
    SameOwner(s, s');
  }

  lemma Settled(s: State, t: nat, ok: bool)
    requires t < |s.at| && Settles(s, t, ok)
    ensures var s' := Advance(s, t, ok);
            && s'.conn == s.conn && s'.next == s.next && s'.mine == s.mine && s'.rows == s.rows
            && s'.at == s.at[t := s'.at[t]] && Owns(s'.at[t]) == Owns(s.at[t])
            && (News(s, s') == [] || (!News(s, s')[0].Acquire? && !News(s, s')[0].Release? && !News(s, s')[0].Dropped?))
  {
    hide Marked, Deferred, OwesClose, Usable;
    SettledNews(s, t, ok);
    hide News;
  }

  lemma SettledNews(s: State, t: nat, ok: bool)
    requires t < |s.at| && Settles(s, t, ok)
    ensures var e := News(s, Advance(s, t, ok));
            e == [] || (!e[0].Acquire? && !e[0].Release? && !e[0].Dropped?)
  {
    hide Marked, Deferred, OwesClose, Usable;
  }

  lemma StepOwner(s: State, a: Action)
    requires OneOwner(s)
    ensures OneOwner(Step(s, a))
  {
    match a
    case Go(t, ok) => if t < |s.at| { AdvanceOwner(s, t, ok); }
    case StartOp(t, k, query) => if t < |s.at| && s.at[t].Idle? { AcquireOwner(s, t, Began(k, query), Idle); }
    case StartOther(t, query) => if t < |s.at| && s.at[t].Idle? { AcquireOwner(s, t, Busy(query), Idle); }
    case CloseRows(t, r) => if t < |s.at| && s.at[t].Idle? && r < |s.rows| { RowsCloseOwner(s, t, r); }
    case StartClose(t, k) => if t < |s.at| && s.at[t].Idle? && k < |s.stmts| { SameOwner(s, Step(s, a)); }
    case CloseConn => SameOwner(s, Step(s, a));
    case Die => SameOwner(s, Step(s, a));
  }

  /** In every interleaving at most one goroutine or open result set holds the connection. */
  lemma {:induction false} AtMostOneOwner(k: nat, n: nat, actions: seq<Action>)
    ensures OneOwner(Run(Start(k, n), actions))
  {
    if actions != [] {
      AtMostOneOwner(k, n, actions[..|actions| - 1]);
      hide Step, OneOwner;
      StepOwner(Run(Start(k, n), actions[..|actions| - 1]), actions[|actions| - 1]);
    }
  }

  // ---- Events ----

  /** An action adds at most one event. */
  lemma OneEvent(s: State, a: Action)
    ensures |Step(s, a).at| == |s.at| && |Step(s, a).stmts| == |s.stmts|
    ensures Step(s, a).log == s.log || (|Step(s, a).log| == |s.log| + 1 && Step(s, a).log[..|s.log|] == s.log)
  {
    if a.Go? && a.t < |s.at| {
      AdvanceOneEvent(s, a.t, a.ok);
      hide Advance;
    } else {
      hide Advance;
    }
  }

  lemma AdvanceOneEvent(s: State, t: nat, ok: bool)
    requires t < |s.at|
    ensures var s' := Advance(s, t, ok);
            && |s'.at| == |s.at| && |s'.stmts| == |s.stmts|
            && (s'.log == s.log || (|s'.log| == |s.log| + 1 && s'.log[..|s.log|] == s.log))
  {
    hide Marked, Deferred, OwesClose, Usable, CanAcquire;
    var s' := Advance(s, t, ok);
    assert s'.log == s.log || exists e :: s'.log == s.log + [e];
  }

  /** The events a step adds: none or one. */
  function News(s: State, s': State): seq<Event> { if |s'.log| > |s.log| then [s'.log[|s.log|]] else [] }

  lemma CountStep(s: State, a: Action, e: Event)
    ensures Count(Step(s, a).log, e) == Count(s.log, e) + if News(s, Step(s, a)) == [e] then 1 else 0
  {
    OneEvent(s, a);
    var log := Step(s, a).log;
    hide Step;
    if log != s.log { CountSnoc(s.log, log[|s.log|], e); assert log == s.log + [log[|s.log|]]; }
  }

  // ---- Every acquire is released exactly once ----

  ghost predicate Held(s: State, h: nat) { exists o :: Holds(s, o) && HoldOf(s, o) == h }

  /** Acquire number `h` happened once if at all, and is released once or still held. */
  ghost predicate Balanced(s: State, h: nat) {
    && Count(s.log, Acquire(h)) == (if h < s.next then 1 else 0)
    && Count(s.log, Release(h)) + (if Held(s, h) then 1 else 0) == Count(s.log, Acquire(h))
  }

  /** What a step adds to the log tells how holds changed. */
  ghost predicate Honest(s: State, s': State, h: nat) {
    && s'.next == s.next + (if exists x :: News(s, s') == [Acquire(x)] then 1 else 0)
    && (News(s, s') == [Acquire(h)] ==> h == s.next && !Held(s, h) && Held(s', h))
    && (News(s, s') == [Release(h)] ==> Held(s, h) && !Held(s', h))
    && (News(s, s') != [Acquire(h)] && News(s, s') != [Release(h)] ==> Held(s', h) == Held(s, h))
  }

  lemma AcquireHonest(s: State, t: nat, won: Place, lost: Place, h: nat)
    requires OneOwner(s) && t < |s.at| && !Owns(s.at[t]) && Owns(won) && !Owns(lost)
    ensures Honest(s, TryAcquire(s, t, won, lost), h)
  {
    var s' := TryAcquire(s, t, won, lost);
    if CanAcquire(s.conn) {
      AcquireOwner(s, t, won, lost);
      assert News(s, s') == [Acquire(s.next)];
      assert forall o :: !Holds(s, o);
      assert Holds(s', ByGoroutine(t)) && HoldOf(s', ByGoroutine(t)) == s.next;
    } else {
      assert News(s, s') == [];
      assert forall o :: Holds(s, o) == Holds(s', o);
      SameHeld(s, s', h);
    }
  }

  lemma SameHeld(s: State, s': State, h: nat)
    requires forall o :: Holds(s, o) == Holds(s', o)
    requires forall o | Holds(s, o) :: HoldOf(s', o) == HoldOf(s, o)
    ensures Held(s', h) == Held(s, h)
  {
    hide Holds, HoldOf;
  }

  lemma HandedHeld(s: State, s': State, from: Holder, to: Holder, h: nat)
    requires OneOwner(s) && OneOwner(s') && Holds(s, from) && Holds(s', to) && HoldOf(s', to) == HoldOf(s, from)
    ensures Held(s', h) == Held(s, h)
  {
    hide Holds, HoldOf;
  }

  lemma LeaveHonest(s: State, t: nat, h: nat)
    requires OneOwner(s) && t < |s.at| && Owns(s.at[t])
    ensures Honest(s, Leave(s, t), h)
  {
    LeaveOwner(s, t);
    var s' := Leave(s, t);
    assert Holds(s, ByGoroutine(t)) && HoldOf(s, ByGoroutine(t)) == Mine(s, t);
    assert News(s, s') == [Release(Mine(s, t))];
  }

  lemma OpenHonest(s: State, t: nat, of: Backing, events: seq<Event>, h: nat)
    requires OneOwner(s) && t < |s.at| && Owns(s.at[t])
    requires events == [] || (exists k :: events == [Execute(k)])
    ensures Honest(s, OpenRows(s, t, of, events), h)
  {
    OpenOwner(s, t, of, events);
    var s' := OpenRows(s, t, of, events);
    assert News(s, s') == events;
    assert Holds(s, ByGoroutine(t)) && Holds(s', ByRows(|s.rows|));
    HandedHeld(s, s', ByGoroutine(t), ByRows(|s.rows|), h);
  }

  lemma RowsCloseHonest(s: State, t: nat, r: nat, h: nat)
    requires OneOwner(s) && t < |s.at| && s.at[t].Idle? && r < |s.rows|
    ensures Honest(s, BeginRowsClose(s, t, r), h)
  {
    if !s.rows[r].closed {
      RowsCloseOwner(s, t, r);
      var s' := BeginRowsClose(s, t, r);
      assert News(s, s') == [];
      assert Holds(s, ByRows(r)) && Holds(s', ByGoroutine(t));
      HandedHeld(s, s', ByRows(r), ByGoroutine(t), h);
    }
  }

  lemma SettleHonest(s: State, t: nat, ok: bool, h: nat)
    requires t < |s.at| && Settles(s, t, ok)
    ensures Honest(s, Advance(s, t, ok), h)
  {
    var s' := Advance(s, t, ok);
    Settled(s, t, ok);
    hide Advance;
    assert forall o :: Holds(s, o) == Holds(s', o);
    SameHeld(s, s', h);
    assert forall x :: News(s, s') != [Acquire(x)] && News(s, s') != [Release(x)];
  }

  lemma AdvanceHonest(s: State, t: nat, ok: bool, h: nat)
    requires OneOwner(s) && t < |s.at|
    ensures Honest(s, Advance(s, t, ok), h)
  {
    hide OneOwner, Honest;
    match s.at[t]
    case Idle => Still(s, s, h);
    case Leaving => LeaveHonest(s, t, h);
    case Busy(query) =>
      if query && ok && Usable(s.conn) { OpenHonest(s, t, Adhoc, [], h); } else { LeaveHonest(s, t, h); }
    case Began(k, query) =>
      if query && ok && Usable(s.conn) { OpenHonest(s, t, Prepared(k), [Execute(k)], h); }
      else { SettleHonest(s, t, ok, h); }
    case CloseTrying(k) => AcquireHonest(s, t, CloseSending(k), CloseDeferring(k), h);
    case _ => SettleHonest(s, t, ok, h);
  }

  /** A step that leaves goroutines' ownership and result sets alone. */
  lemma Still(s: State, s': State, h: nat)
    requires s'.rows == s.rows && s'.mine == s.mine && s'.next == s.next && |s'.at| == |s.at|
    requires forall t | 0 <= t < |s.at| :: Owns(s'.at[t]) == Owns(s.at[t])
    requires News(s, s') == [] || (!News(s, s')[0].Acquire? && !News(s, s')[0].Release?)
    ensures Honest(s, s', h)
  {
    assert forall o :: Holds(s, o) == Holds(s', o);
    SameHeld(s, s', h);
  }

  lemma StepHonest(s: State, a: Action, h: nat)
    requires OneOwner(s)
    ensures Honest(s, Step(s, a), h)
  {
    hide OneOwner, Honest, Advance, TryAcquire, BeginRowsClose;
    match a
    case Go(t, ok) => if t < |s.at| { AdvanceHonest(s, t, ok, h); } else { Still(s, s, h); }
    case StartOp(t, k, query) =>
      if t < |s.at| && s.at[t].Idle? && k < |s.stmts| && CanBegin(s.stmts[k]) {
        AcquireHonest(s, t, Began(k, query), Idle, h);
      } else {
        Still(s, s, h);
      }
    case StartOther(t, query) =>
      if t < |s.at| && s.at[t].Idle? { AcquireHonest(s, t, Busy(query), Idle, h); } else { Still(s, s, h); }
    case CloseRows(t, r) =>
      if t < |s.at| && s.at[t].Idle? && r < |s.rows| { RowsCloseHonest(s, t, r, h); } else { Still(s, s, h); }
    case StartClose(t, k) => Still(s, Step(s, a), h);
    case CloseConn => Still(s, Step(s, a), h);
    case Die => Still(s, Step(s, a), h);
  }

  lemma StepBalanced(s: State, a: Action, h: nat)
    requires OneOwner(s) && Balanced(s, h)
    ensures Balanced(Step(s, a), h)
  {
    CountStep(s, a, Acquire(h));
    CountStep(s, a, Release(h));
    StepHonest(s, a, h);
    hide Step, Held, OneOwner;
    if x :| News(s, Step(s, a)) == [Acquire(x)] { StepHonest(s, a, x); }
  }

  /**
    * In every interleaving, with result sets closed by anyone and any number of times, each acquire is released exactly
    * once, except for the one that is still held.
    */
  lemma {:induction false} ReleasedExactlyOnce(k: nat, n: nat, actions: seq<Action>, h: nat)
    ensures Balanced(Run(Start(k, n), actions), h)
  {
    if actions != [] {
      ReleasedExactlyOnce(k, n, actions[..|actions| - 1], h);
      AtMostOneOwner(k, n, actions[..|actions| - 1]);
      hide Step, Balanced, OneOwner;
      StepBalanced(Run(Start(k, n), actions[..|actions| - 1]), actions[|actions| - 1], h);
    }
  }

  /**
    * An open result set keeps the connection from everyone else; it is given back once, and only after the first
    * Rows.Close. A later Rows.Close gives back nothing, so it cannot free a connection that someone else holds by then.
    */
  lemma FirstCloseReleases(k: nat, n: nat, actions: seq<Action>, r: nat, t: nat)
    requires r < |Run(Start(k, n), actions).rows|
    ensures var s := Run(Start(k, n), actions);
            && Count(s.log, Release(s.rows[r].hold)) <= 1
            && (!s.rows[r].closed ==> !CanAcquire(s.conn) && Count(s.log, Release(s.rows[r].hold)) == 0)
            && (s.rows[r].closed ==> Step(s, CloseRows(t, r)) == s)
            && (!CanAcquire(s.conn) ==> !CanAcquire(Step(s, CloseRows(t, r)).conn))
  {
    var s := Run(Start(k, n), actions);
    ReleasedExactlyOnce(k, n, actions, s.rows[r].hold);
    AtMostOneOwner(k, n, actions);
    hide Run, Start, Count;
    if !s.rows[r].closed {
      assert Holds(s, ByRows(r)) && HoldOf(s, ByRows(r)) == s.rows[r].hold;
    }
  }

  // ---- No acquire after the connection was closed ----

  predicate NoneAfter(log: seq<Event>, first: Event, later: Event) {
    forall i, j | 0 <= i < j < |log| :: !(log[i] == first && log[j] == later)
  }

  predicate ShutTight(s: State, h: nat) {
    NoneAfter(s.log, Event.Dropped, Acquire(h)) && (Event.Dropped in s.log ==> !s.conn.session)
  }

  lemma StepShut(s: State, a: Action, h: nat)
    requires ShutTight(s, h)
    ensures ShutTight(Step(s, a), h)
  {
    OneEvent(s, a);
    var s' := Step(s, a);
    NoReopen(s, a, h);
    hide Step;
    if s'.log != s.log { LogGrows(s.log, s'.log, Event.Dropped, Acquire(h)); }
  }

  lemma NoReopen(s: State, a: Action, h: nat)
    ensures !s.conn.session ==> !Step(s, a).conn.session
    ensures News(s, Step(s, a)) == [Acquire(h)] ==> s.conn.session
    ensures News(s, Step(s, a)) == [Event.Dropped] ==> !Step(s, a).conn.session
  {
    hide Marked, Deferred, OwesClose, CloseAsked, Advance;
    if a.Go? && a.t < |s.at| { AdvanceNoReopen(s, a.t, a.ok, h); }
  }

  lemma AdvanceNoReopen(s: State, t: nat, ok: bool, h: nat)
    requires t < |s.at|
    ensures !s.conn.session ==> !Advance(s, t, ok).conn.session
    ensures News(s, Advance(s, t, ok)) == [Acquire(h)] ==> s.conn.session
    ensures News(s, Advance(s, t, ok)) != [Event.Dropped]
  {
    if Settles(s, t, ok) {
      Settled(s, t, ok);
      hide Advance;
    }
  }

  lemma LogGrows(log: seq<Event>, log': seq<Event>, first: Event, later: Event)
    requires |log'| == |log| + 1 && log'[..|log|] == log && NoneAfter(log, first, later)
    requires log'[|log|] == later ==> first !in log
    ensures NoneAfter(log', first, later)
    ensures first in log' ==> first in log || log'[|log|] == first
  {
    forall i, j | 0 <= i < j < |log'|
      ensures !(log'[i] == first && log'[j] == later)
    {
      assert log'[i] == log'[..|log|][i];
      if j < |log| { assert log'[j] == log'[..|log|][j]; }
    }
    assert log' == log'[..|log|] + [log'[|log|]];
  }

  /** Once the connection is closed no acquire succeeds. */
  lemma {:induction false} NoAcquireAfterClose(k: nat, n: nat, actions: seq<Action>, h: nat)
    ensures ShutTight(Run(Start(k, n), actions), h)
  {
    if actions != [] {
      NoAcquireAfterClose(k, n, actions[..|actions| - 1], h);
      hide Step, ShutTight;
      StepShut(Run(Start(k, n), actions[..|actions| - 1]), actions[|actions| - 1], h);
    }
  }
}
