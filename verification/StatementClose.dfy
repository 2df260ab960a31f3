/**
  * Closing a prepared statement while it is in use: what every interleaving keeps, and where the deferral can be lost.
  */
module StatementClose {
  import opened Sections
  import opened Ownership

  // ---- Places of interest ----

  /** An operation of statement `k` that has not yet looked for a deferred close. */
  predicate Before(p: Place, k: nat) {
    (p.Began? && p.k == k) || p == Ran(k)
  }

  /** A goroutine that is still to look for a deferred close of `k`, or an open result set whose close callback will. */
  predicate Unlooked(s: State, o: Holder, k: nat) {
    match o
    case ByGoroutine(t) => t < |s.at| && Before(s.at[t], k)
    case ByRows(r) => r < |s.rows| && Reads(s.rows[r], k)
  }

  predicate Reads(q: ResultSet, k: nat) { !q.closed && q.of == Prepared(k) }

  /** A Close call for statement `k` that has not sent anything yet. */
  predicate Closing(p: Place, k: nat) {
    p == CloseTrying(k) || p == CloseDeferring(k) || p == CloseSending(k)
  }

  predicate OwnerCloses(p: Place, k: nat) { p == Sending(k) || p == Marking(k) }

  /** A Close call for statement `k` that is under way. */
  predicate Calls(p: Place, k: nat) { Closing(p, k) || p == CloseMarking(k) }

  /** Whoever is about to close statement `k` has marked it closed. */
  predicate MarkedFirst(s: State, k: nat) {
    && k < |s.stmts| && Sane(s.stmts[k])
    && forall t | 0 <= t < |s.at| && (Calls(s.at[t], k) || OwnerCloses(s.at[t], k)) :: s.stmts[k].closed
  }

  // ---- No execution after COMMAND_CLOSE ----

  predicate WasSent(log: seq<Event>, k: nat) { CloseSent(k, true) in log || CloseSent(k, false) in log }

  predicate NoExecution(log: seq<Event>, k: nat) {
    NoneAfter(log, CloseSent(k, true), Execute(k)) && NoneAfter(log, CloseSent(k, false), Execute(k))
  }

  ghost predicate Safe(s: State, k: nat) {
    && OneOwner(s) && MarkedFirst(s, k) && NoExecution(s.log, k)
    && (WasSent(s.log, k) ==> s.stmts[k].closed && forall t | 0 <= t < |s.at| :: !(s.at[t].Began? && s.at[t].k == k))
    && forall o | Unlooked(s, o, k) :: !s.stmts[k].sent
  }

  lemma StepMarked(s: State, a: Action, k: nat)
    requires MarkedFirst(s, k)
    ensures MarkedFirst(Step(s, a), k) && (s.stmts[k].closed ==> Step(s, a).stmts[k].closed)
  {
    if a.Go? && a.t < |s.at| {
      AdvanceMarked(s, a.t, a.ok, k);
    } else if a.StartClose? {
      hide OneOwner;
    } else {
      hide Advance, BeginClose;
    }
  }

  /** A section of goroutine `t` moves no other goroutine and touches no result set there is. */
  lemma OnlyMoves(s: State, t: nat, ok: bool)
    requires t < |s.at|
    ensures var s' := Advance(s, t, ok);
            && s'.at == s.at[t := s'.at[t]] && |s'.rows| >= |s.rows| && s'.rows[..|s.rows|] == s.rows
            && forall u | u != t :: Mine(s', u) == Mine(s, u)
  {
    hide Marked, Deferred, OwesClose, Usable, CanAcquire;
    if Settles(s, t, ok) {
      Settled(s, t, ok);
      hide Advance;
    }
  }

  lemma NextPlace(s: State, t: nat, ok: bool)
    requires t < |s.at|
    ensures var s' := Advance(s, t, ok);
            |s'.at| == |s.at| && !s'.at[t].Began? && (s'.at[t].Sending? ==> s.at[t] == Ran(s'.at[t].k))
  {
    hide Marked, Deferred, OwesClose, Usable, CanAcquire;
  }

  lemma AdvanceMarked(s: State, t: nat, ok: bool, k: nat)
    requires MarkedFirst(s, k) && t < |s.at|
    ensures MarkedFirst(Advance(s, t, ok), k) && (s.stmts[k].closed ==> Advance(s, t, ok).stmts[k].closed)
  {
    if !s.at[t].Marking? && !s.at[t].CloseMarking? && !s.at[t].CloseDeferring? {
      OnlyMoves(s, t, ok);
      NoSideEntry(s, t, ok, k);
      hide Advance, Sane;
    }
  }

  lemma NoSideEntry(s: State, t: nat, ok: bool, k: nat)
    requires MarkedFirst(s, k) && t < |s.at| && !s.at[t].Marking? && !s.at[t].CloseMarking? && !s.at[t].CloseDeferring?
    ensures var s' := Advance(s, t, ok);
            && s'.stmts == s.stmts && |s'.at| == |s.at|
            && (Calls(s'.at[t], k) || OwnerCloses(s'.at[t], k) ==> s.stmts[k].closed)
  {
    hide CanAcquire, Usable, Sane;
  }

  /** Who can have caused the new event. */
  lemma Cause(s: State, a: Action, k: nat, deferred: bool)
    ensures News(s, Step(s, a)) == [Execute(k)] ==> a.Go? && a.t < |s.at| && s.at[a.t].Began? && s.at[a.t].k == k
    ensures News(s, Step(s, a)) == [CloseSent(k, deferred)] ==>
              && a.Go? && a.t < |s.at| && s.at[a.t] == (if deferred then Sending(k) else CloseSending(k))
              && a.ok && Usable(s.conn)
              && Step(s, a) == Move(s, a.t, if deferred then Marking(k) else CloseMarking(k), [CloseSent(k, deferred)])
  {
    if a.Go? && a.t < |s.at| {
      AdvanceCause(s, a.t, a.ok, k, deferred);
      hide Advance;
    } else {
      hide Advance;
    }
  }

  lemma AdvanceCause(s: State, t: nat, ok: bool, k: nat, deferred: bool)
    requires t < |s.at|
    ensures News(s, Advance(s, t, ok)) == [Execute(k)] ==> s.at[t].Began? && s.at[t].k == k
    ensures News(s, Advance(s, t, ok)) == [CloseSent(k, deferred)] ==>
              && s.at[t] == (if deferred then Sending(k) else CloseSending(k)) && ok && Usable(s.conn)
              && Advance(s, t, ok) ==
                 Move(s, t, if deferred then Marking(k) else CloseMarking(k), [CloseSent(k, deferred)])
  {
    hide Marked, Deferred, OwesClose, CloseAsked, CanAcquire;
  }

  /** A statement that is closed lets no operation begin; an operation may hand the connection to its result set. */
  lemma NoNewOperation(s: State, a: Action, k: nat, o: Holder)
    requires k < |s.stmts| && s.stmts[k].closed && Unlooked(Step(s, a), o, k)
    ensures exists p :: Unlooked(s, p, k)
  {
    if a.Go? && a.t < |s.at| {
      if s.at[a.t].Began? {
        assert Unlooked(s, ByGoroutine(a.t), k) || Unlooked(s, o, k);
      } else {
        AdvanceUnlooked(s, a.t, a.ok, k, o);
        assert Unlooked(s, o, k);
      }
    } else if a.CloseRows? && a.t < |s.at| && s.at[a.t].Idle? && a.r < |s.rows| {
      assert Unlooked(s, ByRows(a.r), k) || Unlooked(s, o, k);
    } else {
      hide Advance;
      assert Unlooked(s, o, k);
    }
  }

  lemma AdvanceUnlooked(s: State, t: nat, ok: bool, k: nat, o: Holder)
    requires t < |s.at| && !s.at[t].Began? && Unlooked(Advance(s, t, ok), o, k)
    ensures Unlooked(s, o, k)
  {
    hide Marked, Deferred, OwesClose, CanAcquire;
  }

  lemma NoNewBegin(s: State, a: Action, k: nat, t: nat)
    requires k < |s.stmts| && s.stmts[k].closed && t < |s.at|
    ensures |Step(s, a).at| == |s.at|
            && (Step(s, a).at[t].Began? && Step(s, a).at[t].k == k ==> s.at[t] == Step(s, a).at[t])
  {
    hide Marked, Deferred, OwesClose, CloseAsked;
    if a.Go? && a.t < |s.at| {
      OnlyMoves(s, a.t, a.ok);
      NextPlace(s, a.t, a.ok);
      hide Advance;
    } else {
      hide Advance;
    }
  }

  /** While an operation of `k` has yet to look, its command is not marked as sent. */
  lemma StillUnsent(s: State, a: Action, k: nat, o: Holder)
    requires Safe(s, k) && Unlooked(Step(s, a), o, k)
    ensures k < |Step(s, a).stmts| && !Step(s, a).stmts[k].sent
  {
    StepMarked(s, a, k);
    if s.stmts[k].sent {
      NoNewOperation(s, a, k, o);
    } else if Step(s, a).stmts[k].sent {
      OnlyMarking(s, a, k);
      assert Holds(s, ByGoroutine(a.t)) && Unlooked(s, o, k) && Holds(s, o);
    }
  }

  lemma OnlyMarking(s: State, a: Action, k: nat)
    requires MarkedFirst(s, k) && !s.stmts[k].sent && k < |Step(s, a).stmts| && Step(s, a).stmts[k].sent
    ensures a.Go? && a.t < |s.at| && (s.at[a.t] == Marking(k) || s.at[a.t] == CloseMarking(k))
    ensures Step(s, a) == Mark(s, a.t, k)
  {
  }

  lemma StepSafe(s: State, a: Action, k: nat)
    requires Safe(s, k)
    ensures Safe(Step(s, a), k)
  {
    StepOwner(s, a);
    StepMarked(s, a, k);
    SafeLog(s, a, k);
    forall o | Unlooked(Step(s, a), o, k)
      ensures !Step(s, a).stmts[k].sent
    {
      StillUnsent(s, a, k, o);
    }
    if WasSent(Step(s, a).log, k) { SentStops(s, a, k); }
    hide Step, OneOwner, MarkedFirst, NoExecution, WasSent, Unlooked;
  }

  lemma SafeLog(s: State, a: Action, k: nat)
    requires Safe(s, k)
    ensures NoExecution(Step(s, a).log, k)
  {
    var s' := Step(s, a);
    OneEvent(s, a);
    if s'.log != s.log {
      Cause(s, a, k, true);
      hide Step, OneOwner, MarkedFirst, NoneAfter, Unlooked;
      LogGrows(s.log, s'.log, CloseSent(k, true), Execute(k));
      LogGrows(s.log, s'.log, CloseSent(k, false), Execute(k));
    }
  }

  lemma SentStops(s: State, a: Action, k: nat)
    requires Safe(s, k) && WasSent(Step(s, a).log, k)
    ensures |Step(s, a).stmts| == |s.stmts| && Step(s, a).stmts[k].closed
    ensures forall t | 0 <= t < |Step(s, a).at| :: !(Step(s, a).at[t].Began? && Step(s, a).at[t].k == k)
  {
    var s' := Step(s, a);
    StepMarked(s, a, k);
    OneEvent(s, a);
    if WasSent(s.log, k) {
      forall t | 0 <= t < |s'.at|
        ensures !(s'.at[t].Began? && s'.at[t].k == k)
      {
        NoNewBegin(s, a, k, t);
      }
    } else {
      var b := CloseSent(k, true) in s'.log;
      NewEvent(s.log, s'.log, CloseSent(k, b));
      Cause(s, a, k, b);
      hide Step, NoExecution;
      SenderAlone(s, a.t, k);
    }
  }

  lemma SenderAlone(s: State, t: nat, k: nat)
    requires OneOwner(s) && t < |s.at| && Owns(s.at[t])
    ensures forall u | 0 <= u < |s.at| && u != t :: !Owns(s.at[u])
    ensures forall r | 0 <= r < |s.rows| :: s.rows[r].closed
  {
    assert Holds(s, ByGoroutine(t));
    forall u | 0 <= u < |s.at| && u != t
      ensures !Owns(s.at[u])
    {
      assert Holds(s, ByGoroutine(u)) == Owns(s.at[u]);
    }
    forall r | 0 <= r < |s.rows|
      ensures s.rows[r].closed
    {
      assert Holds(s, ByRows(r)) == !s.rows[r].closed;
    }
  }

  lemma NewEvent(log: seq<Event>, log': seq<Event>, e: Event)
    requires log' == log || (|log'| == |log| + 1 && log'[..|log|] == log)
    requires e in log' && e !in log
    ensures |log'| == |log| + 1 && log'[|log|] == e
  {
    assert log' == log'[..|log|] + log'[|log|..];
  }

  /** In every interleaving no execution of a command starts after its COMMAND_CLOSE was sent. */
  lemma {:induction false} NoExecuteAfterClose(m: nat, n: nat, actions: seq<Action>, k: nat)
    requires k < m
    ensures Safe(Run(Start(m, n), actions), k)
  {
    if actions != [] {
      NoExecuteAfterClose(m, n, actions[..|actions| - 1], k);
      hide Step, Safe;
      StepSafe(Run(Start(m, n), actions[..|actions| - 1]), actions[|actions| - 1], k);
    }
  }

  // ---- When COMMAND_CLOSE is sent at most once ----

  function Sends(log: seq<Event>, k: nat): nat { Count(log, CloseSent(k, true)) + Count(log, CloseSent(k, false)) }

  predicate Marks(p: Place, k: nat) { p == CloseMarking(k) || p == Marking(k) }

  /** A Close that acquired the connection sends without looking again whether the command was closed meanwhile. */
  predicate Repeats(s: State, a: Action, k: nat) {
    && a.Go? && a.t < |s.at| && s.at[a.t] == CloseSending(k) && a.ok && Usable(s.conn)
    && k < |s.stmts| && s.stmts[k].sent
  }

  ghost predicate NoneRepeats(s: State, actions: seq<Action>, k: nat) {
    forall i | 0 <= i < |actions| :: !Repeats(Run(s, actions[..i]), actions[i], k)
  }

  ghost predicate Settling(s: State, k: nat) { exists t :: 0 <= t < |s.at| && Marks(s.at[t], k) }

  /** A sent command is marked or about to be marked, and on a usable session nothing else is. */
  ghost predicate Accounted(s: State, k: nat) {
    && Safe(s, k)
    && (WasSent(s.log, k) ==> s.stmts[k].sent || Settling(s, k))
    && (Usable(s.conn) && (s.stmts[k].sent || Settling(s, k)) ==> WasSent(s.log, k))
    && forall t | 0 <= t < |s.at| && s.at[t] == Sending(k) :: !s.stmts[k].sent
  }

  predicate SendsNow(s: State, s': State, k: nat) {
    News(s, s') == [CloseSent(k, true)] || News(s, s') == [CloseSent(k, false)]
  }

  lemma {:induction false} CountIn(log: seq<Event>, e: Event)
    ensures e in log <==> Count(log, e) > 0
  {
    if log != [] {
      CountIn(log[..|log| - 1], e);
      assert log == log[..|log| - 1] + [log[|log| - 1]];
    }
  }

  lemma SentCounts(log: seq<Event>, k: nat)
    ensures WasSent(log, k) <==> Sends(log, k) > 0
  {
    CountIn(log, CloseSent(k, true));
    CountIn(log, CloseSent(k, false));
    hide Count;
  }

  lemma SendsStep(s: State, a: Action, k: nat)
    ensures Sends(Step(s, a).log, k) == Sends(s.log, k) + if SendsNow(s, Step(s, a), k) then 1 else 0
  {
    CountStep(s, a, CloseSent(k, true));
    CountStep(s, a, CloseSent(k, false));
    hide Step, Count;
  }

  // ---- What a step does to marks ----

  lemma UsableBefore(s: State, a: Action)
    requires Usable(Step(s, a).conn)
    ensures Usable(s.conn)
  {
    hide Marked, Deferred, OwesClose, CloseAsked;
  }

  lemma SentStays(s: State, a: Action, k: nat)
    requires k < |s.stmts| && s.stmts[k].sent
    ensures k < |Step(s, a).stmts| && Step(s, a).stmts[k].sent
  {
    hide CanAcquire, Usable, OwesClose;
    if a.Go? && a.t < |s.at| && !s.at[a.t].Marking? && !s.at[a.t].CloseMarking? && !s.at[a.t].CloseDeferring? {
      SameStmts(s, a.t, a.ok);
      hide Advance;
    }
  }

  lemma SameStmts(s: State, t: nat, ok: bool)
    requires t < |s.at| && !s.at[t].Marking? && !s.at[t].CloseMarking? && !s.at[t].CloseDeferring?
    ensures Advance(s, t, ok).stmts == s.stmts
  {
    hide CanAcquire, Usable, OwesClose;
  }

  /** A mark is made only after a send, or on a session that is gone. */
  lemma MarksFrom(s: State, a: Action, k: nat, t: nat)
    requires t < |Step(s, a).at| && Marks(Step(s, a).at[t], k)
    ensures t < |s.at| && (Marks(s.at[t], k) || SendsNow(s, Step(s, a), k) || !Usable(s.conn))
  {
    if a.Go? && a.t < |s.at| {
      OnlyMoves(s, a.t, a.ok);
      MarkedNext(s, a.t, a.ok, k);
      hide Advance;
    } else {
      hide Advance, Marked, Deferred, OwesClose, CloseAsked;
    }
  }

  lemma MarkedNext(s: State, t: nat, ok: bool, k: nat)
    requires t < |s.at|
    ensures var s' := Advance(s, t, ok);
            |s'.at| == |s.at| && (Marks(s'.at[t], k) ==> SendsNow(s, s', k) || !Usable(s.conn))
  {
    hide Marked, Deferred, OwesClose, CanAcquire, Usable;
    if !s.at[t].Sending? && !s.at[t].CloseSending? {
      hide SendClose, News;
    }
  }

  lemma MarksTo(s: State, a: Action, k: nat, t: nat)
    requires MarkedFirst(s, k) && t < |s.at| && Marks(s.at[t], k)
    ensures |Step(s, a).at| == |s.at| && |Step(s, a).stmts| == |s.stmts|
    ensures Marks(Step(s, a).at[t], k) || Step(s, a).stmts[k].sent
  {
    OneEvent(s, a);
    if !(a.Go? && a.t == t) {
      CarrierStays(s, a, ByGoroutine(t));
      hide Step;
    }
  }

  lemma SendingUnsent(s: State, a: Action, k: nat, t: nat)
    requires Accounted(s, k) && t < |Step(s, a).at| && Step(s, a).at[t] == Sending(k)
    ensures k < |Step(s, a).stmts| && !Step(s, a).stmts[k].sent
  {
    OneEvent(s, a);
    NoNewSender(s, a, k, t);
    assert !s.stmts[k].sent;
    if Step(s, a).stmts[k].sent {
      OnlyMarking(s, a, k);
      assert Holds(s, ByGoroutine(a.t)) && Holds(s, ByGoroutine(t));
    }
  }

  lemma SendSettles(s: State, a: Action, k: nat)
    requires SendsNow(s, Step(s, a), k)
    ensures WasSent(Step(s, a).log, k) && Settling(Step(s, a), k)
  {
    var s' := Step(s, a);
    OneEvent(s, a);
    var b := News(s, s') == [CloseSent(k, true)];
    Cause(s, a, k, b);
    hide Step;
    assert s'.log[|s.log|] == CloseSent(k, b);
    assert Marks(s'.at[a.t], k);
  }

  lemma StepSettled(s: State, a: Action, k: nat)
    requires Accounted(s, k) && WasSent(Step(s, a).log, k) && !SendsNow(s, Step(s, a), k)
    ensures k < |Step(s, a).stmts| && (Step(s, a).stmts[k].sent || Settling(Step(s, a), k))
  {
    SendsStep(s, a, k);
    SentCounts(s.log, k);
    SentCounts(Step(s, a).log, k);
    hide Sends, SendsNow, WasSent;
    if s.stmts[k].sent {
      SentStays(s, a, k);
    } else {
      var t :| 0 <= t < |s.at| && Marks(s.at[t], k);
      MarksTo(s, a, k, t);
      hide Step;
    }
  }

  lemma StepEarned(s: State, a: Action, k: nat)
    requires Accounted(s, k) && Usable(Step(s, a).conn) && k < |Step(s, a).stmts|
    requires Step(s, a).stmts[k].sent || Settling(Step(s, a), k)
    ensures WasSent(Step(s, a).log, k)
  {
    var s' := Step(s, a);
    UsableBefore(s, a);
    SendsStep(s, a, k);
    SentCounts(s.log, k);
    SentCounts(s'.log, k);
    if s'.stmts[k].sent {
      if !s.stmts[k].sent { OnlyMarking(s, a, k); }
    } else {
      var t :| 0 <= t < |s'.at| && Marks(s'.at[t], k);
      MarksFrom(s, a, k, t);
    }
    hide Step, Sends, SendsNow, WasSent, Safe;
  }

  lemma StepAccounted(s: State, a: Action, k: nat)
    requires Accounted(s, k)
    ensures Accounted(Step(s, a), k)
  {
    var s' := Step(s, a);
    OneEvent(s, a);
    StepSafe(s, a, k);
    if WasSent(s'.log, k) {
      if SendsNow(s, s', k) { SendSettles(s, a, k); } else { StepSettled(s, a, k); }
    }
    if Usable(s'.conn) && (s'.stmts[k].sent || Settling(s', k)) { StepEarned(s, a, k); }
    forall t | 0 <= t < |s'.at| && s'.at[t] == Sending(k)
      ensures !s'.stmts[k].sent
    {
      SendingUnsent(s, a, k, t);
    }
    hide Step, Safe, WasSent, Settling, SendsNow;
  }

  /** One step: a second send is exactly a repeated one. */
  lemma RepeatExact(s: State, a: Action, k: nat)
    requires Accounted(s, k)
    ensures Sends(Step(s, a).log, k) <= 1 <==> Sends(s.log, k) <= 1 && !Repeats(s, a, k)
  {
    var s' := Step(s, a);
    SendsStep(s, a, k);
    SentCounts(s.log, k);
    if Repeats(s, a, k) {
      RepeatSends(s, a, k);
      hide Step, Sends, WasSent, Safe;
    } else if SendsNow(s, s', k) {
      FirstSend(s, a, k);
      hide Step, Sends, WasSent, Safe;
    } else {
      hide Step, Sends, SendsNow, Repeats;
    }
  }

  lemma RepeatSends(s: State, a: Action, k: nat)
    requires Repeats(s, a, k)
    ensures SendsNow(s, Step(s, a), k)
  {
  }

  lemma FirstSend(s: State, a: Action, k: nat)
    requires Accounted(s, k) && SendsNow(s, Step(s, a), k) && !Repeats(s, a, k)
    ensures !WasSent(s.log, k)
  {
    var b := News(s, Step(s, a)) == [CloseSent(k, true)];
    Cause(s, a, k, b);
    assert Owns(s.at[a.t]);
    hide Step, SendsNow, WasSent, NoExecution;
    SenderAlone(s, a.t, k);
    assert !Settling(s, k);
  }

  /**
    * In every interleaving the statement's COMMAND_CLOSE is sent at most once if and only if no Close that got the
    * connection sends after the command was marked as closed.
    */
  lemma {:induction false} AtMostOneCommand(m: nat, n: nat, actions: seq<Action>, k: nat)
    requires k < m
    ensures Accounted(Run(Start(m, n), actions), k)
    ensures Sends(Run(Start(m, n), actions).log, k) <= 1 <==> NoneRepeats(Start(m, n), actions, k)
  {
    hide *;
    if actions == [] {
      NoExecuteAfterClose(m, n, actions, k);
      StartAccounted(m, n, k);
    } else {
      var init, a := actions[..|actions| - 1], actions[|actions| - 1];
      LastStep(Start(m, n), init, a, k);
      assert actions == init + [a];
      AtMostOneCommand(m, n, init, k);
      StepAccounted(Run(Start(m, n), init), a, k);
      RepeatExact(Run(Start(m, n), init), a, k);
    }
  }

  lemma StartAccounted(m: nat, n: nat, k: nat)
    requires k < m && Safe(Run(Start(m, n), []), k)
    ensures Accounted(Run(Start(m, n), []), k) && Sends(Run(Start(m, n), []).log, k) == 0
    ensures NoneRepeats(Start(m, n), [], k)
  {
    hide Safe;
  }

  // ---- What a caller can see to ----

  predicate StartsClose(s: State, a: Action, k: nat) {
    a.StartClose? && a.k == k && a.t < |s.at| && s.at[a.t].Idle? && k < |s.stmts| && !NothingToClose(s.stmts[k])
  }

  /**
    * Unless nothing is left to close, no other Close of `k` is under way, no owner is sending one, and nobody is left
    * who would find a deferred one.
    */
  ghost predicate Orderly(s: State, a: Action, k: nat) {
    StartsClose(s, a, k) ==>
      && (forall u | 0 <= u < |s.at| :: !Calls(s.at[u], k) && !OwnerCloses(s.at[u], k))
      && (s.stmts[k].pending ==> forall o :: !Unlooked(s, o, k))
  }

  /** A Close under way is the only one who can send. */
  ghost predicate Alone(s: State, k: nat) {
    && k < |s.stmts|
    && (forall t, u | 0 <= t < |s.at| && 0 <= u < |s.at| && Calls(s.at[t], k) && Calls(s.at[u], k) :: t == u)
    && forall t | 0 <= t < |s.at| && Calls(s.at[t], k) :: Exclusive(s, k)
  }

  ghost predicate Exclusive(s: State, k: nat)
    requires k < |s.stmts|
  {
    && !s.stmts[k].sent && (forall u | 0 <= u < |s.at| :: !OwnerCloses(s.at[u], k))
    && (s.stmts[k].pending ==> forall o :: !Unlooked(s, o, k))
  }

  lemma CallsFrom(s: State, a: Action, k: nat, t: nat)
    requires t < |Step(s, a).at| && Calls(Step(s, a).at[t], k)
    ensures t < |s.at| && (Calls(s.at[t], k) || (StartsClose(s, a, k) && t == a.t))
  {
    if a.Go? && a.t < |s.at| {
      OnlyMoves(s, a.t, a.ok);
      CallsNext(s, a.t, a.ok, k);
      hide Advance;
    } else {
      hide Advance, Marked, Deferred, OwesClose;
    }
  }

  lemma CallsNext(s: State, t: nat, ok: bool, k: nat)
    requires t < |s.at|
    ensures var s' := Advance(s, t, ok);
            |s'.at| == |s.at| && (Calls(s'.at[t], k) ==> Calls(s.at[t], k))
  {
    hide Marked, Deferred, OwesClose, Usable, CanAcquire;
  }

  lemma OwnerFrom(s: State, a: Action, k: nat, u: nat)
    requires k < |s.stmts| && u < |Step(s, a).at| && OwnerCloses(Step(s, a).at[u], k)
    ensures u < |s.at| && (OwnerCloses(s.at[u], k) || (s.stmts[k].pending && Unlooked(s, ByGoroutine(u), k)))
  {
    if a.Go? && a.t < |s.at| {
      OnlyMoves(s, a.t, a.ok);
      OwnerNext(s, a.t, a.ok, k);
      hide Advance;
    } else {
      hide Advance, Marked, Deferred, CloseAsked;
    }
  }

  lemma OwnerNext(s: State, t: nat, ok: bool, k: nat)
    requires t < |s.at| && k < |s.stmts|
    ensures var s' := Advance(s, t, ok);
            && |s'.at| == |s.at|
            && (OwnerCloses(s'.at[t], k) ==>
                OwnerCloses(s.at[t], k) || (s.stmts[k].pending && Unlooked(s, ByGoroutine(t), k)))
  {
    hide Marked, Deferred, Usable, CanAcquire;
  }

  lemma PendingFrom(s: State, a: Action, k: nat)
    requires k < |s.stmts| && k < |Step(s, a).stmts| && Step(s, a).stmts[k].pending && !s.stmts[k].pending
    ensures a.Go? && a.t < |s.at| && s.at[a.t] == CloseDeferring(k) && Step(s, a).at == s.at[a.t := Idle]
  {
  }

  /** While one Close is under way and goes on, it stays the only one who can send. */
  lemma StaysExclusive(s: State, a: Action, k: nat, t: nat)
    requires Safe(s, k) && Alone(s, k) && t < |s.at| && Calls(s.at[t], k)
    requires t < |Step(s, a).at| && Calls(Step(s, a).at[t], k)
    ensures k < |Step(s, a).stmts| && Exclusive(Step(s, a), k)
  {
    var s' := Step(s, a);
    OneEvent(s, a);
    if s'.stmts[k].sent { OnlyMarking(s, a, k); }
    forall u | 0 <= u < |s'.at|
      ensures !OwnerCloses(s'.at[u], k)
    {
      if OwnerCloses(s'.at[u], k) { OwnerFrom(s, a, k, u); }
    }
    if s'.stmts[k].pending {
      if !s.stmts[k].pending { PendingFrom(s, a, k); }
      forall o
        ensures !Unlooked(s', o, k)
      {
        if Unlooked(s', o, k) { NoNewOperation(s, a, k, o); }
      }
    }
    hide Step, Unlooked, NoExecution, WasSent, OneOwner;
  }

  lemma StartExclusive(s: State, a: Action, k: nat)
    requires MarkedFirst(s, k) && StartsClose(s, a, k) && Orderly(s, a, k)
    ensures k < |Step(s, a).stmts| && Exclusive(Step(s, a), k)
  {
    var s' := Step(s, a);
    assert s'.at == s.at[a.t := CloseTrying(k)] && s'.rows == s.rows && s'.stmts[k] == CloseAsked(s.stmts[k]);
    forall o | Unlooked(s', o, k)
      ensures Unlooked(s, o, k)
    {
    }
  }

  lemma StepAlone(s: State, a: Action, k: nat)
    requires Safe(s, k) && Alone(s, k) && Orderly(s, a, k)
    ensures Alone(Step(s, a), k)
  {
    var s' := Step(s, a);
    OneEvent(s, a);
    forall t | 0 <= t < |s'.at| && Calls(s'.at[t], k)
      ensures Exclusive(s', k)
      ensures Calls(s.at[t], k) || (StartsClose(s, a, k) && t == a.t)
    {
      CallsFrom(s, a, k, t);
      if StartsClose(s, a, k) { StartExclusive(s, a, k); } else { StaysExclusive(s, a, k, t); }
    }
    hide Step, Safe, Exclusive, StartsClose, Unlooked;
  }

  ghost predicate AllOrderly(s: State, actions: seq<Action>, k: nat) {
    forall i | 0 <= i < |actions| :: Orderly(Run(s, actions[..i]), actions[i], k)
  }

  lemma {:induction false} OrderlyRun(m: nat, n: nat, actions: seq<Action>, k: nat)
    requires k < m && AllOrderly(Start(m, n), actions, k)
    ensures Alone(Run(Start(m, n), actions), k) && NoneRepeats(Start(m, n), actions, k)
  {
    hide *;
    if actions == [] {
      StartAlone(m, n, k);
    } else {
      var init, a := actions[..|actions| - 1], actions[|actions| - 1];
      LastStep(Start(m, n), init, a, k);
      assert actions == init + [a];
      OrderlyRun(m, n, init, k);
      NoExecuteAfterClose(m, n, init, k);
      StepAlone(Run(Start(m, n), init), a, k);
      NoRepeat(Run(Start(m, n), init), a, k);
    }
  }

  lemma StartAlone(m: nat, n: nat, k: nat)
    requires k < m
    ensures Run(Start(m, n), []) == Start(m, n) && Alone(Start(m, n), k) && NoneRepeats(Start(m, n), [], k)
  {
  }

  lemma LastStep(s: State, init: seq<Action>, a: Action, k: nat)
    ensures Run(s, init + [a]) == Step(Run(s, init), a)
    ensures AllOrderly(s, init + [a], k) <==> AllOrderly(s, init, k) && Orderly(Run(s, init), a, k)
    ensures NoneRepeats(s, init + [a], k) <==> NoneRepeats(s, init, k) && !Repeats(Run(s, init), a, k)
  {
    hide Run, Step, Orderly, Repeats;
    RunSnoc(s, init, a);
    var actions := init + [a];
    assert actions[..|init|] == init && actions[|init|] == a;
    assert forall i | 0 <= i < |init| :: init[..i] == actions[..i] && init[i] == actions[i];
  }

  lemma RunSnoc(s: State, init: seq<Action>, a: Action)
    ensures Run(s, init + [a]) == Step(Run(s, init), a)
  {
    hide Step;
    assert (init + [a])[..|init|] == init;
  }

  lemma NoRepeat(s: State, a: Action, k: nat)
    requires Alone(s, k)
    ensures !Repeats(s, a, k)
  {
    if Repeats(s, a, k) { assert Calls(s.at[a.t], k); }
  }

  /**
    * In every interleaving, with any number of Close calls of which each that has something to do starts with no other
    * one under way and none deferred that somebody would still send, COMMAND_CLOSE is sent at most once.
    */
  lemma OneCloseOneCommand(m: nat, n: nat, actions: seq<Action>, k: nat)
    requires k < m && AllOrderly(Start(m, n), actions, k)
    ensures Sends(Run(Start(m, n), actions).log, k) <= 1
  {
    hide *;
    OrderlyRun(m, n, actions, k);
    AtMostOneCommand(m, n, actions, k);
  }

  // ---- Without that care the command can be sent twice ----

  const LIVE := ConnView(true, false, false)
  const OWNED := ConnView(true, false, true)

  const ASKED := StmtView(true, false, false, true, true)
  const SENT := StmtView(true, false, true, false, false)
  const OWED := StmtView(true, true, false, true, true)

  /** A state with one statement, two goroutines and no result set. */
  function Pair(conn: ConnView, v: StmtView, p: Place, q: Place, mine: map<nat, nat>, next: nat,
                log: seq<Event>): State {
    State(conn, [v], [p, q], mine, [], next, log)
  }

  lemma {:induction false} RunSplit(s: State, a: seq<Action>, b: seq<Action>)
    ensures Run(s, a + b) == Run(Run(s, a), b)
  {
    if b == [] {
      assert a + b == a;
    } else {
      var init := b[..|b| - 1];
      assert (a + b)[..|a + b| - 1] == a + init;
      RunSplit(s, a, init);
      hide Step;
    }
  }

  lemma RunTwo(s: State, a: Action, b: Action)
    ensures Run(s, [a, b]) == Step(Step(s, a), b)
  {
    hide Step;
    assert [a, b][..1] == [a] && [a][..0] == [];
    assert Run(s, [a]) == Step(Run(s, []), a);
  }

  const BOTH_ASK: seq<Action> := [StartClose(0, 0), StartClose(1, 0)]
  const FIRST_GOES: seq<Action> := [Go(0, true), Go(0, true)]
  const SECOND_GOES: seq<Action> := [Go(1, true), Go(1, true)]

  /** The second goroutine's Close passed the first check; it sends as soon as the connection is free. */
  lemma SecondSends(s: State)
    requires s.conn == LIVE && |s.at| == 2 && s.at[1] == CloseTrying(0)
    ensures Run(s, SECOND_GOES).log == s.log + [Acquire(s.next), CloseSent(0, false)]
  {
    var s1 := Step(s, Go(1, true));
    assert s1.conn == OWNED && s1.at[1] == CloseSending(0) && s1.log == s.log + [Acquire(s.next)];
    assert Step(s1, Go(1, true)).log == s1.log + [CloseSent(0, false)];
    RunTwo(s, Go(1, true), Go(1, true));
  }

  /** Two Close calls that overlap both send COMMAND_CLOSE. */
  lemma TwoClosesSendTwice()
    ensures Run(Start(1, 2), BOTH_ASK + (FIRST_GOES + (FIRST_GOES + SECOND_GOES))).log ==
            [CloseCalled(0), CloseCalled(0), Acquire(0), CloseSent(0, false), Release(0), Acquire(1),
             CloseSent(0, false)]
  {
    var s1 := Pair(LIVE, ASKED, CloseTrying(0), CloseTrying(0), map[], 0, [CloseCalled(0), CloseCalled(0)]);
    var s2 := Pair(OWNED, ASKED, CloseMarking(0), CloseTrying(0), map[0 := 0], 1,
                   s1.log + [Acquire(0), CloseSent(0, false)]);
    var s3 := Pair(LIVE, SENT, Idle, CloseTrying(0), map[0 := 0], 1, s2.log + [Release(0)]);
    BothAsk();
    FirstSends(s1.log);
    FirstLeaves(s2.log, false);
    SecondSends(s3);
    hide *;
    RunSplit(Start(1, 2), BOTH_ASK, FIRST_GOES + (FIRST_GOES + SECOND_GOES));
    RunSplit(s1, FIRST_GOES, FIRST_GOES + SECOND_GOES);
    RunSplit(s2, FIRST_GOES, SECOND_GOES);
  }

  lemma BothAsk()
    ensures Run(Start(1, 2), BOTH_ASK) ==
            Pair(LIVE, ASKED, CloseTrying(0), CloseTrying(0), map[], 0, [CloseCalled(0), CloseCalled(0)])
  {
    var s0 := Pair(LIVE, FRESH, Idle, Idle, map[], 0, []);
    assert Start(1, 2) == s0;
    assert Step(s0, StartClose(0, 0)) == Pair(LIVE, ASKED, CloseTrying(0), Idle, map[], 0, [CloseCalled(0)]);
    RunTwo(s0, StartClose(0, 0), StartClose(1, 0));
  }

  lemma FirstSends(log: seq<Event>)
    ensures Run(Pair(LIVE, ASKED, CloseTrying(0), CloseTrying(0), map[], 0, log), FIRST_GOES) ==
            Pair(OWNED, ASKED, CloseMarking(0), CloseTrying(0), map[0 := 0], 1, log + [Acquire(0), CloseSent(0, false)])
  {
    var s := Pair(LIVE, ASKED, CloseTrying(0), CloseTrying(0), map[], 0, log);
    assert Step(s, Go(0, true)) ==
           Pair(OWNED, ASKED, CloseSending(0), CloseTrying(0), map[0 := 0], 1, log + [Acquire(0)]);
    RunTwo(s, Go(0, true), Go(0, true));
  }

  lemma FirstLeaves(log: seq<Event>, owner: bool)
    ensures Run(Pair(OWNED, if owner then OWED else ASKED, if owner then Marking(0) else CloseMarking(0),
                     CloseTrying(0), map[0 := 0], 1, log), FIRST_GOES) ==
            Pair(LIVE, SENT, Idle, CloseTrying(0), map[0 := 0], 1, log + [Release(0)])
  {
    var s := Pair(OWNED, if owner then OWED else ASKED, if owner then Marking(0) else CloseMarking(0), CloseTrying(0),
                  map[0 := 0], 1, log);
    assert Step(s, Go(0, true)) == Pair(OWNED, SENT, Leaving, CloseTrying(0), map[0 := 0], 1, log);
    RunTwo(s, Go(0, true), Go(0, true));
  }

  const OP_AND_CLOSE: seq<Action> := [StartOp(0, 0, false), StartClose(1, 0)]
  const CLOSE_AGAIN: seq<Action> := [StartClose(1, 0), Go(0, true)]

  /** A second Close after the first returned with the command still owed: the owner sends it, and then Close again. */
  lemma DeferredThenClosedAgain()
    ensures Run(Start(1, 2),
                OP_AND_CLOSE + (SECOND_GOES + (CLOSE_AGAIN + (FIRST_GOES + (FIRST_GOES + SECOND_GOES))))).log ==
            [Acquire(0), CloseCalled(0), CloseCalled(0), Execute(0), CloseSent(0, true), Release(0), Acquire(1),
             CloseSent(0, false)]
  {
    var log := [Acquire(0), CloseCalled(0), CloseCalled(0), Execute(0)];
    var s1 := Pair(OWNED, ASKED, Began(0, false), CloseTrying(0), map[0 := 0], 1, [Acquire(0), CloseCalled(0)]);
    var s2 := Pair(OWNED, OWED, Began(0, false), Idle, map[0 := 0], 1, [Acquire(0), CloseCalled(0)]);
    var s3 := Pair(OWNED, OWED, Ran(0), CloseTrying(0), map[0 := 0], 1, log);
    var s4 := Pair(OWNED, OWED, Marking(0), CloseTrying(0), map[0 := 0], 1, log + [CloseSent(0, true)]);
    var s5 := Pair(LIVE, SENT, Idle, CloseTrying(0), map[0 := 0], 1, log + [CloseSent(0, true)] + [Release(0)]);
    OpAndClose();
    CloseDefers();
    CloseAgain();
    OwnerSends(log);
    FirstLeaves(s4.log, true);
    SecondSends(s5);
    hide *;
    RunSplit(Start(1, 2), OP_AND_CLOSE, SECOND_GOES + (CLOSE_AGAIN + (FIRST_GOES + (FIRST_GOES + SECOND_GOES))));
    RunSplit(s1, SECOND_GOES, CLOSE_AGAIN + (FIRST_GOES + (FIRST_GOES + SECOND_GOES)));
    RunSplit(s2, CLOSE_AGAIN, FIRST_GOES + (FIRST_GOES + SECOND_GOES));
    RunSplit(s3, FIRST_GOES, FIRST_GOES + SECOND_GOES);
    RunSplit(s4, FIRST_GOES, SECOND_GOES);
  }

  lemma OpAndClose()
    ensures Run(Start(1, 2), OP_AND_CLOSE) ==
            Pair(OWNED, ASKED, Began(0, false), CloseTrying(0), map[0 := 0], 1, [Acquire(0), CloseCalled(0)])
  {
    var s0 := Pair(LIVE, FRESH, Idle, Idle, map[], 0, []);
    assert Start(1, 2) == s0;
    assert Step(s0, StartOp(0, 0, false)) == Pair(OWNED, FRESH, Began(0, false), Idle, map[0 := 0], 1, [Acquire(0)]);
    RunTwo(s0, StartOp(0, 0, false), StartClose(1, 0));
  }

  lemma CloseDefers()
    ensures Run(Pair(OWNED, ASKED, Began(0, false), CloseTrying(0), map[0 := 0], 1, [Acquire(0), CloseCalled(0)]),
                SECOND_GOES) ==
            Pair(OWNED, OWED, Began(0, false), Idle, map[0 := 0], 1, [Acquire(0), CloseCalled(0)])
  {
    var s := Pair(OWNED, ASKED, Began(0, false), CloseTrying(0), map[0 := 0], 1, [Acquire(0), CloseCalled(0)]);
    assert Step(s, Go(1, true)) == s.(at := [Began(0, false), CloseDeferring(0)]);
    RunTwo(s, Go(1, true), Go(1, true));
  }

  lemma CloseAgain()
    ensures Run(Pair(OWNED, OWED, Began(0, false), Idle, map[0 := 0], 1, [Acquire(0), CloseCalled(0)]), CLOSE_AGAIN) ==
            Pair(OWNED, OWED, Ran(0), CloseTrying(0), map[0 := 0], 1,
                 [Acquire(0), CloseCalled(0), CloseCalled(0), Execute(0)])
  {
    var s := Pair(OWNED, OWED, Began(0, false), Idle, map[0 := 0], 1, [Acquire(0), CloseCalled(0)]);
    assert Step(s, StartClose(1, 0)) ==
           Pair(OWNED, OWED, Began(0, false), CloseTrying(0), map[0 := 0], 1,
                [Acquire(0), CloseCalled(0), CloseCalled(0)]);
    RunTwo(s, StartClose(1, 0), Go(0, true));
  }

  lemma OwnerSends(log: seq<Event>)
    ensures Run(Pair(OWNED, OWED, Ran(0), CloseTrying(0), map[0 := 0], 1, log), FIRST_GOES) ==
            Pair(OWNED, OWED, Marking(0), CloseTrying(0), map[0 := 0], 1, log + [CloseSent(0, true)])
  {
    var s := Pair(OWNED, OWED, Ran(0), CloseTrying(0), map[0 := 0], 1, log);
    assert Step(s, Go(0, true)) == Pair(OWNED, OWED, Sending(0), CloseTrying(0), map[0 := 0], 1, log);
    RunTwo(s, Go(0, true), Go(0, true));
  }

  // ---- When a deferred close is sent ----

  /**
    * The session stays, and an owner that sends the deferred COMMAND_CLOSE of `k` gets it out. Anything else may fail.
    */
  predicate Mild(s: State, a: Action, k: nat) {
    !a.CloseConn? && !a.Die? && (a.Go? && a.t < |s.at| && s.at[a.t] == Sending(k) ==> a.ok)
  }

  ghost predicate AllMild(s: State, actions: seq<Action>, k: nat) {
    forall i | 0 <= i < |actions| :: Mild(Run(s, actions[..i]), actions[i], k)
  }

  /** The deferred COMMAND_CLOSE of `k` was sent by an owner at or after position `from`. */
  predicate SentSince(log: seq<Event>, from: nat, k: nat) {
    exists i :: from <= i < |log| && log[i] == CloseSent(k, true)
  }

  /** Holder `o` is sure to send it: it is about to, or it has yet to look and will find it. */
  predicate Carries(s: State, o: Holder, k: nat) {
    && k < |s.stmts|
    && ((Unlooked(s, o, k) && OwesClose(s.stmts[k])) || (o.ByGoroutine? && o.t < |s.at| && s.at[o.t] == Sending(k)))
  }

  /** Hold `h` is not given back before the deferred close was sent. */
  predicate SentFirst(log: seq<Event>, from: nat, k: nat, h: nat) {
    forall j | from <= j < |log| && log[j] == Release(h) :: SentSince(log[..j], from, k)
  }

  ghost predicate Duty(s: State, from: nat, k: nat, h: nat) {
    && Usable(s.conn) && from <= |s.log| && SentFirst(s.log, from, k, h)
    && (SentSince(s.log, from, k) || exists o :: Carries(s, o, k) && Holds(s, o) && HoldOf(s, o) == h)
  }

  lemma StaysUsable(s: State, a: Action, k: nat)
    requires Usable(s.conn) && Mild(s, a, k)
    ensures Usable(Step(s, a).conn)
  {
    hide Marked, Deferred, OwesClose, CloseAsked;
  }

  /** Only whoever leaves gives the connection back. */
  lemma ReleaseCause(s: State, a: Action, h: nat)
    requires News(s, Step(s, a)) == [Release(h)]
    ensures a.Go? && a.t < |s.at| && (s.at[a.t].Leaving? || s.at[a.t].Busy?)
  {
    hide Marked, Deferred, OwesClose, CloseAsked, CanAcquire;
    if a.Go? && a.t < |s.at| && Settles(s, a.t, a.ok) {
      Settled(s, a.t, a.ok);
      hide Advance;
    }
  }

  /** One step with the debt: it is sent, or the same hold carries it on. */
  lemma CarryStep(s: State, a: Action, k: nat, o: Holder) returns (p: Holder)
    requires Safe(s, k) && Carries(s, o, k) && Holds(s, o) && Usable(s.conn) && Mild(s, a, k)
    ensures var s' := Step(s, a);
            News(s, s') == [CloseSent(k, true)] || (Carries(s', p, k) && Holds(s', p) && HoldOf(s', p) == HoldOf(s, o))
  {
    p := o;
    if o.ByGoroutine? && a.Go? && a.t == o.t {
      p := CarrierMoves(s, a.t, a.ok, k);
    } else if o.ByRows? && a.CloseRows? && a.r == o.r && a.t < |s.at| && s.at[a.t].Idle? {
      p := ByGoroutine(a.t);
      DebtStays(s, a, k, o);
    } else if !(o.ByRows? && a.CloseRows? && a.r == o.r) {
      if Unlooked(s, o, k) { DebtStays(s, a, k, o); }
      OneEvent(s, a);
      CarrierStays(s, a, o);
      hide Step, Safe;
    }
  }

  lemma CarrierMoves(s: State, t: nat, ok: bool, k: nat) returns (p: Holder)
    requires Carries(s, ByGoroutine(t), k) && Holds(s, ByGoroutine(t)) && Usable(s.conn)
             && (s.at[t] == Sending(k) ==> ok)
    ensures var s' := Advance(s, t, ok);
            News(s, s') == [CloseSent(k, true)] || (Carries(s', p, k) && Holds(s', p) && HoldOf(s', p) == Mine(s, t))
  {
    p := if s.at[t].Began? && s.at[t].query && ok then ByRows(|s.rows|) else ByGoroutine(t);
  }

  /** While the holder has not looked yet, nobody else settles the debt. */
  lemma DebtStays(s: State, a: Action, k: nat, o: Holder)
    requires Safe(s, k) && Holds(s, o) && OwesClose(s.stmts[k]) && !(a.Go? && o == ByGoroutine(a.t))
    ensures k < |Step(s, a).stmts| && OwesClose(Step(s, a).stmts[k])
  {
    StepMarked(s, a, k);
    OneEvent(s, a);
    if a.Go? && a.t < |s.at| {
      assert Holds(s, ByGoroutine(a.t)) == Owns(s.at[a.t]);
      hide NoExecution, WasSent, OneOwner;
    } else {
      hide OneOwner, NoExecution, WasSent, Advance;
    }
  }

  lemma CarrierStays(s: State, a: Action, o: Holder)
    requires Holds(s, o) && !(a.Go? && o == ByGoroutine(a.t)) && !(o.ByRows? && a.CloseRows? && a.r == o.r)
    ensures Holds(Step(s, a), o) && HoldOf(Step(s, a), o) == HoldOf(s, o)
    ensures o.ByGoroutine? ==> Step(s, a).at[o.t] == s.at[o.t]
    ensures o.ByRows? ==> Step(s, a).rows[o.r] == s.rows[o.r]
  {
    hide Marked, Deferred, OwesClose, CloseAsked;
    if a.Go? && a.t < |s.at| {
      OnlyMoves(s, a.t, a.ok);
      hide Advance;
    } else {
      hide Advance;
    }
  }

  lemma StepDuty(s: State, a: Action, from: nat, k: nat, h: nat)
    requires Safe(s, k) && Duty(s, from, k, h) && Mild(s, a, k)
    ensures Duty(Step(s, a), from, k, h)
  {
    var s' := Step(s, a);
    OneEvent(s, a);
    StaysUsable(s, a, k);
    if SentSince(s.log, from, k) {
      hide Step;
      DutyGrows(s.log, s'.log, from, k, h);
    } else {
      var o :| Carries(s, o, k) && Holds(s, o) && HoldOf(s, o) == h;
      NotYetLeft(s, a, k, o, h);
      var p := CarryStep(s, a, k, o);
      hide Step, Safe, Carries, Holds, HoldOf;
      DutyGrows(s.log, s'.log, from, k, h);
    }
  }

  lemma NotYetLeft(s: State, a: Action, k: nat, o: Holder, h: nat)
    requires OneOwner(s) && Carries(s, o, k) && Holds(s, o)
    ensures News(s, Step(s, a)) != [Release(h)]
  {
    if News(s, Step(s, a)) == [Release(h)] {
      ReleaseCause(s, a, h);
      assert Holds(s, ByGoroutine(a.t));
    }
  }

  lemma DutyGrows(log: seq<Event>, log': seq<Event>, from: nat, k: nat, h: nat)
    requires from <= |log| && SentFirst(log, from, k, h)
             && (log' == log || (|log'| == |log| + 1 && log'[..|log|] == log))
    requires log' != log && log'[|log|] == Release(h) ==> SentSince(log, from, k)
    ensures SentFirst(log', from, k, h)
    ensures SentSince(log, from, k) || (log' != log && log'[|log|] == CloseSent(k, true)) ==> SentSince(log', from, k)
  {
    forall j | from <= j < |log'| && log'[j] == Release(h)
      ensures SentSince(log'[..j], from, k)
    {
      if j < |log| {
        assert log[j] == log'[..|log|][j] == log'[j];
        assert log'[..j] == log[..j];
      } else {
        assert log'[..j] == log;
      }
    }
    if SentSince(log, from, k) {
      var i :| from <= i < |log| && log[i] == CloseSent(k, true);
      assert log'[..|log|][i] == log'[i];
    }
  }

  lemma {:induction false} RunDuty(s: State, later: seq<Action>, from: nat, k: nat, h: nat)
    requires Safe(s, k) && Duty(s, from, k, h) && AllMild(s, later, k)
    ensures Safe(Run(s, later), k) && Duty(Run(s, later), from, k, h)
  {
    if later != [] {
      var init := later[..|later| - 1];
      assert forall i | 0 <= i < |init| :: init[..i] == later[..i] && init[i] == later[i];
      hide Step, Safe, Duty, Mild;
      RunDuty(s, init, from, k, h);
      StepSafe(Run(s, init), later[|later| - 1], k);
      StepDuty(Run(s, init), later[|later| - 1], from, k, h);
    }
  }

  /**
    * The owner's duty, with any number of Close calls before and after: if a deferred close is found in place by an
    * operation or result set that has yet to look, COMMAND_CLOSE goes out before that hold of the connection is
    * released.
    */
  lemma OwnersDuty(m: nat, n: nat, earlier: seq<Action>, later: seq<Action>, k: nat, o: Holder)
    requires k < m
    requires var s := Run(Start(m, n), earlier);
             Usable(s.conn) && k < |s.stmts| && Unlooked(s, o, k) && OwesClose(s.stmts[k]) && AllMild(s, later, k)
    ensures var s := Run(Start(m, n), earlier);
            Holds(s, o) && SentFirst(Run(s, later).log, |s.log|, k, HoldOf(s, o))
  {
    var s := Run(Start(m, n), earlier);
    NoExecuteAfterClose(m, n, earlier, k);
    hide Run, Safe, AllMild;
    assert Carries(s, o, k) && Holds(s, o);
    RunDuty(s, later, |s.log|, k, HoldOf(s, o));
  }

  /** Nobody is left who would find the deferred close. */
  ghost predicate Lost(s: State, from: nat, k: nat) {
    && k < |s.stmts| && s.stmts[k].closed && from <= |s.log| && !SentSince(s.log, from, k)
    && (forall o :: !Unlooked(s, o, k)) && forall t | 0 <= t < |s.at| :: s.at[t] != Sending(k)
  }

  lemma StepLost(s: State, a: Action, from: nat, k: nat)
    requires MarkedFirst(s, k) && Lost(s, from, k)
    ensures Lost(Step(s, a), from, k)
  {
    var s' := Step(s, a);
    OneEvent(s, a);
    StepMarked(s, a, k);
    Cause(s, a, k, true);
    forall o
      ensures !Unlooked(s', o, k)
    {
      if Unlooked(s', o, k) { NoNewOperation(s, a, k, o); }
    }
    forall t | 0 <= t < |s'.at|
      ensures s'.at[t] != Sending(k)
    {
      if s'.at[t] == Sending(k) { NoNewSender(s, a, k, t); }
    }
    hide Step, Unlooked, MarkedFirst;
    NotSince(s.log, s'.log, from, k);
  }

  lemma NotSince(log: seq<Event>, log': seq<Event>, from: nat, k: nat)
    requires from <= |log| && (log' == log || (|log'| == |log| + 1 && log'[..|log|] == log))
    requires !SentSince(log, from, k) && !(log' != log && log'[|log|] == CloseSent(k, true))
    ensures !SentSince(log', from, k)
  {
    assert forall i | 0 <= i < |log| :: log'[i] == log'[..|log|][i];
  }

  lemma NoNewSender(s: State, a: Action, k: nat, t: nat)
    requires t < |Step(s, a).at| && Step(s, a).at[t] == Sending(k)
    ensures t < |s.at| && (s.at[t] == Sending(k) || Unlooked(s, ByGoroutine(t), k))
  {
    hide Marked, Deferred, OwesClose, CloseAsked, CanAcquire;
    if a.Go? && a.t < |s.at| {
      OnlyMoves(s, a.t, a.ok);
      NextPlace(s, a.t, a.ok);
      hide Advance;
    } else {
      hide Advance;
    }
  }

  lemma {:induction false} RunLost(s: State, later: seq<Action>, from: nat, k: nat)
    requires Safe(s, k) && Lost(s, from, k)
    ensures Safe(Run(s, later), k) && Lost(Run(s, later), from, k)
  {
    if later != [] {
      hide Step, Lost;
      RunLost(s, later[..|later| - 1], from, k);
      StepSafe(Run(s, later[..|later| - 1]), later[|later| - 1], k);
      StepLost(Run(s, later[..|later| - 1]), later[|later| - 1], from, k);
    }
  }

  /** Every operation of statement `k` has looked for a deferred close and has dealt with it. */
  ghost predicate Quiet(s: State, k: nat) {
    (forall o :: !Unlooked(s, o, k)) && forall t | 0 <= t < |s.at| :: s.at[t] != Sending(k)
  }

  /** Someone who will look for the deferred close of `k`, or is sending it already. */
  ghost predicate Attended(s: State, k: nat) {
    (exists o :: Unlooked(s, o, k)) || exists t :: 0 <= t < |s.at| && s.at[t] == Sending(k)
  }

  /** The deferring section settles it. */
  lemma DeferDecides(s: State, t: nat, ok: bool, k: nat) returns (o: Holder)
    requires Safe(s, k) && Usable(s.conn) && t < |s.at| && s.at[t] == CloseDeferring(k)
    ensures var s' := Step(s, Go(t, ok));
            && s'.log == s.log
            && (Attended(s, k) ==> Holds(s', o) && Carries(s', o, k) && Duty(s', |s.log|, k, HoldOf(s', o)))
            && (!Attended(s, k) ==> Lost(s', |s.log|, k))
  {
    o := ByGoroutine(t);
    var s' := Step(s, Go(t, ok));
    assert s'.log == s.log + [] == s.log;
    assert Calls(s.at[t], k);
    Deferral(s, t, ok, k);
    hide Step;
    if p :| Unlooked(s, p, k) {
      o := p;
      assert Unlooked(s', o, k);
    } else if u :| 0 <= u < |s.at| && s.at[u] == Sending(k) {
      o := ByGoroutine(u);
      assert s'.at[u] == Sending(k);
    } else {
      assert forall p | Unlooked(s', p, k) :: Unlooked(s, p, k);
    }
  }

  lemma Deferral(s: State, t: nat, ok: bool, k: nat)
    requires t < |s.at| && s.at[t] == CloseDeferring(k) && k < |s.stmts|
    ensures Step(s, Go(t, ok)) == s.(stmts := s.stmts[k := Deferred(s.stmts[k])], at := s.at[t := Idle])
  {
    assert s.log + [] == s.log;
  }

  /**
    * In every run in which a Close had to be deferred, with any number of other Close calls before, at the time and
    * after, the deferred COMMAND_CLOSE is sent if and only if at that moment an operation or open result set of the
    * same statement had yet to look for it or was sending it.
    */
  lemma DeferredCloseSent(m: nat, n: nat, earlier: seq<Action>, t: nat, ok: bool, later: seq<Action>, k: nat)
    requires k < m && t < |Run(Start(m, n), earlier).at|
    requires Run(Start(m, n), earlier).at[t] == CloseDeferring(k) && Usable(Run(Start(m, n), earlier).conn)
    requires var s' := Step(Run(Start(m, n), earlier), Go(t, ok));
             AllMild(s', later, k) && Quiet(Run(s', later), k)
    ensures var s := Run(Start(m, n), earlier);
            SentSince(Run(Step(s, Go(t, ok)), later).log, |s.log|, k) <==> Attended(s, k)
  {
    var s := Run(Start(m, n), earlier);
    var s' := Step(s, Go(t, ok));
    NoExecuteAfterClose(m, n, earlier, k);
    hide Run, Step, Start, Safe, AllMild, Attended;
    StepSafe(s, Go(t, ok), k);
    var o := DeferDecides(s, t, ok, k);
    if Attended(s, k) {
      RunDuty(s', later, |s.log|, k, HoldOf(s', o));
    } else {
      RunLost(s', later, |s.log|, k);
    }
  }

  const OTHER_AND_CLOSE: seq<Action> := [StartOther(0, false), StartClose(1, 0)]

  /** A Close that finds the connection owned by another operation is never carried out, although nothing failed. */
  lemma LostDeferral()
    ensures Run(Start(1, 2), OTHER_AND_CLOSE + (SECOND_GOES + [Go(0, true)])) ==
            Pair(LIVE, OWED, Idle, Idle, map[0 := 0], 1, [Acquire(0), CloseCalled(0), Release(0)])
  {
    var log := [Acquire(0), CloseCalled(0)];
    var s0 := Pair(LIVE, FRESH, Idle, Idle, map[], 0, []);
    var s1 := Pair(OWNED, ASKED, Busy(false), CloseTrying(0), map[0 := 0], 1, log);
    var s2 := Pair(OWNED, OWED, Busy(false), Idle, map[0 := 0], 1, log);
    assert Start(1, 2) == s0;
    OtherAndClose();
    OtherDefers();
    OtherLeaves();
    hide *;
    RunSplit(s0, OTHER_AND_CLOSE, SECOND_GOES + [Go(0, true)]);
    RunSplit(s1, SECOND_GOES, [Go(0, true)]);
  }

  lemma OtherAndClose()
    ensures Run(Pair(LIVE, FRESH, Idle, Idle, map[], 0, []), OTHER_AND_CLOSE) ==
            Pair(OWNED, ASKED, Busy(false), CloseTrying(0), map[0 := 0], 1, [Acquire(0), CloseCalled(0)])
  {
    var s0 := Pair(LIVE, FRESH, Idle, Idle, map[], 0, []);
    assert Step(s0, StartOther(0, false)) == Pair(OWNED, FRESH, Busy(false), Idle, map[0 := 0], 1, [Acquire(0)]);
    RunTwo(s0, StartOther(0, false), StartClose(1, 0));
  }

  lemma OtherDefers()
    ensures Run(Pair(OWNED, ASKED, Busy(false), CloseTrying(0), map[0 := 0], 1, [Acquire(0), CloseCalled(0)]),
                SECOND_GOES) ==
            Pair(OWNED, OWED, Busy(false), Idle, map[0 := 0], 1, [Acquire(0), CloseCalled(0)])
  {
    var s := Pair(OWNED, ASKED, Busy(false), CloseTrying(0), map[0 := 0], 1, [Acquire(0), CloseCalled(0)]);
    assert Step(s, Go(1, true)) == s.(at := [Busy(false), CloseDeferring(0)]);
    RunTwo(s, Go(1, true), Go(1, true));
  }

  lemma OtherLeaves()
    ensures Run(Pair(OWNED, OWED, Busy(false), Idle, map[0 := 0], 1, [Acquire(0), CloseCalled(0)]), [Go(0, true)]) ==
            Pair(LIVE, OWED, Idle, Idle, map[0 := 0], 1, [Acquire(0), CloseCalled(0), Release(0)])
  {
    var s := Pair(OWNED, OWED, Busy(false), Idle, map[0 := 0], 1, [Acquire(0), CloseCalled(0)]);
    assert [Go(0, true)][..0] == [];
    assert Step(s, Go(0, true)) ==
           Pair(LIVE, OWED, Idle, Idle, map[0 := 0], 1, [Acquire(0), CloseCalled(0), Release(0)]);
  }
}
