/**
  * Transactions over one session: BeginTx, Exec, Commit, Rollback, ResetSession and Close against a server that keeps
  * uncommitted and durable work. Every request succeeds, fails without effect, or breaks the session, in which case it
  * may or may not have taken effect and the server rolls back what is uncommitted.
  */
module Transactions {

  /**
    * One executed statement: `off` tells that autocommit was off, `owner` which transaction it belonged to, `when` its
    * place on the wire.
    */
  datatype Work = Work(id: int, off: bool, owner: int, when: int)

  datatype Request =
    | SetAuto(on: bool)
    | Isolation
    | Commit(tx: int)
    | Rollback(tx: int)      // -1 when ResetSession or Close asks for it
    | HasPending
    | Run(id: int)

  datatype Reply = Ok | Fails | Breaks(effect: bool)

  datatype Tx = Tx(done: bool, restore: bool)

  /**
    * `auto` is the driver's copy of the autocommit flag, `serverAuto` the server's. `current` is the transaction whose
    * work the server holds uncommitted, or -1. `held` is false once the connection dropped its session.
    */
  datatype Db = Db(live: bool, held: bool, auto: bool, serverAuto: bool, pending: seq<Work>, durable: seq<Work>,
                   txs: seq<Tx>, current: int, wire: seq<Request>)

  const START := Db(true, true, true, true, [], [], [], -1, [])

  // ---- The server ----

  /** What a request does once it takes effect. Enabling autocommit commits what is pending. */
  function Effect(d: Db, r: Request): Db {
    match r
    case SetAuto(on) =>
      if on then d.(serverAuto := true, durable := d.durable + d.pending, pending := []) else d.(serverAuto := false)
    case Commit(_) => d.(durable := d.durable + d.pending, pending := [])
    case Rollback(_) => d.(pending := [])
    case Run(id) =>
      var w := Work(id, !d.serverAuto, d.current, |d.wire| - 1);
      if d.serverAuto then d.(durable := d.durable + [w]) else d.(pending := d.pending + [w])
    case Isolation => d
    case HasPending => d
  }

  /** A request on a live session reaches the wire; on a dead one nothing happens. */
  function Send(d: Db, r: Request, reply: Reply): Db {
    if !d.live then d else
      var sent := d.(wire := d.wire + [r]);
      match reply
      case Ok => Effect(sent, r)
      case Fails => sent
      case Breaks(effect) => (if effect then Effect(sent, r) else sent).(live := false, pending := [])
  }

  predicate Succeeds(d: Db, reply: Reply) { d.live && reply.Ok? }

  /** The server carried the request out, whether or not the driver learned of it. */
  predicate TakesEffect(reply: Reply) { reply.Ok? || reply == Breaks(true) }

  // ---- The driver ----

  function SetAutoCommit(d: Db, on: bool, reply: Reply): Db {
    var d' := Send(d, SetAuto(on), reply);
    if Succeeds(d, reply) then d'.(auto := on) else d'
  }

  /**
    * `isolated`: an isolation level has to be set, and restored at the end. The replies answer the requests in order.
    */
  function BeginTx(d: Db, isolated: bool, r1: Reply, r2: Reply, r3: Reply): (Db, bool) {
    if !d.held || !d.live || !d.auto then (d, false)
    else
      var d1 := SetAutoCommit(d, false, r1);
      if !Succeeds(d, r1) then (d1, false)
      else if !isolated then (Opened(d1, false), true)
      else
        var d2 := Send(d1, Isolation, r2);
        if Succeeds(d1, r2) then (Opened(d2, true), true) else (SetAutoCommit(d2, true, r3), false)
  }

  function Opened(d: Db, restore: bool): Db { d.(txs := d.txs + [Tx(false, restore)], current := |d.txs|) }

  /** Commit or rollback of transaction `i`. */
  function Finish(d: Db, i: nat, rollback: bool, r1: Reply, r2: Reply, r3: Reply): (Db, bool)
    requires i < |d.txs|
  {
    if d.txs[i].done || !d.held then (d, false)
    else if !d.live then (d.(txs := d.txs[i := d.txs[i].(done := true)]), false)
    else Ended(d.(txs := d.txs[i := d.txs[i].(done := true)]), i, rollback, r1, r2, r3)
  }

  /** The requests of a commit or rollback, once the transaction is marked as done. */
  function Ended(d: Db, i: nat, rollback: bool, r1: Reply, r2: Reply, r3: Reply): (Db, bool)
    requires i < |d.txs|
  {
    var d1 := Send(d, if rollback then Rollback(i) else Commit(i), r1);
    if !Succeeds(d, r1) then (d1, false) else Concluded(d1, d.txs[i].restore, r2, r3)
  }

  /** After a successful commit or rollback: restore the isolation level, enable autocommit. */
  function Concluded(d: Db, restore: bool, r2: Reply, r3: Reply): (Db, bool) {
    var d2 := if restore then Send(d, Isolation, r2) else d;
    var d3 := SetAutoCommit(d2, true, r3);
    (d3.(current := if d3.serverAuto then -1 else d3.current), (restore ==> Succeeds(d, r2)) && Succeeds(d2, r3))
  }

  function Abort(d: Db): Db { d.(live := false, pending := []) }

  function ResetSession(d: Db, r1: Reply, r2: Reply, r3: Reply): (Db, bool) {
    if !d.held || !d.live then (d, false)
    else
      var d1 := Send(d, HasPending, r1);
      if !Succeeds(d, r1) then (Abort(d1), false)
      else
        var d2 := if d.pending != [] then Send(d1, Rollback(-1), r2) else d1;
        if d.pending != [] && !Succeeds(d1, r2) then (Abort(d2), false)
        else if d2.auto then (d2, true)
        else
          var d3 := SetAutoCommit(d2, true, r3);
          if Succeeds(d2, r3) then (d3.(current := -1), true) else (Abort(d3), false)
  }

  /** Closing rolls back an open transaction if it can, and ends the session in any case. */
  function Close(d: Db, reply: Reply): Db {
    if !d.held then d
    else Abort(if d.auto then d else Send(d, Rollback(-1), reply)).(held := false)
  }

  function Exec(d: Db, id: int, reply: Reply): Db { if d.held then Send(d, Run(id), reply) else d }

  // ---- Runs ----

  datatype Action =
    | DoBegin(isolated: bool, r1: Reply, r2: Reply, r3: Reply)
    | DoExec(id: int, r1: Reply)
    | DoFinish(i: nat, rollback: bool, r1: Reply, r2: Reply, r3: Reply)
    | DoReset(r1: Reply, r2: Reply, r3: Reply)
    | DoClose(r1: Reply)

  function Act(d: Db, a: Action): Db {
    match a
    case DoBegin(isolated, r1, r2, r3) => BeginTx(d, isolated, r1, r2, r3).0
    case DoExec(id, r) => Exec(d, id, r)
    case DoFinish(i, rollback, r1, r2, r3) => if i < |d.txs| then Finish(d, i, rollback, r1, r2, r3).0 else d
    case DoReset(r1, r2, r3) => ResetSession(d, r1, r2, r3).0
    case DoClose(r) => Close(d, r)
  }

  function After(d: Db, actions: seq<Action>): Db {
    if actions == [] then d else Act(After(d, actions[..|actions| - 1]), actions[|actions| - 1])
  }

  // ---- What every run keeps ----

  predicate Waiting(d: Db, w: Work) { w.off && w.owner == d.current && 0 <= w.when < |d.wire| }

  /** The driver and the server agree, and uncommitted work belongs to the current transaction. */
  predicate Sound(d: Db) {
    && (if d.live then d.auto == d.serverAuto && (d.auto ==> d.pending == [] && d.current == -1) else d.pending == [])
    && -1 <= d.current < |d.txs|
    && forall i | 0 <= i < |d.pending| :: Waiting(d, d.pending[i])
  }

  /** The commit of the work's own transaction was sent after the work ran. */
  predicate Paid(wire: seq<Request>, w: Work) {
    w.off ==> exists j :: w.when < j < |wire| && 0 <= j && wire[j] == Commit(w.owner)
  }

  predicate AllPaid(d: Db) { forall i | 0 <= i < |d.durable| :: Paid(d.wire, d.durable[i]) }

  /** A commit of an open transaction that is sent and takes effect. */
  predicate Commits(d: Db, a: Action) {
    && a.DoFinish? && !a.rollback && a.i < |d.txs| && !d.txs[a.i].done && d.held && d.live
    && TakesEffect(a.r1)
  }

  /** Some uncommitted work has not had the commit of its own transaction sent. */
  predicate Unasked(d: Db) { exists i :: 0 <= i < |d.pending| && !Paid(d.wire, d.pending[i]) }

  /** A commit that takes effect on work another transaction has not asked to commit. */
  predicate Usurps(d: Db, a: Action) { Commits(d, a) && d.current != a.i && Unasked(d) }

  lemma PaidLonger(wire: seq<Request>, more: seq<Request>, w: Work)
    requires Paid(wire, w)
    ensures Paid(wire + more, w)
  {
    if w.off {
      var j :| w.when < j < |wire| && 0 <= j && wire[j] == Commit(w.owner);
      assert (wire + more)[j] == Commit(w.owner);
    }
  }

  lemma AllPaidLonger(d: Db, d': Db, r: Request)
    requires d'.durable == d.durable && (d'.wire == d.wire || d'.wire == d.wire + [r])
    ensures AllPaid(d) ==> AllPaid(d')
  {
    if AllPaid(d) {
      forall i | 0 <= i < |d'.durable|
        ensures Paid(d'.wire, d'.durable[i])
      {
        PaidLonger(d.wire, [r], d.durable[i]);
      }
    }
  }

  /** A request that moves no uncommitted work keeps the books. */
  lemma SendKeeps(d: Db, r: Request, reply: Reply)
    requires Sound(d) && (r.Rollback? || r.Isolation? || r.HasPending? || (r.SetAuto? && !r.on))
    ensures var d' := Send(d, r, reply);
            (AllPaid(d) ==> AllPaid(d')) && d'.durable == d.durable && d'.txs == d.txs && d'.current == d.current
            && d'.held == d.held && d'.auto == d.auto
    ensures var d' := Send(d, r, reply);
            (d'.pending == [] || d'.pending == d.pending) && (Succeeds(d, reply) && r.Rollback? ==> d'.pending == [])
    ensures var d' := Send(d, r, reply);
            && |d'.wire| >= |d.wire| && (!d'.live ==> d'.pending == [])
            && (d'.live ==> d.live && d'.serverAuto == if r.SetAuto? && reply.Ok? then false else d.serverAuto)
  {
    AllPaidLonger(d, Send(d, r, reply), r);
    hide AllPaid;
  }

  /** Autocommit is enabled only when nothing is uncommitted. */
  lemma AutoOnKeeps(d: Db, reply: Reply)
    requires d.pending == [] && -1 <= d.current < |d.txs|
    ensures var d' := SetAutoCommit(d, true, reply);
            && (AllPaid(d) ==> AllPaid(d')) && d'.durable == d.durable && d'.pending == [] && d'.txs == d.txs
            && d'.current == d.current
            && d'.held == d.held && (Succeeds(d, reply) ==> d'.live)
            && (d'.live ==> d.live && d'.auto == (reply.Ok? || d.auto) && d'.serverAuto == (reply.Ok? || d.serverAuto))
  {
    assert d.durable + [] == d.durable;
    AllPaidLonger(d, SetAutoCommit(d, true, reply), SetAuto(true));
    hide AllPaid;
  }

  lemma BeginKeeps(d: Db, isolated: bool, r1: Reply, r2: Reply, r3: Reply)
    requires Sound(d)
    ensures var d' := BeginTx(d, isolated, r1, r2, r3).0;
            Sound(d') && (AllPaid(d) ==> AllPaid(d')) && d'.durable == d.durable
  {
    if d.held && d.live && d.auto {
      SendKeeps(d, SetAuto(false), r1);
      var d1 := SetAutoCommit(d, false, r1);
      assert Sound(d1) && (AllPaid(d) ==> AllPaid(d1));
      if Succeeds(d, r1) && isolated {
        SendKeeps(d1, Isolation, r2);
        var d2 := Send(d1, Isolation, r2);
        if !Succeeds(d1, r2) { AutoOnKeeps(d2, r3); }
      }
      hide Paid, Send;
    }
  }

  lemma ExecKeeps(d: Db, id: int, reply: Reply)
    requires Sound(d)
    ensures Sound(Exec(d, id, reply)) && (AllPaid(d) ==> AllPaid(Exec(d, id, reply)))
  {
    if d.held && d.live {
      assert Paid(d.wire + [Run(id)], Work(id, false, d.current, |d.wire|));
      AllPaidLonger(d, d.(wire := d.wire + [Run(id)]), Run(id));
    }
    hide Paid;
  }

  lemma ResetKeeps(d: Db, r1: Reply, r2: Reply, r3: Reply)
    requires Sound(d)
    ensures var (d', ok) := ResetSession(d, r1, r2, r3);
            && Sound(d') && (AllPaid(d) ==> AllPaid(d')) && d'.durable == d.durable
            && (ok ==> d'.live && d'.auto && d'.serverAuto && d'.pending == [])
  {
    if d.held && d.live {
      SendKeeps(d, HasPending, r1);
      var d1 := Send(d, HasPending, r1);
      if Succeeds(d, r1) {
        assert Sound(d1) && d1.pending == d.pending;
        if d.pending != [] { SendKeeps(d1, Rollback(-1), r2); }
        var d2 := if d.pending != [] then Send(d1, Rollback(-1), r2) else d1;
        if (d.pending != [] ==> Succeeds(d1, r2)) && !d2.auto { AutoOnKeeps(d2, r3); }
      }
      hide Paid, Send, SetAutoCommit;
    }
  }

  lemma CloseKeeps(d: Db, reply: Reply)
    requires Sound(d)
    ensures Sound(Close(d, reply)) && (AllPaid(d) ==> AllPaid(Close(d, reply))) && Close(d, reply).durable == d.durable
  {
    SendKeeps(d, Rollback(-1), reply);
    hide Paid, Send;
  }

  /** A commit makes all uncommitted work durable; that of the current transaction thereby pays for all of it. */
  lemma CommitPays(d: Db, i: nat, reply: Reply)
    requires Sound(d) && i < |d.txs|
    ensures var d' := Send(d, Commit(i), reply);
            && d'.txs == d.txs && d'.current == d.current && d'.held == d.held && d'.auto == d.auto
            && (d'.pending == [] || d'.pending == d.pending) && (Succeeds(d, reply) ==> d'.pending == [])
            && (!d'.live ==> d'.pending == [])
            && (d'.live ==> d.live && d'.serverAuto == d.serverAuto) && |d'.wire| >= |d.wire|
            && (d.live && TakesEffect(reply) ==> d'.durable == d.durable + d.pending)
            && (!TakesEffect(reply) ==> d'.durable == d.durable)
            && (d'.wire == d.wire || d'.wire == d.wire + [Commit(i)])
            && (AllPaid(d) && (d.current == i || !Unasked(d) || !TakesEffect(reply)) ==>
                AllPaid(d'))
  {
    if AllPaid(d) {
      AllPaidLonger(d, d.(wire := d.wire + [Commit(i)]), Commit(i));
      if d.current == i || !Unasked(d) { PendingPaid(d, i); }
    }
    hide Paid, Waiting, Unasked;
  }

  lemma PendingPaid(d: Db, i: int)
    requires Sound(d) && (d.current == i || !Unasked(d))
    ensures forall j | 0 <= j < |d.pending| :: Paid(d.wire + [Commit(i)], d.pending[j])
  {
    var wire := d.wire + [Commit(i)];
    forall j | 0 <= j < |d.pending|
      ensures Paid(wire, d.pending[j])
    {
      assert Waiting(d, d.pending[j]) && wire[|d.wire|] == Commit(i);
      if d.current != i { PaidLonger(d.wire, [Commit(i)], d.pending[j]); }
    }
  }

  /** Finishing a transaction: its first request leaves nothing that enabling autocommit could commit unasked. */
  lemma FinishKeeps(d: Db, i: nat, rollback: bool, r1: Reply, r2: Reply, r3: Reply)
    requires Sound(d) && i < |d.txs|
    ensures var (d', ok) := Finish(d, i, rollback, r1, r2, r3);
            && Sound(d') && (AllPaid(d) && !Usurps(d, DoFinish(i, rollback, r1, r2, r3)) ==> AllPaid(d'))
            && (ok ==> d'.live && d'.auto && d'.serverAuto && d'.pending == [])
            && (ok ==> d'.durable == if rollback then d.durable else d.durable + d.pending)
            && (rollback ==> d'.durable == d.durable)
  {
    if !d.txs[i].done && d.held && d.live {
      var d0 := d.(txs := d.txs[i := d.txs[i].(done := true)]);
      DoneKeeps(d, i);
      FirstKeeps(d0, i, rollback, r1);
      var d1 := Send(d0, if rollback then Rollback(i) else Commit(i), r1);
      FinishRest(d1, d.txs[i].restore, r2, r3);
      assert Unasked(d0) == Unasked(d);
      hide Send, Paid, Concluded, Sound, AllPaid, Unasked;
    } else {
      DoneKeeps(d, i);
    }
  }

  lemma DoneKeeps(d: Db, i: nat)
    requires Sound(d) && i < |d.txs|
    ensures var d0 := d.(txs := d.txs[i := d.txs[i].(done := true)]);
            Sound(d0) && (AllPaid(d) ==> AllPaid(d0))
  {
    var d0 := d.(txs := d.txs[i := d.txs[i].(done := true)]);
    assert forall j | 0 <= j < |d.pending| :: Waiting(d, d.pending[j]) ==> Waiting(d0, d.pending[j]);
    hide Paid;
  }

  lemma FirstKeeps(d: Db, i: nat, rollback: bool, reply: Reply)
    requires Sound(d) && i < |d.txs| && d.live
    ensures var d1 := Send(d, if rollback then Rollback(i) else Commit(i), reply);
            && Sound(d1) && d1.txs == d.txs && d1.current == d.current && (rollback ==> d1.durable == d.durable)
            && (AllPaid(d) && (rollback || d.current == i || !Unasked(d) || !TakesEffect(reply)) ==> AllPaid(d1))
            && (Succeeds(d, reply) ==>
                d1.pending == [] && d1.durable == if rollback then d.durable else d.durable + d.pending)
  {
    if rollback { SendKeeps(d, Rollback(i), reply); } else { CommitPays(d, i, reply); }
    hide Send, AllPaid, Unasked;
    StillSound(d, Send(d, if rollback then Rollback(i) else Commit(i), reply));
  }

  lemma StillSound(d: Db, d': Db)
    requires Sound(d) && d'.current == d.current && |d'.txs| == |d.txs| && d'.auto == d.auto && |d'.wire| >= |d.wire|
    requires d'.live ==> d.live && d'.serverAuto == d.serverAuto
    requires (!d'.live ==> d'.pending == []) && (d'.pending == [] || d'.pending == d.pending)
    ensures Sound(d')
  {
    if d'.pending != [] {
      assert forall i | 0 <= i < |d.pending| :: Waiting(d, d.pending[i]);
    }
  }

  lemma FinishRest(d: Db, restore: bool, r2: Reply, r3: Reply)
    requires Sound(d)
    ensures d.pending == [] ==>
              var (d', ok) := Concluded(d, restore, r2, r3);
              && Sound(d') && (AllPaid(d) ==> AllPaid(d')) && d'.durable == d.durable
              && (ok ==> d'.live && d'.auto && d'.serverAuto && d'.pending == [])
  {
    if d.pending == [] {
      if restore { SendKeeps(d, Isolation, r2); }
      var d2 := if restore then Send(d, Isolation, r2) else d;
      AutoOnKeeps(d2, r3);
      assert d2.live ==> d2.auto == d2.serverAuto;
      hide AllPaid, Send, SetAutoCommit, Sound;
      EmptySound(Concluded(d, restore, r2, r3).0);
    }
  }

  lemma EmptySound(d: Db)
    requires d.pending == [] && -1 <= d.current < |d.txs|
    requires d.live ==> d.auto == d.serverAuto && (d.auto ==> d.current == -1)
    ensures Sound(d)
  {
  }

  lemma ActKeeps(d: Db, a: Action)
    requires Sound(d)
    ensures Sound(Act(d, a)) && (AllPaid(d) && !Usurps(d, a) ==> AllPaid(Act(d, a)))
  {
    match a
    case DoBegin(isolated, r1, r2, r3) => BeginKeeps(d, isolated, r1, r2, r3);
    case DoExec(id, r) => ExecKeeps(d, id, r);
    case DoFinish(i, rollback, r1, r2, r3) => if i < |d.txs| { FinishKeeps(d, i, rollback, r1, r2, r3); }
    case DoReset(r1, r2, r3) => ResetKeeps(d, r1, r2, r3);
    case DoClose(r) => CloseKeeps(d, r);
  }

  // ---- Every run ----

  /** No commit of the run took effect on work of a transaction that had not asked for it. */
  predicate NoneUsurps(actions: seq<Action>) {
    forall i | 0 <= i < |actions| :: !Usurps(After(START, actions[..i]), actions[i])
  }

  lemma {:induction false} RunSound(actions: seq<Action>)
    ensures Sound(After(START, actions))
    ensures NoneUsurps(actions) ==> AllPaid(After(START, actions))
  {
    if actions != [] {
      var init := actions[..|actions| - 1];
      assert forall i | 0 <= i < |init| :: init[..i] == actions[..i] && init[i] == actions[i];
      hide Sound, AllPaid, Act, Usurps;
      RunSound(init);
      ActKeeps(After(START, init), actions[|actions| - 1]);
    }
  }

  lemma StillUnpaid(wire: seq<Request>, r: Request, w: Work)
    requires !Paid(wire, w) && r != Commit(w.owner)
    ensures !Paid(wire + [r], w)
  {
  }

  /** The work it makes durable stays unpaid for the rest of the call. */
  lemma UsurpingBreaks(d: Db, a: Action)
    requires Sound(d) && Usurps(d, a)
    ensures !AllPaid(Act(d, a))
  {
    var i :| 0 <= i < |d.pending| && !Paid(d.wire, d.pending[i]);
    var w := d.pending[i];
    assert Waiting(d, w);
    StillUnpaid(d.wire, Commit(a.i), w);
    var d0 := d.(txs := d.txs[a.i := d.txs[a.i].(done := true)]);
    var d1 := Send(d0, Commit(a.i), a.r1);
    assert d1.durable == d.durable + d.pending && d1.wire == d.wire + [Commit(a.i)] && d1.pending == [];
    assert d1.durable[|d.durable| + i] == w;
    hide Sound, AllPaid, Paid;
    ConcludedUnpaid(d1, d.txs[a.i].restore, a.r2, a.r3, w);
    var d' := Act(d, a);
    assert d'.durable == d1.durable && !Paid(d'.wire, w);
    OneUnpaid(d', |d.durable| + i);
  }

  lemma OneUnpaid(d: Db, j: nat)
    requires j < |d.durable| && !Paid(d.wire, d.durable[j])
    ensures !AllPaid(d)
  {
    hide Paid;
  }

  lemma ConcludedUnpaid(d: Db, restore: bool, r2: Reply, r3: Reply, w: Work)
    requires d.pending == [] && !Paid(d.wire, w)
    ensures var d' := Concluded(d, restore, r2, r3).0;
            d'.durable == d.durable && !Paid(d'.wire, w)
  {
    StillUnpaid(d.wire, Isolation, w);
    var d2 := if restore then Send(d, Isolation, r2) else d;
    assert d2.pending == [] && d2.durable == d.durable && !Paid(d2.wire, w);
    StillUnpaid(d2.wire, SetAuto(true), w);
    assert d2.durable + [] == d2.durable;
    hide Paid;
  }

  /**
    * In every run the driver's autocommit flag is the server's. Work done with autocommit off is durable only if the
    * COMMAND_COMMIT of its own transaction was sent after it, throughout the run, exactly if no commit takes effect on
    * work that another transaction has not asked to commit.
    */
  lemma DurableOnlyByCommit(actions: seq<Action>)
    ensures Sound(After(START, actions))
    ensures (forall n | 0 <= n <= |actions| :: AllPaid(After(START, actions[..n]))) <==> NoneUsurps(actions)
  {
    hide *;
    RunSound(actions);
    if NoneUsurps(actions) {
      forall n | 0 <= n <= |actions|
        ensures AllPaid(After(START, actions[..n]))
      {
        NoneBefore(actions, n);
        RunSound(actions[..n]);
      }
    } else {
      var n := OneUsurps(actions);
      RunSound(actions[..n]);
      UsurpingBreaks(After(START, actions[..n]), actions[n]);
      AfterTake(actions, n);
      assert !AllPaid(After(START, actions[..n + 1]));
    }
  }

  lemma NoneBefore(actions: seq<Action>, n: nat)
    requires NoneUsurps(actions) && n <= |actions|
    ensures NoneUsurps(actions[..n])
  {
    hide Usurps, After;
    assert forall i | 0 <= i < n :: actions[..n][..i] == actions[..i] && actions[..n][i] == actions[i];
  }

  lemma OneUsurps(actions: seq<Action>) returns (n: nat)
    requires !NoneUsurps(actions)
    ensures n < |actions| && Usurps(After(START, actions[..n]), actions[n])
  {
    hide Usurps, After;
    n :| n < |actions| && Usurps(After(START, actions[..n]), actions[n]);
  }

  /**
    * After a ResetSession that returns no error autocommit is on and nothing is pending, and no reset makes work
    * durable.
    */
  lemma ResetLeavesNothing(actions: seq<Action>, r1: Reply, r2: Reply, r3: Reply)
    ensures var d := After(START, actions);
            var (d', ok) := ResetSession(d, r1, r2, r3);
            d'.durable == d.durable && (ok ==> d'.live && d'.auto && d'.serverAuto && d'.pending == [])
  {
    RunSound(actions);
    ResetKeeps(After(START, actions), r1, r2, r3);
    hide After, Sound, AllPaid;
  }

  /** A successful commit makes exactly the uncommitted work durable, a successful rollback none of it. */
  lemma FinishDoes(actions: seq<Action>, i: nat, rollback: bool, r1: Reply, r2: Reply, r3: Reply)
    requires i < |After(START, actions).txs|
    ensures var d := After(START, actions);
            var (d', ok) := Finish(d, i, rollback, r1, r2, r3);
            && (ok ==> d'.auto && d'.serverAuto && d'.pending == [])
            && (ok ==> d'.durable == if rollback then d.durable else d.durable + d.pending)
  {
    RunSound(actions);
    FinishKeeps(After(START, actions), i, rollback, r1, r2, r3);
    hide After, Sound, AllPaid;
  }

  // ---- Stale commits ----

  /** Exactly when a call of Commit that takes effect makes only its own transaction's work durable. */
  lemma CommitIsOwn(actions: seq<Action>, a: Action)
    requires Commits(After(START, actions), a)
    ensures var d := After(START, actions);
            var d' := Act(d, a);
            && d'.durable == d.durable + d.pending
            && ((forall j | |d.durable| <= j < |d'.durable| :: d'.durable[j].owner == a.i) <==>
                d.pending == [] || d.current == a.i)
  {
    RunSound(actions);
    var d := After(START, actions);
    var d' := Act(d, a);
    hide After, AllPaid;
    CommitTakesAll(d, a);
    hide Act;
    if d.pending != [] {
      assert Waiting(d, d.pending[0]) && d'.durable[|d.durable|] == d.pending[0];
      forall j | |d.durable| <= j < |d'.durable|
        ensures d'.durable[j].owner == d.current
      {
        assert Waiting(d, d.pending[j - |d.durable|]);
      }
    }
  }

  lemma CommitTakesAll(d: Db, a: Action)
    requires Sound(d) && Commits(d, a)
    ensures Act(d, a).durable == d.durable + d.pending
  {
    var d0 := d.(txs := d.txs[a.i := d.txs[a.i].(done := true)]);
    DoneKeeps(d, a.i);
    FirstKeeps(d0, a.i, false, a.r1);
    var d1 := Send(d0, Commit(a.i), a.r1);
    CommitPays(d0, a.i, a.r1);
    FinishRest(d1, d.txs[a.i].restore, a.r2, a.r3);
    hide Send, Paid, Concluded, Sound, AllPaid, Unasked;
  }

  const STALE_RUN: seq<Action> :=
    [DoBegin(false, Ok, Ok, Ok), DoReset(Ok, Ok, Ok), DoBegin(false, Ok, Ok, Ok), DoExec(7, Ok),
     DoFinish(0, false, Ok, Ok, Ok)]

  lemma AfterTake(actions: seq<Action>, i: nat)
    requires i < |actions|
    ensures After(START, actions[..i + 1]) == Act(After(START, actions[..i]), actions[i])
  {
    assert actions[..i + 1][..i] == actions[..i];
  }

  const OPEN := Tx(false, false)
  const BEGUN := Db(true, true, false, false, [], [], [OPEN], 0, [SetAuto(false)])
  const RESET := Db(true, true, true, true, [], [], [OPEN], -1, [SetAuto(false), HasPending, SetAuto(true)])
  const AGAIN :=
    Db(true, true, false, false, [], [], [OPEN, OPEN], 1, [SetAuto(false), HasPending, SetAuto(true), SetAuto(false)])
  const WORKED :=
    Db(true, true, false, false, [Work(7, true, 1, 4)], [], [OPEN, OPEN], 1,
       [SetAuto(false), HasPending, SetAuto(true), SetAuto(false), Run(7)])

  lemma FourSteps()
    ensures Act(START, DoBegin(false, Ok, Ok, Ok)) == BEGUN
    ensures Act(BEGUN, DoReset(Ok, Ok, Ok)) == RESET
    ensures Act(RESET, DoBegin(false, Ok, Ok, Ok)) == AGAIN
    ensures Act(AGAIN, DoExec(7, Ok)) == WORKED
  {
  }

  lemma LastStep()
    ensures var d := Act(WORKED, DoFinish(0, false, Ok, Ok, Ok));
            d.durable == [Work(7, true, 1, 4)] && d.wire == WORKED.wire + [Commit(0), SetAuto(true)]
  {
  }

  lemma AfterFour()
    ensures After(START, STALE_RUN[..4]) == WORKED
  {
    var acts := STALE_RUN;
    assert After(START, acts[..0]) == START;
    AfterTake(acts, 0);
    AfterTake(acts, 1);
    AfterTake(acts, 2);
    AfterTake(acts, 3);
    FourSteps();
    hide After, Act;
  }

  /** A transaction that outlives a reset commits the work of the next one. */
  lemma StaleCommit()
    ensures var d := After(START, STALE_RUN);
            d.durable == [Work(7, true, 1, 4)] && Commit(1) !in d.wire
  {
    AfterFour();
    AfterTake(STALE_RUN, 4);
    assert STALE_RUN[..5] == STALE_RUN;
    LastStep();
    hide After, Act;
  }

  const ASKED_FIRST: seq<Action> :=
    STALE_RUN[..4] + [DoFinish(1, false, Fails, Ok, Ok), DoFinish(0, false, Ok, Ok, Ok)]

  /**
    * A late commit takes the work of another transaction, and yet that work is paid for: its own transaction had sent
    * its commit, which the server refused.
    */
  lemma RefusedThenTaken()
    ensures var d := After(START, ASKED_FIRST);
            d.durable == [Work(7, true, 1, 4)] && AllPaid(d)
    ensures var d := After(START, ASKED_FIRST[..5]);
            Commits(d, ASKED_FIRST[5]) && d.pending != [] && d.current != ASKED_FIRST[5].i && !Unasked(d)
  {
    var acts := ASKED_FIRST;
    AfterFour();
    assert acts[..4] == STALE_RUN[..4] && acts[..6] == acts;
    AfterTake(acts, 4);
    AfterTake(acts, 5);
    Refused();
    Taken();
    hide After, Act, AllPaid, Unasked, Commits;
  }

  const REFUSED :=
    Db(true, true, false, false, [Work(7, true, 1, 4)], [], [OPEN, Tx(true, false)], 1, WORKED.wire + [Commit(1)])

  lemma Refused()
    ensures Act(WORKED, DoFinish(1, false, Fails, Ok, Ok)) == REFUSED
  {
  }

  lemma Taken()
    ensures Commits(REFUSED, DoFinish(0, false, Ok, Ok, Ok)) && !Unasked(REFUSED)
    ensures var d := Act(REFUSED, DoFinish(0, false, Ok, Ok, Ok));
            d.durable == [Work(7, true, 1, 4)] && AllPaid(d)
  {
    var d := Act(REFUSED, DoFinish(0, false, Ok, Ok, Ok));
    assert REFUSED.wire[5] == Commit(1);
    assert d.wire == REFUSED.wire + [Commit(0), SetAuto(true)] && d.wire[5] == Commit(1);
  }

  // ---- At most one commit or rollback per transaction ----

  predicate Ends(r: Request, i: nat) { r == Commit(i) || r == Rollback(i) }

  function Endings(wire: seq<Request>, i: nat): nat {
    if wire == [] then 0 else Endings(wire[..|wire| - 1], i) + if Ends(wire[|wire| - 1], i) then 1 else 0
  }

  predicate Few(d: Db, i: nat) { Endings(d.wire, i) <= if i < |d.txs| && d.txs[i].done then 1 else 0 }

  lemma SendCounts(d: Db, r: Request, reply: Reply, i: nat)
    ensures var d' := Send(d, r, reply);
            d'.txs == d.txs && d'.auto == d.auto
              && Endings(d'.wire, i) <= Endings(d.wire, i) + if Ends(r, i) then 1 else 0
  {
    SendWire(d, r, reply);
    EndingsSnoc(d.wire, r, i);
    hide Send, Endings, Ends;
  }

  lemma SendWire(d: Db, r: Request, reply: Reply)
    ensures var d' := Send(d, r, reply);
            d'.txs == d.txs && d'.auto == d.auto && (d'.wire == d.wire || d'.wire == d.wire + [r])
  {
  }

  lemma EndingsSnoc(wire: seq<Request>, r: Request, i: nat)
    ensures Endings(wire + [r], i) == Endings(wire, i) + if Ends(r, i) then 1 else 0
  {
    assert (wire + [r])[..|wire|] == wire;
    hide Ends;
  }

  lemma BeginFew(d: Db, isolated: bool, r1: Reply, r2: Reply, r3: Reply, i: nat)
    requires Few(d, i)
    ensures Few(BeginTx(d, isolated, r1, r2, r3).0, i)
  {
    SendCounts(d, SetAuto(false), r1, i);
    var d1 := SetAutoCommit(d, false, r1);
    SendCounts(d1, Isolation, r2, i);
    var d2 := Send(d1, Isolation, r2);
    SendCounts(d2, SetAuto(true), r3, i);
    hide Send, Endings;
  }

  lemma FinishFew(d: Db, j: nat, rollback: bool, r1: Reply, r2: Reply, r3: Reply, i: nat)
    requires Few(d, i) && j < |d.txs|
    ensures Few(Finish(d, j, rollback, r1, r2, r3).0, i)
  {
    var d0 := d.(txs := d.txs[j := d.txs[j].(done := true)]);
    var end := if rollback then Rollback(j) else Commit(j);
    assert Ends(end, i) ==> i == j;
    SendCounts(d0, end, r1, i);
    var d1 := Send(d0, end, r1);
    ConcludeFew(d1, d.txs[j].restore, r2, r3, i);
    FinishIs(d, j, rollback, r1, r2, r3);
    var d' := Finish(d, j, rollback, r1, r2, r3).0;
    hide Send, Endings, Concluded, Finish, Ends;
  }

  /** Where finishing can stop. */
  lemma FinishIs(d: Db, j: nat, rollback: bool, r1: Reply, r2: Reply, r3: Reply)
    requires j < |d.txs|
    ensures var d0 := d.(txs := d.txs[j := d.txs[j].(done := true)]);
            var d1 := Send(d0, if rollback then Rollback(j) else Commit(j), r1);
            var d' := Finish(d, j, rollback, r1, r2, r3).0;
            && (d.txs[j].done ==> d' == d)
            && (!d.txs[j].done ==> d' == d || d' == d0 || d' == d1 || d' == Concluded(d1, d.txs[j].restore, r2, r3).0)
  {
    hide Send, Concluded;
  }

  lemma ConcludeFew(d: Db, restore: bool, r2: Reply, r3: Reply, i: nat)
    ensures Concluded(d, restore, r2, r3).0.txs == d.txs
            && Endings(Concluded(d, restore, r2, r3).0.wire, i) <= Endings(d.wire, i)
  {
    SendCounts(d, Isolation, r2, i);
    var d2 := if restore then Send(d, Isolation, r2) else d;
    SendCounts(d2, SetAuto(true), r3, i);
    hide Send, Endings;
  }

  lemma ResetFew(d: Db, r1: Reply, r2: Reply, r3: Reply, i: nat)
    requires Few(d, i)
    ensures Few(ResetSession(d, r1, r2, r3).0, i)
  {
    SendCounts(d, HasPending, r1, i);
    var d1 := Send(d, HasPending, r1);
    SendCounts(d1, Rollback(-1), r2, i);
    var d2 := if d.pending != [] then Send(d1, Rollback(-1), r2) else d1;
    SendCounts(d2, SetAuto(true), r3, i);
    hide Send, Endings;
  }

  lemma ActFew(d: Db, a: Action, i: nat)
    requires Few(d, i)
    ensures Few(Act(d, a), i)
  {
    match a
    case DoBegin(isolated, r1, r2, r3) => BeginFew(d, isolated, r1, r2, r3, i);
    case DoExec(id, r) => SendCounts(d, Run(id), r, i);
    case DoFinish(j, rollback, r1, r2, r3) => if j < |d.txs| { FinishFew(d, j, rollback, r1, r2, r3, i); }
    case DoReset(r1, r2, r3) => ResetFew(d, r1, r2, r3, i);
    case DoClose(r) => SendCounts(d, Rollback(-1), r, i);
  }

  /** In every run a transaction sends at most one commit or rollback, and none before it is finished. */
  lemma {:induction false} OneEnding(actions: seq<Action>, i: nat)
    ensures Few(After(START, actions), i)
  {
    if actions != [] {
      OneEnding(actions[..|actions| - 1], i);
      hide Few, Act;
      ActFew(After(START, actions[..|actions| - 1]), actions[|actions| - 1], i);
    }
  }

  // ---- What a single call means ----

  // ---- What each call asks of a live session, and when it succeeds ----

  /** Autocommit off, the level if one was asked for, and autocommit back on when that was refused. */
  function BeginAsks(isolated: bool, r1: Reply, r2: Reply): seq<Request> {
    [SetAuto(false)] +
    if !r1.Ok? || !isolated then [] else if r2.Fails? then [Isolation, SetAuto(true)] else [Isolation]
  }

  /** The level to restore and autocommit on, unless the session broke before. */
  function ConcludeAsks(restore: bool, r2: Reply): seq<Request> {
    if !restore then [SetAuto(true)] else if r2.Breaks? then [Isolation] else [Isolation, SetAuto(true)]
  }

  /** The ending, and the rest once it succeeded. */
  function FinishAsks(i: nat, rollback: bool, restore: bool, r1: Reply, r2: Reply): seq<Request> {
    [if rollback then Rollback(i) else Commit(i)] + if r1.Ok? then ConcludeAsks(restore, r2) else []
  }

  /** The question, a rollback of what is uncommitted, and autocommit on where it is off; the first failure ends it. */
  function ResetAsks(pending: bool, auto: bool, r1: Reply, r2: Reply): seq<Request> {
    [HasPending] +
    if !r1.Ok? then [] else if pending && !r2.Ok? then [Rollback(-1)]
    else (if pending then [Rollback(-1)] else []) + (if auto then [] else [SetAuto(true)])
  }

  lemma SendIs(d: Db, r: Request, reply: Reply)
    requires d.live
    ensures var d' := Send(d, r, reply);
            && d'.wire == d.wire + [r] && (d'.live <==> !reply.Breaks?) && d'.held == d.held && d'.auto == d.auto
            && (reply.Fails? ==> d' == d.(wire := d.wire + [r]))
            && (!reply.Breaks? ==> d'.serverAuto == if r.SetAuto? && reply.Ok? then r.on else d.serverAuto)
            && (Succeeds(d, reply) <==> reply.Ok?)
  {
  }

  lemma WireJoin(w: seq<Request>, a: Request, b: Request, c: Request)
    ensures w + [a] + [b] == w + [a, b] && w + [a] + [b] + [c] == w + [a, b, c]
    ensures [a] + [b] == [a, b] && [a] + [b, c] == [a, b, c] && [a] + [] == [a] && [a] + ([b] + [c]) == [a, b, c]
    ensures [a] + ([b] + []) == [a, b] && [a] + ([] + [b]) == [a, b]
  {
  }

  /**
    * A transaction that opens is the current one, with autocommit off on both sides and nothing uncommitted. One that
    * does not open leaves a session that is still alive with autocommit on at both ends, unless the request that
    * restores it did not succeed.
    */
  lemma BeginDoes(d: Db, isolated: bool, r1: Reply, r2: Reply, r3: Reply)
    requires Sound(d)
    ensures var (d', ok) := BeginTx(d, isolated, r1, r2, r3);
            && (ok <==> d.held && d.live && d.auto && r1.Ok? && (isolated ==> r2.Ok?))
            && (ok ==> d.auto && d'.live && d'.held && !d'.auto && !d'.serverAuto && d'.pending == [])
            && d'.txs == (if ok then d.txs + [Tx(false, isolated)] else d.txs)
            && d'.current == (if ok then |d.txs| else d.current)
            && d'.wire == d.wire + (if d.held && d.live && d.auto then BeginAsks(isolated, r1, r2) else [])
            && (d.held && d.auto && !ok && d'.live ==>
                  (d'.auto && d'.serverAuto <==> !(isolated && r1.Ok? && r2.Fails? && r3.Fails?)))
  {
    if d.held && d.live && d.auto {
      BeginSteps(d, isolated, r1, r2, r3);
      hide Send;
    }
  }

  lemma BeginSteps(d: Db, isolated: bool, r1: Reply, r2: Reply, r3: Reply)
    requires d.held && d.live && d.auto && Sound(d)
    ensures var (d', ok) := BeginTx(d, isolated, r1, r2, r3);
            && (ok <==> r1.Ok? && (isolated ==> r2.Ok?))
            && (ok ==> d'.live && d'.held && !d'.auto && !d'.serverAuto && d'.pending == [])
            && d'.txs == (if ok then d.txs + [Tx(false, isolated)] else d.txs)
            && d'.current == (if ok then |d.txs| else d.current)
            && d'.wire == d.wire + BeginAsks(isolated, r1, r2)
            && (!ok && d'.live ==>
                  (d'.auto && d'.serverAuto <==> !(isolated && r1.Ok? && r2.Fails? && r3.Fails?)))
  {
    SendIs(d, SetAuto(false), r1);
    WireJoin(d.wire, SetAuto(false), Isolation, SetAuto(true));
    var d1 := SetAutoCommit(d, false, r1);
    if Succeeds(d, r1) && isolated {
      SendIs(d1, Isolation, r2);
      var d2 := Send(d1, Isolation, r2);
      if d2.live { SendIs(d2, SetAuto(true), r3); }
    }
  }

  /** Finishing succeeds exactly when every request it needs does. */
  lemma FinishAnswers(d: Db, i: nat, rollback: bool, r1: Reply, r2: Reply, r3: Reply)
    requires i < |d.txs|
    ensures var (d', ok) := Finish(d, i, rollback, r1, r2, r3);
            var t := d.txs[i];
            && (ok <==> !t.done && d.held && d.live && r1.Ok? && (t.restore ==> r2.Ok?) && r3.Ok?)
            && d'.wire == d.wire + (if t.done || !d.held || !d.live then []
                                    else FinishAsks(i, rollback, t.restore, r1, r2))
            && (!t.done && d'.live && d.held && !r1.Ok? ==>
                  && d'.auto == d.auto && d'.serverAuto == d.serverAuto
                  && d'.pending == d.pending && d'.durable == d.durable)
            && (!t.done && d'.live && d.held && r1.Ok? ==>
                d'.auto == (d.auto || r3.Ok?) && d'.serverAuto == (d.serverAuto || r3.Ok?))
  {
    hide Ended, FinishAsks;
    var t := d.txs[i];
    if !t.done && d.held && d.live {
      EndedAnswers(d.(txs := d.txs[i := t.(done := true)]), i, rollback, r1, r2, r3);
    }
  }

  lemma EndedAnswers(d: Db, i: nat, rollback: bool, r1: Reply, r2: Reply, r3: Reply)
    requires i < |d.txs| && d.live
    ensures var (d', ok) := Ended(d, i, rollback, r1, r2, r3);
            && (ok <==> r1.Ok? && (d.txs[i].restore ==> r2.Ok?) && r3.Ok?)
            && d'.wire == d.wire + FinishAsks(i, rollback, d.txs[i].restore, r1, r2)
            && (d'.live && !r1.Ok? ==>
                  && d'.auto == d.auto && d'.serverAuto == d.serverAuto
                  && d'.pending == d.pending && d'.durable == d.durable)
            && (d'.live && r1.Ok? ==> d'.auto == (d.auto || r3.Ok?) && d'.serverAuto == (d.serverAuto || r3.Ok?))
  {
    hide Send, Concluded, ConcludeAsks;
    var end := if rollback then Rollback(i) else Commit(i);
    SendIs(d, end, r1);
    if r1.Ok? {
      var more := ConcludeAsks(d.txs[i].restore, r2);
      ConcludeAnswers(Send(d, end, r1), d.txs[i].restore, r2, r3);
      assert d.wire + [end] + more == d.wire + ([end] + more);
    }
  }

  lemma ConcludeAnswers(d: Db, restore: bool, r2: Reply, r3: Reply)
    requires d.live
    ensures var (d', ok) := Concluded(d, restore, r2, r3);
            && (ok <==> (restore ==> r2.Ok?) && r3.Ok?) && d'.wire == d.wire + ConcludeAsks(restore, r2)
            && (d'.live ==> d'.auto == (d.auto || r3.Ok?) && d'.serverAuto == (d.serverAuto || r3.Ok?))
  {
    WireJoin(d.wire, Isolation, SetAuto(true), SetAuto(true));
    if restore { SendIs(d, Isolation, r2); }
    var d2 := if restore then Send(d, Isolation, r2) else d;
    if d2.live { SendIs(d2, SetAuto(true), r3); }
    DeadSilent(d2, r3);
    hide Send;
  }

  lemma DeadSilent(d: Db, reply: Reply)
    ensures !d.live ==> SetAutoCommit(d, true, reply) == d && !Succeeds(d, reply)
  {
  }

  /** A reset succeeds exactly when every request it needs does. */
  lemma ResetAnswers(d: Db, r1: Reply, r2: Reply, r3: Reply)
    ensures var (d', ok) := ResetSession(d, r1, r2, r3);
            && (ok <==> d.held && d.live && r1.Ok? && (d.pending != [] ==> r2.Ok?) && (!d.auto ==> r3.Ok?))
            && d'.wire == d.wire + if d.held && d.live then ResetAsks(d.pending != [], d.auto, r1, r2) else []
  {
    if d.held && d.live {
      SendIs(d, HasPending, r1);
      WireJoin(d.wire, HasPending, Rollback(-1), SetAuto(true));
      WireJoin(d.wire, HasPending, SetAuto(true), SetAuto(true));
      if r1.Ok? {
        var d1 := Send(d, HasPending, r1);
        if d.pending != [] { SendIs(d1, Rollback(-1), r2); }
        var d2 := if d.pending != [] then Send(d1, Rollback(-1), r2) else d1;
        if d2.live { SendIs(d2, SetAuto(true), r3); }
      }
      hide Send;
    }
  }

  /** Closing rolls an open transaction back, and asks nothing where autocommit is on or the session is gone. */
  lemma CloseAsks(d: Db, reply: Reply)
    ensures Close(d, reply).wire == d.wire + if d.held && d.live && !d.auto then [Rollback(-1)] else []
    ensures d.held ==> !Close(d, reply).live && !Close(d, reply).held
  {
    if d.live { SendIs(d, Rollback(-1), reply); }
  }

  lemma FinishMarks(d: Db, i: nat, rollback: bool, r1: Reply, r2: Reply, r3: Reply)
    requires i < |d.txs|
    ensures var (d', ok) := Finish(d, i, rollback, r1, r2, r3);
            && (d.txs[i].done ==> !ok && d' == d)
            && d'.txs == (if d.held then d.txs[i := d.txs[i].(done := true)] else d.txs)
  {
    hide Send, Ended, Concluded;
    if d.txs[i].done {
      assert d.txs[i := d.txs[i].(done := true)] == d.txs;
    } else if d.held && d.live {
      EndedTxs(d.(txs := d.txs[i := d.txs[i].(done := true)]), i, rollback, r1, r2, r3);
    }
  }

  lemma EndedTxs(d: Db, i: nat, rollback: bool, r1: Reply, r2: Reply, r3: Reply)
    requires i < |d.txs|
    ensures Ended(d, i, rollback, r1, r2, r3).0.txs == d.txs
  {
    var end := if rollback then Rollback(i) else Commit(i);
    SendWire(d, end, r1);
    ConcludedTxs(Send(d, end, r1), d.txs[i].restore, r2, r3);
    hide Send, Concluded;
  }

  lemma ConcludedTxs(d: Db, restore: bool, r2: Reply, r3: Reply)
    ensures Concluded(d, restore, r2, r3).0.txs == d.txs
  {
    SendWire(d, Isolation, r2);
    var d2 := if restore then Send(d, Isolation, r2) else d;
    SendWire(d2, SetAuto(true), r3);
    hide Send;
  }

  lemma ResetOrDead(d: Db, r1: Reply, r2: Reply, r3: Reply)
    ensures var (d', ok) := ResetSession(d, r1, r2, r3);
            d'.txs == d.txs && (!ok ==> !d'.live || !d.held)
  {
    SendWire(d, HasPending, r1);
    var d1 := Send(d, HasPending, r1);
    SendWire(d1, Rollback(-1), r2);
    var d2 := if d.pending != [] then Send(d1, Rollback(-1), r2) else d1;
    SendWire(d2, SetAuto(true), r3);
    hide Send;
  }

  // ---- The driver's methods ----

  /** The state that is not the driver's own: the transport and the server behind it. */
  datatype World =
    World(live: bool, serverAuto: bool, pending: seq<Work>, durable: seq<Work>, current: int, wire: seq<Request>)

  class TxSession {
    var world: World
    var held: bool
    var autoCommit: bool
    var txs: seq<Tx>

    function View(): Db
      reads this
    {
      Db(world.live, held, autoCommit, world.serverAuto, world.pending, world.durable, txs, world.current, world.wire)
    }

    /** Driver and server agree, and whatever is uncommitted belongs to the current transaction. */
    ghost predicate Valid()
      reads this
    {
      Sound(View())
    }

    constructor ()
      ensures Valid() && View() == START
    {
      world, held, autoCommit, txs := World(true, true, [], [], -1, []), true, true, [];
    }

    /** The server carries a request out. */
    method Serve(r: Request)
      requires |world.wire| > 0
      modifies this
      ensures View() == Effect(old(View()), r) && held == old(held)
    {
      match r
      case SetAuto(on) =>
        if on {
          world := world.(serverAuto := true, durable := world.durable + world.pending, pending := []);
        } else {
          world := world.(serverAuto := false);
        }
      case Commit(_) => world := world.(durable := world.durable + world.pending, pending := []);
      case Rollback(_) => world := world.(pending := []);
      case Run(id) =>
        var w := Work(id, !world.serverAuto, world.current, |world.wire| - 1);
        if world.serverAuto {
          world := world.(durable := world.durable + [w]);
        } else {
          world := world.(pending := world.pending + [w]);
        }
      case Isolation =>
      case HasPending =>
    }

    /** One request and the reading of its answer. */
    method Request(r: Request, reply: Reply) returns (ok: bool)
      modifies this
      ensures View() == Send(old(View()), r, reply) && ok == Succeeds(old(View()), reply) && held == old(held)
    {
      hide Effect;
      if !world.live { return false; }
      world := world.(wire := world.wire + [r]);
      if reply.Ok? || (reply.Breaks? && reply.effect) {
        Serve(r);
      }
      if reply.Breaks? {
        Kill();
      }
      return reply.Ok?;
    }

    method Kill()
      modifies this
      ensures View() == Abort(old(View()))
    {
      world := world.(live := false, pending := []);
    }

    method Switch(on: bool, reply: Reply) returns (ok: bool)
      modifies this
      ensures View() == SetAutoCommit(old(View()), on, reply) && ok == Succeeds(old(View()), reply) && held == old(held)
    {
      hide Send;
      ok := Request(SetAuto(on), reply);
      if ok { autoCommit := on; }
    }

    /**
      * On success the caller has the only open span of work: autocommit is off on both sides and nothing of anyone
      * else is uncommitted. On failure a live session has autocommit on at both ends, unless the request to switch it
      * back on failed too. No call makes work durable.
      */
    method Begin(isolated: bool, r1: Reply, r2: Reply, r3: Reply) returns (ok: bool)
      requires Valid()
      modifies this
      ensures Valid() && (View(), ok) == BeginTx(old(View()), isolated, r1, r2, r3)
      ensures world.durable == old(world.durable)
      ensures ok ==> world.live && !autoCommit && !world.serverAuto && world.pending == []
      ensures ok ==> world.current == |old(txs)|
      ensures ok <==> old(held) && old(world.live) && old(autoCommit) && r1.Ok? && (isolated ==> r2.Ok?)
      ensures txs == if ok then old(txs) + [Tx(false, isolated)] else old(txs)
      ensures old(held) && old(autoCommit) && !ok && world.live ==>
                (autoCommit && world.serverAuto <==> !(isolated && r1.Ok? && r2.Fails? && r3.Fails?))
      ensures world.wire == old(world.wire) +
                            if old(held) && old(world.live) && old(autoCommit) then BeginAsks(isolated, r1, r2) else []
    {
      BeginKeeps(View(), isolated, r1, r2, r3);
      BeginDoes(View(), isolated, r1, r2, r3);
      hide Send, Sound, AllPaid;
      if !held || !world.live { return false; }
      if !autoCommit { return false; }
      ok := Switch(false, r1);
      if !ok { return; }
      if isolated {
        ok := Request(Isolation, r2);
        if !ok {
          var restored := Switch(true, r3);
          return;
        }
      }
      world := world.(current := |txs|);
      txs := txs + [Tx(false, isolated)];
    }

    /**
      * A commit that succeeds makes exactly the uncommitted work durable; a rollback makes none, whatever happens. On
      * success autocommit is on again on both sides. A transaction is finished by its first call and refuses the next.
      */
    method End(i: nat, rollback: bool, r1: Reply, r2: Reply, r3: Reply) returns (ok: bool)
      requires Valid() && i < |txs|
      modifies this
      ensures Valid() && (View(), ok) == Finish(old(View()), i, rollback, r1, r2, r3)
      ensures ok ==> world.live && autoCommit && world.serverAuto && world.pending == []
      ensures ok && !rollback ==> world.durable == old(world.durable) + old(world.pending)
      ensures rollback ==> world.durable == old(world.durable)
      ensures old(txs[i].done) ==> !ok && View() == old(View())
      ensures txs == if held then old(txs)[i := old(txs[i]).(done := true)] else old(txs)
      ensures var t := old(txs[i]);
              && (ok <==> !t.done && held && old(world.live) && r1.Ok? && (t.restore ==> r2.Ok?) && r3.Ok?)
              && world.wire == old(world.wire) + if !t.done && held && old(world.live)
                                                 then FinishAsks(i, rollback, t.restore, r1, r2) else []
    {
      hide Finish, Sound, AllPaid, Usurps, FinishAsks;
      FinishAnswers(View(), i, rollback, r1, r2, r3);
      FinishKeeps(View(), i, rollback, r1, r2, r3);
      FinishMarks(View(), i, rollback, r1, r2, r3);
      ok := Settle(i, rollback, r1, r2, r3);
    }

    method Settle(i: nat, rollback: bool, r1: Reply, r2: Reply, r3: Reply) returns (ok: bool)
      requires i < |txs|
      modifies this
      ensures (View(), ok) == Finish(old(View()), i, rollback, r1, r2, r3) && held == old(held)
    {
      hide Ended;
      if txs[i].done || !held { return false; }
      txs := txs[i := txs[i].(done := true)];
      if !world.live { return false; }
      ok := Ask(i, rollback, r1, r2, r3);
    }

    method Ask(i: nat, rollback: bool, r1: Reply, r2: Reply, r3: Reply) returns (ok: bool)
      requires i < |txs|
      modifies this
      ensures (View(), ok) == Ended(old(View()), i, rollback, r1, r2, r3) && held == old(held)
    {
      hide Send, Concluded;
      var restore := txs[i].restore;
      ok := Request(if rollback then Rollback(i) else Commit(i), r1);
      if ok { ok := Conclude(restore, r2, r3); }
    }

    method Conclude(restore: bool, r2: Reply, r3: Reply) returns (ok: bool)
      modifies this
      ensures (View(), ok) == Concluded(old(View()), restore, r2, r3) && held == old(held)
    {
      hide Send;
      var restored := true;
      if restore { restored := Request(Isolation, r2); }
      ok := Switch(true, r3);
      ok := ok && restored;
      if world.serverAuto { world := world.(current := -1); }
    }

    /**
      * The next user of the connection finds autocommit on and nothing uncommitted, or the session dead. What the last
      * one left uncommitted does not become durable.
      */
    method Reset(r1: Reply, r2: Reply, r3: Reply) returns (ok: bool)
      requires Valid()
      modifies this
      ensures Valid() && (View(), ok) == ResetSession(old(View()), r1, r2, r3)
      ensures world.durable == old(world.durable) && txs == old(txs)
      ensures ok ==> world.live && autoCommit && world.serverAuto && world.pending == []
      ensures !ok ==> !world.live || !held
      ensures world.wire == old(world.wire) + if held && old(world.live)
                                              then ResetAsks(old(world.pending) != [], old(autoCommit), r1, r2) else []
    {
      ResetAnswers(View(), r1, r2, r3);
      ResetKeeps(View(), r1, r2, r3);
      ResetOrDead(View(), r1, r2, r3);
      hide Send, Sound, AllPaid;
      if !held || !world.live { return false; }
      var pending := world.pending != [];
      ok := Request(HasPending, r1);
      if !ok { Kill(); return; }
      if pending {
        ok := Request(Rollback(-1), r2);
        if !ok { Kill(); return; }
      }
      if !autoCommit {
        ok := Switch(true, r3);
        if !ok { Kill(); return; }
        world := world.(current := -1);
      }
    }

    /** Nothing uncommitted becomes durable, and no call reaches the server any more. */
    method Shut(reply: Reply)
      requires Valid()
      modifies this
      ensures Valid() && View() == Close(old(View()), reply)
      ensures !held && world.durable == old(world.durable) && (old(held) ==> !world.live && world.pending == [])
      ensures world.wire == old(world.wire) +
                            if old(held) && old(world.live) && !old(autoCommit) then [Rollback(-1)] else []
    {
      CloseAsks(View(), reply);
      CloseKeeps(View(), reply);
      hide Send, Sound, AllPaid;
      if !held { return; }
      if !autoCommit { var ignored := Request(Rollback(-1), reply); }
      Kill();
      held := false;
    }
  }
}
