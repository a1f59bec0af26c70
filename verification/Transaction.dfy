/**
 pkg/db/transaction.go: the wrapper around a database transaction and the goroutine that rolls it back on a timeout.
 Each mutex section is one step, except that the goroutine's own section shows the underlying rollback inside it.
 The calls on the underlying transaction are steps outside the mutex.
 */
module Transactions {
  import opened Text
  import opened Guard

  datatype Status = Active | Committed | RolledBack

  /** The fields under the mutex; the done channel is counted by its closes. */
  datatype Wrapper = Wrapper(status: Status, doneCloses: nat)

  /**
   The underlying one-shot transaction: the statements it holds, and the statements the database has applied for good.
   */
  datatype Under = Under(open: bool, pending: seq<string>, db: seq<string>)

  /** The auto-rollback goroutine: it holds the mutex while Holding and Undone. */
  datatype Timer = Waiting | Woken | Holding | Undone | Leaving | Gone

  datatype Tx = Tx(
    wrapper: Wrapper, under: Under, timer: Timer, ctxFired: bool, parentCancelled: bool,
    disturbed: bool)  // a timeout or a cancellation from outside has happened

  function Begun(db: seq<string>): Tx {
    Tx(Wrapper(Active, 0), Under(true, [], db), Waiting, false, false, false)
  }

  // ---- Mutex sections --------------------------------------------------------------------------

  function MarkedCommitted(w: Wrapper): (r: (Wrapper, bool)) {
    match w.status
    case Active => (Wrapper(Committed, w.doneCloses + 1), true)
    case _ => (w, false)
  }

  function MarkedRolledBack(w: Wrapper): (r: (Wrapper, bool)) {
    match w.status
    case Active => (Wrapper(RolledBack, w.doneCloses + 1), true)
    case RolledBack => (w, true)
    case Committed => (w, false)
  }

  predicate MutexFree(t: Tx) {
    t.timer != Holding && t.timer != Undone
  }

  // ---- Calls on the underlying transaction -----------------------------------------------------

  /**
   A commit is applied, or fails and ends the transaction unapplied, or is refused because the parent context is
   cancelled.
   */
  datatype CommitOutcome = Accepted | Failed | Refused

  function CommitUnder(u: Under, o: CommitOutcome): (r: (Under, bool)) {
    if !u.open || o == Refused then (u, false)
    else if o == Accepted then (Under(false, [], u.db + u.pending), true)
    else (Under(false, [], u.db), false)
  }

  function RollbackUnder(u: Under, ok: bool): (r: (Under, bool)) {
    if !u.open then (u, false) else (Under(false, [], u.db), ok)
  }

  function ExecUnder(u: Under, stmt: string, ok: bool): (r: (Under, bool)) {
    if u.open && ok then (u.(pending := u.pending + [stmt]), true) else (u, false)
  }

  // ---- The environment -------------------------------------------------------------------------

  datatype EnvEvent =
    | Timeout          // the derived context expires
    | CancelParent     // the caller's context is cancelled, and the derived one with it
    | DriverRollback   // database/sql ends a transaction whose context was cancelled
    | TimerWake | TimerSeesDone | TimerLock | TimerRollback | TimerMark | TimerLeave

  predicate EnvEnabled(t: Tx, e: EnvEvent) {
    match e
    case Timeout => true
    case CancelParent => true
    case DriverRollback => t.parentCancelled && t.under.open
    case TimerWake => t.timer == Waiting && t.ctxFired
    case TimerSeesDone => t.timer == Waiting && t.wrapper.doneCloses > 0
    case TimerLock => t.timer == Woken
    case TimerRollback => t.timer == Holding
    case TimerMark => t.timer == Undone
    case TimerLeave => t.timer == Leaving
  }

  function EnvApply(t: Tx, e: EnvEvent): Tx {
    match e
    case Timeout => t.(ctxFired := true, disturbed := true)
    case CancelParent => t.(ctxFired := true, parentCancelled := true, disturbed := true)
    case DriverRollback => t.(under := RollbackUnder(t.under, true).0)
    case TimerWake => t.(timer := Woken)
    case TimerSeesDone => t.(timer := Leaving)
    case TimerLock => t.(timer := if t.wrapper.status == Active then Holding else Leaving)
    case TimerRollback => t.(timer := Undone, under := RollbackUnder(t.under, true).0)
    case TimerMark => t.(timer := Leaving, wrapper := t.wrapper.(status := RolledBack))
    case TimerLeave => t.(timer := Gone, ctxFired := true)
  }

  /** `events`, one after the other, lead from `t` to `t'`. */
  predicate EnvRun(t: Tx, events: seq<EnvEvent>, t': Tx)
    decreases events
  {
    if events == [] then t == t'
    else EnvEnabled(t, events[0]) && EnvRun(EnvApply(t, events[0]), events[1..], t')
  }

  lemma {:induction false} EnvRunExtend(t: Tx, events: seq<EnvEvent>, t': Tx, e: EnvEvent)
    requires EnvRun(t, events, t') && EnvEnabled(t', e)
    ensures EnvRun(t, events + [e], EnvApply(t', e))
    decreases events
  {
    if events == [] {
      assert events + [e] == [e] && [e][1..] == [];
    } else {
      assert (events + [e])[1..] == events[1..] + [e];
      EnvRunExtend(EnvApply(t, events[0]), events[1..], t', e);
    }
  }

  // ---- Invariant -------------------------------------------------------------------------------

  /** done is closed at most once, and stays open in a terminal state only after the auto-rollback. */
  predicate TxInv(t: Tx) {
    && t.wrapper.doneCloses <= 1
    && (t.wrapper.status == Active ==> t.wrapper.doneCloses == 0)
    && (t.wrapper.status == Committed ==> t.wrapper.doneCloses == 1)
    && (t.wrapper.status == RolledBack && t.wrapper.doneCloses == 0 ==> t.timer == Leaving || t.timer == Gone)
    && (t.timer == Holding || t.timer == Undone ==> t.wrapper.status == Active)
    && (t.timer == Leaving || t.timer == Gone ==> t.wrapper.status != Active)
    && (t.timer == Undone ==> !t.under.open)
    && (t.wrapper.status == RolledBack && t.wrapper.doneCloses == 0 ==> !t.under.open)
    && (t.parentCancelled || t.timer == Woken || t.timer == Holding || t.timer == Undone ==> t.disturbed)
    && (t.timer == Waiting && t.ctxFired ==> t.disturbed)
    && (t.timer == Gone ==> t.ctxFired)
  }

  /**
   What the environment leaves to a caller: behind a timeout or a cancellation it can end the underlying transaction
   and mark it rolled back, and nothing else.
   */
  predicate Later(t: Tx, t': Tx) {
    && t'.under.db == t.under.db
    && (if t'.under.open then t.under.open && t'.under.pending == t.under.pending
        else t.under.open || t'.under == t.under)
    && (t.wrapper.status != Active ==> t'.wrapper == t.wrapper)
    && (t'.wrapper == t.wrapper || t'.wrapper == Wrapper(RolledBack, t.wrapper.doneCloses))
    && (t'.wrapper != t.wrapper ==> !t'.under.open)
    && (t.parentCancelled ==> t'.parentCancelled) && (t.disturbed ==> t'.disturbed)
    && (t'.wrapper != t.wrapper || t'.under.open != t.under.open ==> t'.disturbed)
  }

  lemma EnvStepKeeps(t: Tx, e: EnvEvent)
    requires TxInv(t) && EnvEnabled(t, e)
    ensures TxInv(EnvApply(t, e)) && Later(t, EnvApply(t, e))
  {}

  lemma {:induction false} EnvRunKeeps(t: Tx, events: seq<EnvEvent>, t': Tx)
    requires TxInv(t) && EnvRun(t, events, t')
    ensures TxInv(t') && Later(t, t')
    decreases events
  {
    if events == [] {
    } else {
      EnvStepKeeps(t, events[0]);
      EnvRunKeeps(EnvApply(t, events[0]), events[1..], t');
    }
  }

  predicate IsTimerStep(e: EnvEvent) {
    e != Timeout && e != CancelParent && e != DriverRollback
  }

  function TimerRank(timer: Timer): nat {
    match timer
    case Waiting => 5
    case Woken => 4
    case Holding => 3
    case Undone => 2
    case Leaving => 1
    case Gone => 0
  }

  /**
   Once the transaction is over the goroutine can always go on towards its exit, and each of its steps brings it
   closer.
   */
  lemma TimerAlwaysLeaves(t: Tx)
    requires TxInv(t)
    ensures t.wrapper.status != Active && t.timer != Gone ==> exists e :: IsTimerStep(e) && EnvEnabled(t, e)
    ensures t.ctxFired && t.timer != Gone ==> exists e :: IsTimerStep(e) && EnvEnabled(t, e)
    ensures !MutexFree(t) ==> exists e :: IsTimerStep(e) && EnvEnabled(t, e)
    ensures forall e | IsTimerStep(e) && EnvEnabled(t, e) :: TimerRank(EnvApply(t, e).timer) < TimerRank(t.timer)
  {
    match t.timer
    case Waiting =>
      assert t.wrapper.status != Active ==> EnvEnabled(t, TimerSeesDone);
      assert t.ctxFired ==> EnvEnabled(t, TimerWake);
    case Woken => assert EnvEnabled(t, TimerLock);
    case Holding => assert EnvEnabled(t, TimerRollback);
    case Undone => assert EnvEnabled(t, TimerMark);
    case Leaving => assert EnvEnabled(t, TimerLeave);
    case Gone =>
  }

  /** The goroutine's way from here to its exit: once the context has fired it needs nobody else. */
  lemma {:induction false} TimerRun(t: Tx) returns (events: seq<EnvEvent>, t': Tx)
    requires TxInv(t) && t.ctxFired
    ensures EnvRun(t, events, t') && t'.timer == Gone && forall e | e in events :: IsTimerStep(e)
    decreases TimerRank(t.timer)
  {
    if t.timer == Gone {
      events, t' := [], t;
    } else {
      TimerAlwaysLeaves(t);
      var e :| IsTimerStep(e) && EnvEnabled(t, e);
      EnvStepKeeps(t, e);
      var rest;
      rest, t' := TimerRun(EnvApply(t, e));
      events := [e] + rest;
      assert events[1..] == rest;
    }
  }

  /**
   A timeout or a cancellation of an active transaction ends in a rollback: by the goroutine's steps alone, and
   whatever else happens, it cannot leave otherwise.
   */
  lemma AutoRollback(t: Tx, e: EnvEvent)
    requires TxInv(t) && t.wrapper.status == Active && (e == Timeout || e == CancelParent)
    ensures exists events, t' ::
      && EnvRun(EnvApply(t, e), events, t') && t'.timer == Gone
      && forall d | d in events :: IsTimerStep(d)
    ensures forall events, t' | EnvRun(EnvApply(t, e), events, t') && t'.timer == Gone ::
      t'.wrapper.status == RolledBack && !t'.under.open && t'.under.db == t.under.db
  {
    var fired := EnvApply(t, e);
    EnvStepKeeps(t, e);
    var events, t' := TimerRun(fired);
    assert EnvRun(fired, events, t');
    forall events, t' | EnvRun(fired, events, t') && t'.timer == Gone
      ensures t'.wrapper.status == RolledBack && !t'.under.open && t'.under.db == t.under.db
    {
      EnvRunKeeps(fired, events, t');
    }
  }

  // ---- The object ------------------------------------------------------------------------------

  datatype TxError = TxDone | Guarded(guard: GuardError) | DriverError

  /** What a statement meets where nothing else interferes: the guards, then the driver. */
  function ExecError(policy: Policy, rejectNoWhere: bool, stmt: string, driverOk: bool): Option<TxError> {
    var guarded := ExecGuard(policy, rejectNoWhere, stmt);
    if guarded.Some? then Some(Guarded(guarded.value)) else if driverOk then None else Some(DriverError)
  }

  /** A statement is accepted where both guards and the driver let it pass; the guards answer first. */
  lemma ExecErrorMeaning(policy: Policy, rejectNoWhere: bool, stmt: string, driverOk: bool)
    ensures ExecError(policy, rejectNoWhere, stmt, driverOk) == None <==>
      driverOk && ExecGuard(policy, rejectNoWhere, stmt) == None
    ensures ExecError(policy, rejectNoWhere, stmt, driverOk) == Some(DriverError) <==>
      !driverOk && ExecGuard(policy, rejectNoWhere, stmt) == None
    ensures forall g :: ExecError(policy, rejectNoWhere, stmt, driverOk) == Some(Guarded(g)) <==>
      ExecGuard(policy, rejectNoWhere, stmt) == Some(g)
  {}

  class Transaction {
    const policy: Policy
    const rejectNoWhere: bool
    var status: Status
    var doneCloses: nat
    var under: Under
    var timer: Timer
    var ctxFired: bool
    var parentCancelled: bool
    var disturbed: bool

    function View(): Tx
      reads this
    {
      Tx(Wrapper(status, doneCloses), under, timer, ctxFired, parentCancelled, disturbed)
    }

    constructor (db: seq<string>, policy: Policy, rejectNoWhere: bool)
      ensures View() == Begun(db) && this.policy == policy && this.rejectNoWhere == rejectNoWhere
    {
      this.policy, this.rejectNoWhere := policy, rejectNoWhere;
      this.status, this.doneCloses, this.under := Active, 0, Under(true, [], db);
      this.timer, this.ctxFired, this.parentCancelled, this.disturbed := Waiting, false, false, false;
    }

    method EnvStep(e: EnvEvent)
      requires EnvEnabled(View(), e)
      modifies this
      ensures View() == EnvApply(old(View()), e)
    {
      var t := EnvApply(View(), e);
      status, doneCloses, under := t.wrapper.status, t.wrapper.doneCloses, t.under;
      timer, ctxFired, parentCancelled, disturbed := t.timer, t.ctxFired, t.parentCancelled, t.disturbed;
    }

    /** Any number of environment steps, in any order, between two steps of the caller. */
    method Interfere()
      modifies this
      ensures exists events :: EnvRun(old(View()), events, View())
    {
      ghost var events: seq<EnvEvent> := [];
      var steps: nat := *;
      while steps > 0
        invariant EnvRun(old(View()), events, View())
      {
        var e: EnvEvent := *;
        if EnvEnabled(View(), e) {
          EnvRunExtend(old(View()), events, View(), e);
          EnvStep(e);
          events := events + [e];
        }
        steps := steps - 1;
      }
    }

    /** Waiting for the mutex: the goroutine, if it holds it, comes to the end of its section. */
    method Lock()
      requires TxInv(View())
      modifies this
      ensures TxInv(View()) && Later(old(View()), View()) && MutexFree(View())
    {
      Interfere();
      ghost var events :| EnvRun(old(View()), events, View());
      EnvRunKeeps(old(View()), events, View());
      if timer == Holding {
        EnvStepKeeps(View(), TimerRollback);
        EnvStep(TimerRollback);
      }
      if timer == Undone {
        EnvStepKeeps(View(), TimerMark);
        EnvStep(TimerMark);
      }
    }

    method Wait()
      requires TxInv(View())
      modifies this
      ensures TxInv(View()) && Later(old(View()), View())
    {
      Interfere();
      ghost var events :| EnvRun(old(View()), events, View());
      EnvRunKeeps(old(View()), events, View());
    }

    method CheckActive() returns (error: Option<TxError>)
      ensures error == if status == Active then None else Some(TxDone)
    {
      error := if status != Active then Some(TxDone) else None;
    }

    method MarkCommitted() returns (ok: bool)
      modifies this
      ensures (View().wrapper, ok) == MarkedCommitted(old(View()).wrapper)
      ensures View() == old(View()).(wrapper := View().wrapper)
    {
      match status
      case Committed => ok := false;
      case RolledBack => ok := false;
      case Active =>
        status, doneCloses := Committed, doneCloses + 1;
        ok := true;
    }

    method MarkRolledBack() returns (ok: bool)
      modifies this
      ensures (View().wrapper, ok) == MarkedRolledBack(old(View()).wrapper)
      ensures View() == old(View()).(wrapper := View().wrapper)
    {
      match status
      case Committed => ok := false;
      case RolledBack => ok := true;
      case Active =>
        status, doneCloses := RolledBack, doneCloses + 1;
        ok := true;
    }

    /** Under every interleaving: success means everything pending was applied, an error means nothing was. */
    method Commit(outcome: CommitOutcome) returns (error: Option<TxError>)
      requires TxInv(View())
      modifies this
      ensures TxInv(View()) && status != Active
      ensures error == None ==>
        old(status) == Active && old(under.open) && !under.open && under.db == old(under.db + under.pending)
      ensures error != None ==> under.db == old(under.db)
      ensures old(status) == Active && status == RolledBack ==> error != None
      ensures under.open ==> old(under.open) && (old(status) == Active ==> parentCancelled)
      ensures (old(disturbed) ==> disturbed) && (old(status) == Active && error == Some(TxDone) ==> disturbed)
      ensures error == None ==> outcome == Accepted
      ensures old(status) != Active ==> error == Some(TxDone) && status == old(status)
      ensures error == None || error == Some(TxDone) || error == Some(DriverError)
      ensures old(status) == Active && old(under.open) && outcome == Accepted && error != None ==> disturbed
    {
      Lock();
      var ok := MarkCommitted();
      if !ok {
        return Some(TxDone);
      }
      Wait();
      var answer := if outcome == Refused && !parentCancelled then Failed else outcome;
      var (u, applied) := CommitUnder(under, answer);
      under := u;
      error := if applied then None else Some(DriverError);
    }

    /** Under every interleaving the database keeps its state, and the wrapper is no longer active. */
    method Rollback(driverOk: bool) returns (error: Option<TxError>)
      requires TxInv(View())
      modifies this
      ensures TxInv(View()) && status != Active && under.db == old(under.db)
      ensures status == (if old(status) == Committed then Committed else RolledBack)
      ensures status == RolledBack ==> !under.open
      ensures old(disturbed) ==> disturbed
      ensures error == Some(TxDone) <==> old(status) == Committed
      ensures !old(under.open) && old(status) != Committed ==> error == Some(DriverError)
      ensures error == None ==> driverOk && doneCloses == 1
      ensures old(status) == Active && old(under.open) && driverOk && error != None ==> disturbed
      ensures error == None ==> old(under.open) && status == RolledBack
    {
      Lock();
      var ok := MarkRolledBack();
      if !ok {
        return Some(TxDone);
      }
      Wait();
      var (u, undone) := RollbackUnder(under, driverOk);
      under := u;
      error := if undone then None else Some(DriverError);
    }

    /**
     Under every interleaving: success adds the statement behind those before it, an error adds nothing. In a
     transaction that is still alive afterwards, the answer is that of the guards and of the driver.
     */
    method Exec(stmt: string, driverOk: bool) returns (error: Option<TxError>)
      requires TxInv(View())
      modifies this
      ensures TxInv(View()) && under.db == old(under.db)
      ensures error == None ==> old(under.open) && ExecGuard(policy, rejectNoWhere, stmt) == None
      ensures under.open ==>
        old(under.open) && under.pending == old(under.pending) + (if error == None then [stmt] else [])
      ensures old(status) != Active ==> error == Some(TxDone)
      ensures status == Active && under.open ==> error == ExecError(policy, rejectNoWhere, stmt, driverOk)
      ensures (old(disturbed) ==> disturbed) && (status != old(status) || under.open != old(under.open) ==> disturbed)
      ensures status == old(status) || (old(status) == Active && status == RolledBack && !under.open)
    {
      Lock();
      error := CheckActive();
      if error.Some? {
        return;
      }
      var guarded := ExecGuard(policy, rejectNoWhere, stmt);
      if guarded.Some? {
        return Some(Guarded(guarded.value));
      }
      Wait();
      var (u, done) := ExecUnder(under, stmt, driverOk);
      under := u;
      error := if done then None else Some(DriverError);
      Wait();
    }
  }
}
