/** Any number of threads sharing one transaction of pkg/db/transaction.go, racing the timeout goroutine. */
module TxClients {
  import opened Transactions

  /** A call that is past its mutex section and has not reached the underlying transaction yet. */
  datatype Call = Committing | RollingBack | Executing(stmt: string)

  datatype State = State(
    tx: Tx,
    calls: map<nat, Call>,       // by thread; an absent thread is in no call
    base: seq<string>,           // the database before the transaction
    executed: seq<string>,       // the statements whose Exec returned nil, in order
    commitCalls: nat,            // calls of the underlying Commit
    rollbackCalls: nat,          // calls of the underlying Rollback, the goroutine's included
    nils: nat,                   // Commit and Rollback calls that returned nil
    committed: bool)             // a Commit call returned nil

  datatype Event =
    | StartCommit(thread: nat) | FinishCommit(thread: nat, outcome: CommitOutcome)
    | StartRollback(thread: nat) | FinishRollback(thread: nat, ok: bool)
    | StartExec(thread: nat, stmt: string) | FinishExec(thread: nat, ok: bool)
    | Env(env: EnvEvent)

  function Begin(base: seq<string>): State {
    State(Begun(base), map[], base, [], 0, 0, 0, false)
  }

  predicate InCall(s: State, thread: nat, call: Call) {
    thread in s.calls && s.calls[thread] == call
  }

  predicate Enabled(s: State, e: Event) {
    match e
    case StartCommit(t) => t !in s.calls && MutexFree(s.tx)
    case FinishCommit(t, o) => InCall(s, t, Committing) && (o == Refused ==> s.tx.parentCancelled)
    case StartRollback(t) => t !in s.calls && MutexFree(s.tx)
    case FinishRollback(t, _) => InCall(s, t, RollingBack)
    case StartExec(t, _) => t !in s.calls && MutexFree(s.tx)
    case FinishExec(t, _) => t in s.calls && s.calls[t].Executing?
    case Env(env) => EnvEnabled(s.tx, env)
  }

  /**
   A call that passes its mutex section goes on to the underlying transaction; one that does not returns its error.
   */
  function Entered(s: State, thread: nat, marked: (Wrapper, bool), call: Call): State {
    s.(tx := s.tx.(wrapper := marked.0), calls := if marked.1 then s.calls[thread := call] else s.calls)
  }

  function Apply(s: State, e: Event): State
    requires Enabled(s, e)
  {
    match e
    case StartCommit(t) => Entered(s, t, MarkedCommitted(s.tx.wrapper), Committing)
    case FinishCommit(t, o) =>
      var (u, ok) := CommitUnder(s.tx.under, o);
      s.(tx := s.tx.(under := u), calls := s.calls - {t}, commitCalls := s.commitCalls + 1,
         nils := s.nils + (if ok then 1 else 0), committed := s.committed || ok)
    case StartRollback(t) => Entered(s, t, MarkedRolledBack(s.tx.wrapper), RollingBack)
    case FinishRollback(t, driverOk) =>
      var (u, ok) := RollbackUnder(s.tx.under, driverOk);
      s.(tx := s.tx.(under := u), calls := s.calls - {t}, rollbackCalls := s.rollbackCalls + 1,
         nils := s.nils + (if ok then 1 else 0))
    case StartExec(t, stmt) => Entered(s, t, (s.tx.wrapper, s.tx.wrapper.status == Active), Executing(stmt))
    case FinishExec(t, driverOk) =>
      var stmt := s.calls[t].stmt;
      var (u, ok) := ExecUnder(s.tx.under, stmt, driverOk);
      s.(tx := s.tx.(under := u), calls := s.calls - {t}, executed := if ok then s.executed + [stmt] else s.executed)
    case Env(env) =>
      s.(tx := EnvApply(s.tx, env), rollbackCalls := s.rollbackCalls + (if env == TimerRollback then 1 else 0))
  }

  // ---- Invariant -------------------------------------------------------------------------------

  /** Which end calls are under way, and which have been made, in each status. */
  ghost predicate CallsInv(s: State) {
    && (forall t, u | InCall(s, t, Committing) && InCall(s, u, Committing) :: t == u)
    && match s.tx.wrapper.status {
        case Active =>
          && (forall t | t in s.calls :: s.calls[t].Executing?)
          && s.commitCalls == 0 && s.rollbackCalls == (if s.tx.timer == Undone then 1 else 0)
        case Committed =>
          && (forall t | t in s.calls :: s.calls[t] != RollingBack)
          && s.rollbackCalls == 0 && s.commitCalls <= 1
          && (s.commitCalls == 1 ==> forall t | t in s.calls :: s.calls[t] != Committing)
        case RolledBack =>
          && (forall t | t in s.calls :: s.calls[t] != Committing)
          && s.commitCalls == 0
      }
  }

  /** The database is untouched until a Commit returns nil, and holds everything executed from then on. */
  predicate DataInv(s: State) {
    && (s.tx.under.open ==> s.tx.under.pending == s.executed)
    && s.nils + (if s.tx.under.open then 1 else 0) <= 1
    && s.tx.under.db == (if s.committed then s.base + s.executed else s.base)
    && (s.committed ==> !s.tx.under.open && s.tx.wrapper.status == Committed && s.commitCalls == 1 && s.nils == 1)
  }

  ghost predicate Inv(s: State) {
    TxInv(s.tx) && CallsInv(s) && DataInv(s)
  }

  lemma StepKeepsCalls(s: State, e: Event)
    requires Inv(s) && Enabled(s, e)
    ensures TxInv(Apply(s, e).tx) && CallsInv(Apply(s, e))
  {
    var s' := Apply(s, e);
    match e
    case Env(env) =>
      EnvStepKeeps(s.tx, env);
      assert forall t :: InCall(s', t, Committing) ==> InCall(s, t, Committing);
    case StartCommit(thread) =>
      assert forall t :: InCall(s', t, Committing) ==> t == thread || InCall(s, t, Committing);
    case FinishCommit(thread, _) =>
      assert InCall(s, thread, Committing);
      assert forall t :: InCall(s', t, Committing) ==> InCall(s, t, Committing) && t != thread;
      assert forall t | t in s'.calls :: !InCall(s', t, Committing);
    case _ =>
      assert forall t :: InCall(s', t, Committing) ==> InCall(s, t, Committing);
  }

  lemma StepKeepsData(s: State, e: Event)
    requires Inv(s) && Enabled(s, e)
    ensures DataInv(Apply(s, e)) && Apply(s, e).base == s.base
  {
    match e
    case FinishCommit(t, o) => assert s.tx.wrapper.status == Committed;
    case _ =>
  }

  /** A terminal status never changes, and done is closed only on the way into one. */
  lemma StepKeepsTerminal(s: State, e: Event)
    requires Inv(s) && Enabled(s, e)
    ensures s.tx.wrapper.status != Active ==> Apply(s, e).tx.wrapper == s.tx.wrapper
  {}

  lemma StepKeepsInv(s: State, e: Event)
    requires Inv(s) && Enabled(s, e)
    ensures Inv(Apply(s, e))
  {
    StepKeepsCalls(s, e);
    StepKeepsData(s, e);
  }

  // ---- Runs ------------------------------------------------------------------------------------

  predicate Run(s: State, events: seq<Event>, s': State)
    decreases events
  {
    if events == [] then s == s'
    else Enabled(s, events[0]) && Run(Apply(s, events[0]), events[1..], s')
  }

  lemma {:induction false} RunKeepsInv(s: State, events: seq<Event>, s': State)
    requires Inv(s) && Run(s, events, s')
    ensures Inv(s') && s'.base == s.base
    ensures s.tx.wrapper.status != Active ==> s'.tx.wrapper == s.tx.wrapper
    decreases events
  {
    if events == [] {
    } else {
      StepKeepsInv(s, events[0]);
      StepKeepsData(s, events[0]);
      StepKeepsTerminal(s, events[0]);
      RunKeepsInv(Apply(s, events[0]), events[1..], s');
    }
  }

  /** The underlying Commit is called at most once, never beside a Rollback, and at most one end call succeeds. */
  lemma EndCallsExclude(base: seq<string>, events: seq<Event>, s: State)
    requires Run(Begin(base), events, s)
    ensures s.commitCalls <= 1 && s.nils <= 1
    ensures s.commitCalls == 1 ==> s.rollbackCalls == 0
    ensures s.nils == 1 ==> !s.tx.under.open
  {
    RunKeepsInv(Begin(base), events, s);
  }

  /**
   With any number of threads the database ends up with every successful statement in order if a Commit succeeded, and
   as it was otherwise.
   */
  lemma AllOrNothing(base: seq<string>, events: seq<Event>, s: State)
    requires Run(Begin(base), events, s)
    ensures s.tx.under.db == if s.committed then base + s.executed else base
    ensures s.committed ==> s.tx.wrapper.status == Committed && s.commitCalls == 1 && s.nils == 1
  {
    RunKeepsInv(Begin(base), events, s);
  }

  /**
   done is closed at most once; a terminal status with done still open comes from the goroutine, which is then on its
   way out.
   */
  lemma TerminalStatesAreFinal(base: seq<string>, events: seq<Event>, s: State, more: seq<Event>, s': State)
    requires Run(Begin(base), events, s) && Run(s, more, s')
    ensures s.tx.wrapper.doneCloses <= 1
    ensures s.tx.wrapper.status != Active ==> s'.tx.wrapper == s.tx.wrapper
    ensures s.tx.wrapper.status != Active && s.tx.wrapper.doneCloses == 0 ==>
      s.tx.wrapper.status == RolledBack && !s.committed && (s.tx.timer == Leaving || s.tx.timer == Gone)
    ensures s.tx.wrapper.status != Active && s.tx.timer != Gone ==> exists e :: IsTimerStep(e) && EnvEnabled(s.tx, e)
  {
    RunKeepsInv(Begin(base), events, s);
    RunKeepsInv(s, more, s');
    TimerAlwaysLeaves(s.tx);
  }

  // ---- Statements behind the mark --------------------------------------------------------------

  ghost predicate StatementInFlight(s: State) {
    exists t :: t in s.calls && s.calls[t].Executing?
  }

  /**
   A statement can still reach the underlying transaction: one that has passed the active check, or one that can pass
   it.
   */
  ghost predicate CanStillExecute(s: State) {
    s.tx.under.open && (StatementInFlight(s) || (s.tx.wrapper.status == Active && MutexFree(s.tx)))
  }

  lemma StepStaysQuiet(s: State, e: Event)
    requires Inv(s) && Enabled(s, e) && !CanStillExecute(s)
    ensures !CanStillExecute(Apply(s, e)) && Apply(s, e).executed == s.executed
  {
    var s' := Apply(s, e);
    if s.tx.under.open {
      assert forall t | t in s'.calls :: s'.calls[t].Executing? ==> t in s.calls && s.calls[t].Executing?;
    }
  }

  lemma {:induction false} QuietForEver(s: State, events: seq<Event>, s': State)
    requires Inv(s) && Run(s, events, s') && !CanStillExecute(s)
    ensures s'.executed == s.executed
    decreases events
  {
    if events == [] {
    } else {
      StepKeepsInv(s, events[0]);
      StepStaysQuiet(s, events[0]);
      QuietForEver(Apply(s, events[0]), events[1..], s');
    }
  }

  lemma FreshThread(calls: map<nat, Call>) returns (thread: nat)
    ensures thread !in calls
  {
    thread := FreshIn(calls.Keys);
  }

  lemma {:induction false} FreshIn(threads: set<nat>) returns (thread: nat)
    ensures forall t | t in threads :: t < thread
  {
    if threads == {} {
      thread := 0;
    } else {
      var t :| t in threads;
      var rest := FreshIn(threads - {t});
      thread := if t < rest then rest else t + 1;
      assert forall u | u in threads :: u == t || u in threads - {t};
    }
  }

  lemma TwoSteps(s: State, e: Event, e': Event)
    requires Enabled(s, e) && Enabled(Apply(s, e), e')
    ensures Run(s, [e, e'], Apply(Apply(s, e), e'))
  {
    assert [e, e'][1..] == [e'] && [e'][1..] == [];
    assert Run(Apply(s, e), [e'], Apply(Apply(s, e), e'));
  }

  lemma AStatementCanFollow(s: State) returns (events: seq<Event>, s': State)
    requires Inv(s) && CanStillExecute(s)
    ensures Run(s, events, s') && s'.executed != s.executed
  {
    if StatementInFlight(s) {
      var t :| t in s.calls && s.calls[t].Executing?;
      events, s' := [FinishExec(t, true)], Apply(s, FinishExec(t, true));
      assert events[1..] == [] && Run(s', [], s');
    } else {
      var t := FreshThread(s.calls);
      var started := Apply(s, StartExec(t, ""));
      events, s' := [StartExec(t, ""), FinishExec(t, true)], Apply(started, FinishExec(t, true));
      TwoSteps(s, StartExec(t, ""), FinishExec(t, true));
    }
    assert |s'.executed| == |s.executed| + 1;
  }

  ghost predicate NoMoreStatements(s: State) {
    forall events, s' | Run(s, events, s') :: s'.executed == s.executed
  }

  /**
   No later run executes a statement if and only if none is in flight and none can get past the active check, or the
   underlying transaction is closed.
   */
  lemma NoMoreStatementsExactly(s: State)
    requires Inv(s)
    ensures NoMoreStatements(s) <==> !CanStillExecute(s)
  {
    if CanStillExecute(s) {
      var events, s' := AStatementCanFollow(s);
      assert Run(s, events, s') && s'.executed != s.executed;
    } else {
      forall events, s' | Run(s, events, s')
        ensures s'.executed == s.executed
      {
        QuietForEver(s, events, s');
      }
    }
  }

  /**
   Behind a terminal mark, by a caller or by the goroutine, a statement can follow exactly when one was already in
   flight.
   */
  lemma MarkStopsStatements(s: State, e: Event)
    requires Inv(s) && Enabled(s, e) && s.tx.wrapper.status == Active && Apply(s, e).tx.wrapper.status != Active
    ensures NoMoreStatements(Apply(s, e)) <==> !(s.tx.under.open && StatementInFlight(s))
  {
    var s' := Apply(s, e);
    StepKeepsInv(s, e);
    NoMoreStatementsExactly(s');
    assert forall t :: t in s'.calls && s'.calls[t].Executing? <==> t in s.calls && s.calls[t].Executing?;
  }

  /** Such a statement can even be committed. */
  lemma StatementCanOutlastTheMark(base: seq<string>, stmt: string)
    ensures exists events, s ::
      && Run(Begin(base), events, s) && |events| >= 2 && events[|events| - 2] == FinishExec(0, true)
      && s.committed && s.tx.under.db == base + [stmt]
  {
    var s0 := Begin(base);
    var s1 := Apply(s0, StartExec(0, stmt));
    var s2 := Apply(s1, StartCommit(1));
    assert s2.tx.wrapper.status == Committed;
    var s3 := Apply(s2, FinishExec(0, true));
    var s4 := Apply(s3, FinishCommit(1, Accepted));
    var e0, e1, e2, e3 := StartExec(0, stmt), StartCommit(1), FinishExec(0, true), FinishCommit(1, Accepted);
    assert [e3][1..] == [] && [e2, e3][1..] == [e3] && [e1, e2, e3][1..] == [e2, e3];
    assert Run(s3, [e3], s4);
    assert Run(s2, [e2, e3], s4);
    assert Run(s1, [e1, e2, e3], s4);
    var events := [e0, e1, e2, e3];
    assert events[1..] == [e1, e2, e3];
    assert Run(s0, events, s4) && events[|events| - 2] == e2;
  }
}
