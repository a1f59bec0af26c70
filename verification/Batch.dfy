/** cmd/cli/batch.go: running a list of statements, in one transaction or one by one. */
module Batch {
  import opened Text
  import opened Guard
  import opened Transactions

  datatype BatchError = BeginFailed | ExecFailed(exec: TxError) | CommitFailed(commit: TxError)

  datatype StmtResult = StmtResult(statement: string, error: Option<BatchError>)

  predicate NoErrors(results: seq<StmtResult>) {
    forall i | 0 <= i < |results| :: results[i].error == None
  }

  /** The results follow the statements one for one. */
  predicate Follows(results: seq<StmtResult>, statements: seq<string>) {
    |results| <= |statements| && forall i | 0 <= i < |results| :: results[i].statement == statements[i]
  }

  /** One result for each statement, cut off behind the first error unless the batch continues on errors. */
  predicate BatchShape(results: seq<StmtResult>, statements: seq<string>, continueOnError: bool) {
    && Follows(results, statements)
    && (continueOnError ==> |results| == |statements|)
    && (|results| < |statements| ==> results != [] && results[|results| - 1].error.Some?)
    && (!continueOnError ==> forall i | 0 <= i < |results| - 1 :: results[i].error == None)
  }

  /**
   The settings of a session, and what its driver answers to the begin, to the k-th statement of the batch and to the
   commit.
   */
  datatype Session = Session(
    policy: Policy, rejectNoWhere: bool, begins: bool, accepts: nat -> bool, commits: CommitOutcome)

  function ErrorOf(session: Session, stmt: string, k: nat): Option<BatchError> {
    var error := ExecError(session.policy, session.rejectNoWhere, stmt, session.accepts(k));
    if error.Some? then Some(ExecFailed(error.value)) else None
  }

  /** Each result reports what the guards and the driver say to its statement. */
  predicate Answered(session: Session, results: seq<StmtResult>) {
    forall k | 0 <= k < |results| :: results[k].error == ErrorOf(session, results[k].statement, k)
  }

  /** An undisturbed batch: the reports of the guards and the driver, cut off as the batch asks for. */
  predicate Report(session: Session, statements: seq<string>, continueOnError: bool, results: seq<StmtResult>) {
    BatchShape(results, statements, continueOnError) && Answered(session, results)
  }

  /** The guards and the driver let every statement pass. */
  predicate AllAccepted(session: Session, statements: seq<string>) {
    forall k | 0 <= k < |statements| :: ErrorOf(session, statements[k], k) == None
  }

  lemma ErrorFreeReport(session: Session, statements: seq<string>, continueOnError: bool, results: seq<StmtResult>)
    requires Report(session, statements, continueOnError, results)
    ensures NoErrors(results) <==> AllAccepted(session, statements)
  {
    assert forall k | 0 <= k < |results| :: results[k].error == ErrorOf(session, statements[k], k);
  }

  /** Behind the results of all statements, the failed commit of a batch in which none failed. */
  predicate CommitFailure(results: seq<StmtResult>, statements: seq<string>) {
    && |results| == |statements| + 1
    && Follows(results[..|statements|], statements) && NoErrors(results[..|statements|])
    && results[|statements|].statement == ""
    && results[|statements|].error.Some? && results[|statements|].error.value.CommitFailed?
  }

  const BEGIN_FAILURE := [StmtResult("", Some(BeginFailed))]

  /**
   What a transactional batch leaves behind: all statements in order, or nothing. `alive` says that nothing had ended
   the transaction before its last statement came back; only a timeout or a cancellation, `disturbed`, can have done
   so. In a transaction that is alive the reports are those of the guards and the driver, and an undisturbed commit is
   the driver's.
   */
  predicate TxOutcome(
    session: Session, db: seq<string>, statements: seq<string>, continueOnError: bool,
    results: seq<StmtResult>, db': seq<string>, alive: bool, disturbed: bool)
  {
    && db' == (if NoErrors(results) then db + statements else db)
    && (NoErrors(results) ==> alive && session.commits == Accepted)
    && (if !session.begins then results == BEGIN_FAILURE
        else BatchShape(results, statements, continueOnError) || CommitFailure(results, statements))
    && (session.begins && !alive ==> disturbed)
    && (alive ==> session.begins)
    && (alive && !CommitFailure(results, statements) ==> Report(session, statements, continueOnError, results))
    && (alive && CommitFailure(results, statements) ==>
          && Report(session, statements, continueOnError, results[..|statements|])
          && (session.commits == Accepted ==> disturbed))
  }

  /** One more result, for the next statement. */
  lemma NextResult(session: Session, statements: seq<string>, results: seq<StmtResult>, r: StmtResult)
    requires Follows(results, statements) && |results| < |statements| && r.statement == statements[|results|]
    ensures Follows(results + [r], statements)
    ensures NoErrors(results + [r]) <==> NoErrors(results) && r.error == None
    ensures Answered(session, results + [r]) <==>
      Answered(session, results) && r.error == ErrorOf(session, r.statement, |results|)
  {
    var next, k := results + [r], |results|;
    assert next[k] == r;
    assert next[..k] == results;
    assert forall j | 0 <= j < k :: next[j] == results[j];
  }

  /** The first error ends a batch that does not continue. */
  lemma StoppingResult(statements: seq<string>, results: seq<StmtResult>, r: StmtResult)
    requires Follows(results, statements) && |results| < |statements| && r.statement == statements[|results|]
    requires NoErrors(results) && r.error.Some?
    ensures BatchShape(results + [r], statements, false) && !NoErrors(results + [r])
  {
    var next, k := results + [r], |results|;
    assert next[k] == r;
    assert forall j | 0 <= j < k :: next[j] == results[j];
  }

  lemma FailedCommit(statements: seq<string>, results: seq<StmtResult>, error: TxError)
    requires |results| == |statements| && Follows(results, statements) && NoErrors(results)
    ensures
      var all := results + [StmtResult("", Some(CommitFailed(error)))];
      CommitFailure(all, statements) && all[..|statements|] == results && !NoErrors(all)
  {
    var all := results + [StmtResult("", Some(CommitFailed(error)))];
    assert all[..|statements|] == results;
    assert all[|statements|].error.Some?;
  }

  /**
   The end of a transactional batch: roll back if a statement failed and the loop has not done so, commit otherwise.
   */
  method EndBatch(
    ghost db: seq<string>, session: Session, statements: seq<string>, continueOnError: bool,
    tx: Transaction, reported: seq<StmtResult>, firstErr: Option<TxError>, ghost alive: bool)
    returns (results: seq<StmtResult>)
    requires TxInv(tx.View()) && tx.under.db == db
    requires tx.status == Active || (tx.status == RolledBack && !tx.under.open)
    requires BatchShape(reported, statements, continueOnError) && (alive ==> Answered(session, reported))
    requires firstErr == None <==> NoErrors(reported)
    requires firstErr == None && tx.under.open ==> tx.under.pending == statements
    requires firstErr == None ==> (alive <==> tx.status == Active && tx.under.open)
    requires firstErr.Some? && !continueOnError ==> tx.status == RolledBack
    requires session.begins && (!alive ==> tx.disturbed)
    modifies tx
    ensures TxInv(tx.View()) && tx.status != Active && (tx.under.open ==> tx.parentCancelled)
    ensures old(tx.disturbed) ==> tx.disturbed
    ensures TxOutcome(session, db, statements, continueOnError, results, tx.under.db, alive, tx.disturbed)
    ensures NoErrors(results) ==> results == reported
  {
    results := reported;
    if firstErr.Some? && !continueOnError {
      // the loop has rolled back already
    } else if firstErr.Some? {
      var driverOk: bool := *;
      var _ := tx.Rollback(driverOk);
    } else {
      var error := tx.Commit(session.commits);
      if error.Some? {
        FailedCommit(statements, results, error.value);
        results := results + [StmtResult("", Some(CommitFailed(error.value)))];
      }
    }
  }

  /**
   All or nothing, for every interleaving with the timeout goroutine, the contexts and the driver:
   without an error in the results the database holds all statements in order, with one it is as it was.
   */
  method BatchExecInTx(db: seq<string>, session: Session, statements: seq<string>, continueOnError: bool)
    returns (results: seq<StmtResult>, tx: Transaction?, ghost alive: bool)
    ensures tx != null ==> fresh(tx) && TxInv(tx.View()) && tx.status != Active
    ensures tx == null <==> !session.begins
    ensures tx != null && tx.under.open ==> tx.parentCancelled
    ensures
      var db', disturbed := if tx == null then db else tx.under.db, tx != null && tx.disturbed;
      TxOutcome(session, db, statements, continueOnError, results, db', alive, disturbed)
    ensures NoErrors(results) ==> AllAccepted(session, statements)
  {
    if !session.begins {
      results := BEGIN_FAILURE;
      assert results[0].error.Some?;
      return results, null, false;
    }
    tx := new Transaction(db, session.policy, session.rejectNoWhere);
    results, alive := [], true;
    var firstErr: Option<TxError> := None;
    var i := 0;
    while i < |statements|
      invariant |results| == i <= |statements|
      invariant fresh(tx) && TxInv(tx.View()) && tx.under.db == db
      invariant tx.policy == session.policy && tx.rejectNoWhere == session.rejectNoWhere
      invariant tx.status == Active || (tx.status == RolledBack && !tx.under.open)
      invariant Follows(results, statements)
      invariant firstErr == None <==> NoErrors(results)
      invariant firstErr == None && tx.under.open ==> tx.under.pending == statements[..i]
      invariant alive <==> tx.status == Active && tx.under.open
      invariant !alive ==> tx.disturbed
      invariant alive ==> Answered(session, results)
      invariant firstErr.Some? ==> continueOnError
    {
      var stmt := statements[i];
      var error := tx.Exec(stmt, session.accepts(i));
      alive := tx.status == Active && tx.under.open;
      var r := StmtResult(stmt, None);
      if error.Some? {
        r := r.(error := Some(ExecFailed(error.value)));
        if firstErr == None {
          firstErr := error;
        }
        if !continueOnError {
          var driverOk: bool := *;
          var _ := tx.Rollback(driverOk);
          NextResult(session, statements, results, r);
          StoppingResult(statements, results, r);
          results := results + [r];
          break;
        }
      }
      NextResult(session, statements, results, r);
      results := results + [r];
      i := i + 1;
    }
    assert firstErr == None ==> statements[..i] == statements;
    results := EndBatch(db, session, statements, continueOnError, tx, results, firstErr, alive);
    if NoErrors(results) {
      ErrorFreeReport(session, statements, continueOnError, results);
    }
  }

  /** The statements whose results carry no error, in order. */
  function Applied(results: seq<StmtResult>): seq<string> {
    if results == [] then []
    else Applied(results[..|results| - 1]) +
         (if results[|results| - 1].error == None then [results[|results| - 1].statement] else [])
  }

  /** One statement on its own: guarded, then applied or refused by the driver. */
  method ExecDirect(db: seq<string>, session: Session, stmt: string, driverOk: bool)
    returns (db': seq<string>, error: Option<TxError>)
    ensures error == ExecError(session.policy, session.rejectNoWhere, stmt, driverOk)
    ensures db' == if error == None then db + [stmt] else db
  {
    db' := db;
    var guarded := ExecGuard(session.policy, session.rejectNoWhere, stmt);
    if guarded.Some? {
      return db, Some(Guarded(guarded.value));
    }
    if !driverOk {
      return db, Some(DriverError);
    }
    db' := db + [stmt];
    error := None;
  }

  /** Without a transaction the database holds exactly the statements whose results carry no error. */
  method BatchExecDirect(db: seq<string>, session: Session, statements: seq<string>, continueOnError: bool)
    returns (results: seq<StmtResult>, db': seq<string>)
    ensures db' == db + Applied(results)
    ensures Report(session, statements, continueOnError, results)
    ensures NoErrors(results) ==> db' == db + statements
  {
    results, db' := [], db;
    for i := 0 to |statements|
      invariant |results| == i && Follows(results, statements) && Answered(session, results)
      invariant db' == db + Applied(results)
      invariant !continueOnError ==> NoErrors(results)
    {
      var stmt := statements[i];
      var error;
      db', error := ExecDirect(db', session, stmt, session.accepts(i));
      var r := StmtResult(stmt, if error.Some? then Some(ExecFailed(error.value)) else None);
      AppliedLast(results, r);
      NextResult(session, statements, results, r);
      if error.Some? && !continueOnError {
        StoppingResult(statements, results, r);
      }
      results := results + [r];
      if error.Some? && !continueOnError {
        return;
      }
    }
    if NoErrors(results) {
      AllApplied(results, statements);
    }
  }

  lemma AppliedLast(results: seq<StmtResult>, r: StmtResult)
    ensures Applied(results + [r]) == Applied(results) + if r.error == None then [r.statement] else []
  {
    assert (results + [r])[..|results|] == results;
  }

  lemma {:induction false} AllApplied(results: seq<StmtResult>, statements: seq<string>)
    requires NoErrors(results) && Follows(results, statements) && |results| == |statements|
    ensures Applied(results) == statements
  {
    if results == [] {
    } else {
      var n := |results| - 1;
      AllApplied(results[..n], statements[..n]);
      assert statements == statements[..n] + [statements[n]];
    }
  }

  // ---- The two modes ---------------------------------------------------------------------------

  /** A batch that continues reports on every statement; any other stops behind the first that is not accepted. */
  lemma ReportLength(session: Session, statements: seq<string>, continueOnError: bool, results: seq<StmtResult>)
    requires Report(session, statements, continueOnError, results)
    ensures continueOnError ==> |results| == |statements|
    ensures forall k | 0 <= k < |results| ::
      results[k].statement == statements[k] && results[k].error == ErrorOf(session, statements[k], k)
    ensures !continueOnError ==> forall k | 0 <= k < |results| - 1 :: ErrorOf(session, statements[k], k) == None
    ensures |results| < |statements| ==>
      var last := |results| - 1;
      last >= 0 && ErrorOf(session, statements[last], last).Some?
  {}

  /** The error of a statement: what the guards say, or else the driver's refusal. */
  lemma ErrorMeaning(session: Session, stmt: string, k: nat)
    ensures ErrorOf(session, stmt, k) == None <==>
      ExecGuard(session.policy, session.rejectNoWhere, stmt) == None && session.accepts(k)
    ensures forall g :: ErrorOf(session, stmt, k) == Some(ExecFailed(Guarded(g))) <==>
      ExecGuard(session.policy, session.rejectNoWhere, stmt) == Some(g)
  {
    ExecErrorMeaning(session.policy, session.rejectNoWhere, stmt, session.accepts(k));
  }

  lemma ShorterReport(
    session: Session, statements: seq<string>, continueOnError: bool, a: seq<StmtResult>, b: seq<StmtResult>)
    requires Report(session, statements, continueOnError, a) && Report(session, statements, continueOnError, b)
    ensures |a| >= |b|
  {
    var k := |a| - 1;
    assert 0 <= k < |b| ==> a[k].error == ErrorOf(session, statements[k], k) == b[k].error;
  }

  /** The statements, the settings and the driver determine the report of an undisturbed batch. */
  lemma ReportsAreUnique(
    session: Session, statements: seq<string>, continueOnError: bool, a: seq<StmtResult>, b: seq<StmtResult>)
    requires Report(session, statements, continueOnError, a) && Report(session, statements, continueOnError, b)
    ensures a == b
  {
    ShorterReport(session, statements, continueOnError, a, b);
    ShorterReport(session, statements, continueOnError, b, a);
    assert forall k | 0 <= k < |a| :: a[k].statement == statements[k] == b[k].statement;
  }

  /**
   Without a timeout or a cancellation a batch is applied exactly when begin, every statement and commit are accepted.
   */
  lemma UndisturbedBatch(
    session: Session, db: seq<string>, statements: seq<string>, continueOnError: bool,
    results: seq<StmtResult>, db': seq<string>, alive: bool)
    requires TxOutcome(session, db, statements, continueOnError, results, db', alive, false)
    ensures NoErrors(results) <==> session.begins && AllAccepted(session, statements) && session.commits == Accepted
    ensures db' ==
      if session.begins && AllAccepted(session, statements) && session.commits == Accepted then db + statements else db
  {
    if !session.begins {
      assert results[0].error.Some?;
    } else if CommitFailure(results, statements) {
      assert results[|statements|].error.Some?;
    } else {
      ErrorFreeReport(session, statements, continueOnError, results);
    }
  }

  /**
   The two modes on the same statements, settings and driver: a transaction that nothing ended early reports what the
   direct mode reports, up to a failed commit, and without a timeout or a cancellation the commit fails only if the
   driver says so. Without errors both leave the same database; with one the transaction leaves none of the statements
   that the direct mode keeps.
   */
  lemma BatchModesAgree(
    session: Session, db: seq<string>, statements: seq<string>, continueOnError: bool,
    direct: seq<StmtResult>, directDb: seq<string>,
    inTx: seq<StmtResult>, txDb: seq<string>, alive: bool, disturbed: bool)
    requires Report(session, statements, continueOnError, direct) && directDb == db + Applied(direct)
    requires TxOutcome(session, db, statements, continueOnError, inTx, txDb, alive, disturbed)
    ensures session.begins && !disturbed ==> alive
    ensures alive ==>
      || inTx == direct
      || (NoErrors(direct) && CommitFailure(inTx, statements) && inTx[..|statements|] == direct)
    ensures session.begins && !disturbed ==>
      (inTx == direct <==> !NoErrors(direct) || session.commits == Accepted)
    ensures NoErrors(inTx) ==> inTx == direct && txDb == directDb
    ensures txDb == directDb <==> NoErrors(inTx) || Applied(direct) == []
  {
    if alive {
      if CommitFailure(inTx, statements) {
        ReportsAreUnique(session, statements, continueOnError, direct, inTx[..|statements|]);
      } else {
        ReportsAreUnique(session, statements, continueOnError, direct, inTx);
      }
    }
    if NoErrors(inTx) {
      AllApplied(inTx, statements);
    }
  }
}
