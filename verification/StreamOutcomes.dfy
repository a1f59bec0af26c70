/** How a stream ends: which fault Err reports, read off what happened in the run, and that a stream can end well. */
module StreamOutcomes {
  import opened Text
  import opened StreamResults
  import opened StreamMachine
  import opened StreamTheorems

  // ---- Which fault -----------------------------------------------------------------------------

  /** The context had fired, before the run or in it, when the producer first looked at it. */
  predicate CheckedLate(acts: seq<Act>, fired: bool) {
    exists j | 0 <= j < |acts| :: acts[j] == ContextCheck && (fired || FireContext in acts[..j])
  }

  lemma CheckedLateCons(a: Act, rest: seq<Act>, fired: bool)
    ensures CheckedLate([a] + rest, fired) <==>
      (a == ContextCheck && fired) || CheckedLate(rest, fired || a == FireContext)
  {
    var acts := [a] + rest;
    if j :| 0 <= j < |acts| && acts[j] == ContextCheck && (fired || FireContext in acts[..j]) {
      if j > 0 {
        assert acts[..j] == [a] + rest[..j - 1] && rest[j - 1] == ContextCheck;
      }
    }
    if j :| 0 <= j < |rest| && rest[j] == ContextCheck && (fired || a == FireContext || FireContext in rest[..j]) {
      assert acts[..j + 1] == [a] + rest[..j] && acts[j + 1] == ContextCheck;
    }
    assert a == ContextCheck && fired ==> acts[0] == ContextCheck;
  }

  /** The error after a run, from the error before it and what happened. */
  predicate Blames(before: Option<Fault>, acts: seq<Act>, fired: bool, after: Option<Fault>) {
    && (after == Some(QueryFailed) <==> before == Some(QueryFailed) || RunQuery(false) in acts)
    && (after == Some(ColumnsFailed) <==> before == Some(ColumnsFailed) || ReadColumns(false) in acts)
    && (after == Some(ScanFailed) <==> before == Some(ScanFailed) || FailScan in acts)
    && (after == Some(IterationFailed) <==> before == Some(IterationFailed) || FailIteration in acts)
    && (after == Some(ContextDone) <==> before == Some(ContextDone) || SeeContext in acts || CheckedLate(acts, fired))
    && (after.Some? && after.value.RowFault? ==> before == after)
  }

  /** The fault that one step notes. */
  function FaultOf(a: Act, fired: bool): Option<Fault> {
    match a
    case ContextCheck => if fired then Some(ContextDone) else None
    case RunQuery(ok) => if ok then None else Some(QueryFailed)
    case ReadColumns(ok) => if ok then None else Some(ColumnsFailed)
    case FailScan => Some(ScanFailed)
    case FailIteration => Some(IterationFailed)
    case SeeContext => Some(ContextDone)
    case _ => None
  }

  /** A step that notes a fault meets none noted before, and every other step leaves the error alone. */
  lemma StepNotes(s: Stream, a: Act)
    requires Inv(s) && Enabled(s, a)
    ensures FaultOf(a, s.ctxDone).Some? ==> s.handle.err == None && Apply(s, a).handle.err == FaultOf(a, s.ctxDone)
    ensures FaultOf(a, s.ctxDone) == None ==> Apply(s, a).handle.err == s.handle.err
  {}

  lemma OneStepBlames(before: Option<Fault>, a: Act, fired: bool, after: Option<Fault>)
    requires FaultOf(a, fired).Some? ==> before == None && after == FaultOf(a, fired)
    requires FaultOf(a, fired) == None ==> after == before
    ensures Blames(before, [a], fired, after)
  {
    CheckedLateCons(a, [], fired);
    assert [a] + [] == [a];
  }

  lemma StepKeepsFired(s: Stream, a: Act)
    requires Enabled(s, a)
    ensures Apply(s, a).pc == Starting ==> s.pc == Starting && (Apply(s, a).ctxDone <==> s.ctxDone || a == FireContext)
    ensures s.pc != Starting ==> a != ContextCheck
  {}

  lemma {:induction false} NoCheckBehindStart(s: Stream, acts: seq<Act>, s': Stream)
    requires Run(s, acts, s') && s.pc != Starting
    ensures ContextCheck !in acts
    decreases acts
  {
    if acts == [] {
    } else {
      StepKeepsFired(s, acts[0]);
      NoCheckBehindStart(Apply(s, acts[0]), acts[1..], s');
    }
  }

  lemma BlamesCons(
    before: Option<Fault>, a: Act, rest: seq<Act>, fired: bool, middle: Option<Fault>, after: Option<Fault>)
    requires Blames(before, [a], fired, middle) && Blames(middle, rest, fired || a == FireContext, after)
    ensures Blames(before, [a] + rest, fired, after)
  {
    CheckedLateCons(a, rest, fired);
    CheckedLateCons(a, [], fired);
    assert [a] + [] == [a];
    assert forall x :: x in [a] + rest <==> x in [a] || x in rest;
  }

  lemma {:induction false} RunBlames(s: Stream, acts: seq<Act>, s': Stream, fired: bool)
    requires Inv(s) && Run(s, acts, s') && (s.pc == Starting ==> fired == s.ctxDone)
    ensures Blames(s.handle.err, acts, fired, s'.handle.err)
    decreases acts
  {
    if acts == [] {
    } else {
      var a, next := acts[0], Apply(s, acts[0]);
      StepKeepsInv(s, a);
      StepKeepsFired(s, a);
      StepNotes(s, a);
      OneStepBlames(s.handle.err, a, fired, next.handle.err);
      assert acts == [a] + acts[1..];
      RunBlames(next, acts[1..], s', fired || a == FireContext);
      BlamesCons(s.handle.err, a, acts[1..], fired, next.handle.err, s'.handle.err);
    }
  }

  /**
   What Err reports after any run: the one thing that went wrong in it, and nothing if nothing did. A context error
   comes from the wait to send, or from a context that had fired before the producer's first look.
   */
  lemma ErrorTellsWhatHappened(q: Query, acts: seq<Act>, s: Stream)
    requires Reachable(q, acts, s)
    ensures ErrOf(s.handle) == s.handle.err
    ensures ErrOf(s.handle) == Some(QueryFailed) <==> RunQuery(false) in acts
    ensures ErrOf(s.handle) == Some(ColumnsFailed) <==> ReadColumns(false) in acts
    ensures ErrOf(s.handle) == Some(ScanFailed) <==> FailScan in acts
    ensures ErrOf(s.handle) == Some(IterationFailed) <==> FailIteration in acts
    ensures ErrOf(s.handle) == Some(ContextDone) <==> SeeContext in acts || CheckedLate(acts, false)
    ensures ErrOf(s.handle) == None <==>
      && RunQuery(false) !in acts && ReadColumns(false) !in acts && FailScan !in acts && FailIteration !in acts
      && SeeContext !in acts && !CheckedLate(acts, false)
  {
    FreshInv(q);
    ReachableInv(q, acts, s);
    RunBlames(Fresh(q), acts, s, false);
    NoRowFaults(s);
  }

  /** The stored error comes first; without one, a row that carries an error gives it. */
  lemma ErrorPrecedence(h: Handle)
    ensures h.err.Some? ==> ErrOf(h) == h.err
    ensures h.err == None && h.current.Some? && h.current.value.error != "" ==>
      ErrOf(h) == Some(RowFault(h.current.value.error))
    ensures ErrOf(h) == None <==> h.err == None && (h.current.Some? ==> h.current.value.error == "")
  {}

  // ---- The context -----------------------------------------------------------------------------

  predicate PastCancel(pc: Pc) {
    pc == SignallingDone || pc == ClosingChannel || pc == ReleasingSlot || pc == Exited
  }

  lemma StepKeepsContext(s: Stream, a: Act)
    requires Enabled(s, a)
    ensures PastCancel(s.pc) ==> PastCancel(Apply(s, a).pc)
    ensures !PastCancel(s.pc) && PastCancel(Apply(s, a).pc) && s.query.derivesContext ==> Apply(s, a).ctxDone
    ensures !(s.query.derivesContext && !PastCancel(s.pc) && PastCancel(Apply(s, a).pc)) ==>
      (Apply(s, a).ctxDone <==> s.ctxDone || a == FireContext)
  {}

  lemma {:induction false} ContextRun(s: Stream, acts: seq<Act>, s': Stream)
    requires Run(s, acts, s')
    ensures PastCancel(s.pc) ==> PastCancel(s'.pc)
    ensures s'.ctxDone <==>
      s.ctxDone || FireContext in acts || (s.query.derivesContext && !PastCancel(s.pc) && PastCancel(s'.pc))
    decreases acts
  {
    if acts == [] {
    } else {
      StepKeepsQuery(s, acts[0]);
      StepKeepsContext(s, acts[0]);
      ContextRun(Apply(s, acts[0]), acts[1..], s');
      assert acts == [acts[0]] + acts[1..];
    }
  }

  /**
   The context of a stream is done if it fired, or if it was derived for the stream and the deferred cancel has run.
   */
  lemma ContextIsDoneExactly(q: Query, acts: seq<Act>, s: Stream)
    requires Reachable(q, acts, s)
    ensures s.ctxDone <==> FireContext in acts || (q.derivesContext && PastCancel(s.pc))
  {
    ContextRun(Fresh(q), acts, s);
  }

  // ---- The consumer ----------------------------------------------------------------------------

  lemma StepKeepsConsumer(s: Stream, a: Act)
    requires Enabled(s, a)
    ensures s.handle.closed ==> Apply(s, a).handle.closed && Apply(s, a).consumed == s.consumed
    ensures s.handle.closed ==> Apply(s, a).drained == s.drained
    ensures a == CallClose ==> Apply(s, a).handle.closed
    ensures !s.handle.closed && a != CallClose && Apply(s, a).handle.closed ==> Apply(s, a).drained
  {}

  /** A closed iterator stays closed and delivers nothing, whatever the channel still holds. */
  lemma {:induction false} ClosedDeliversNothing(s: Stream, acts: seq<Act>, s': Stream)
    requires Run(s, acts, s') && s.handle.closed
    ensures s'.handle.closed && s'.consumed == s.consumed && s'.drained == s.drained
    decreases acts
  {
    if acts == [] {
    } else {
      StepKeepsConsumer(s, acts[0]);
      ClosedDeliversNothing(Apply(s, acts[0]), acts[1..], s');
    }
  }

  lemma {:induction false} ClosedRun(s: Stream, acts: seq<Act>, s': Stream)
    requires Inv(s) && Run(s, acts, s')
    ensures Inv(s') && (s'.handle.closed <==> s.handle.closed || s'.drained || CallClose in acts)
    decreases acts
  {
    if acts == [] {
    } else {
      StepKeepsInv(s, acts[0]);
      StepKeepsConsumer(s, acts[0]);
      ClosedRun(Apply(s, acts[0]), acts[1..], s');
      assert acts == [acts[0]] + acts[1..];
      if Apply(s, acts[0]).handle.closed {
        ClosedDeliversNothing(Apply(s, acts[0]), acts[1..], s');
      }
    }
  }

  /** The iterator is closed once Close was called or Next has seen the end; only a Close in time tells the producer. */
  lemma ClosedExactly(q: Query, acts: seq<Act>, s: Stream)
    requires Reachable(q, acts, s)
    ensures s.handle.closed <==> s.drained || CallClose in acts
    ensures s.handle.doneCloses == 1 <==> s.handle.closed && !s.drained
  {
    FreshInv(q);
    ClosedRun(Fresh(q), acts, s);
  }

  // ---- A good end ------------------------------------------------------------------------------

  /** One step further along a run without faults and cancellations. */
  lemma GoOn(q: Query, acts: seq<Act>, s: Stream, a: Act)
    requires Reachable(q, acts, s) && Enabled(s, a)
    ensures Reachable(q, acts + [a], Apply(s, a))
  {
    RunExtend(Fresh(q), acts, s, a);
  }

  lemma OpenRun(q: Query) returns (acts: seq<Act>, s: Stream)
    ensures Reachable(q, acts, s) && FireContext !in acts
    ensures s.pc == Fetching && s.rowCount == 0 && s.consumed == [] && s.channel.buf == [] && !s.handle.closed
  {
    var s0 := Fresh(q);
    assert Run(s0, [], s0);
    GoOn(q, [], s0, ContextCheck);
    var s1 := Apply(s0, ContextCheck);
    GoOn(q, [] + [ContextCheck], s1, RunQuery(true));
    var s2 := Apply(s1, RunQuery(true));
    GoOn(q, [] + [ContextCheck] + [RunQuery(true)], s2, ReadColumns(true));
    acts, s := [] + [ContextCheck] + [RunQuery(true)] + [ReadColumns(true)], Apply(s2, ReadColumns(true));
  }

  lemma RowRun(q: Query, acts: seq<Act>, s: Stream) returns (acts': seq<Act>, s': Stream)
    requires Reachable(q, acts, s) && FireContext !in acts
    requires s.pc == Fetching && s.rowCount < |q.rows| && s.channel.buf == [] && !s.handle.closed
    ensures Reachable(q, acts', s') && FireContext !in acts'
    ensures s'.pc == Fetching && s'.rowCount == s.rowCount + 1 && s'.channel.buf == [] && !s'.handle.closed
  {
    ReachableInv(q, acts, s);
    GoOn(q, acts, s, FetchRow);
    var s1 := Apply(s, FetchRow);
    GoOn(q, acts + [FetchRow], s1, Send);
    var s2 := Apply(s1, Send);
    GoOn(q, acts + [FetchRow] + [Send], s2, CallNext);
    acts', s' := acts + [FetchRow] + [Send] + [CallNext], Apply(s2, CallNext);
  }

  lemma {:induction false} RowsRun(q: Query, n: nat) returns (acts: seq<Act>, s: Stream)
    requires n <= |q.rows|
    ensures Reachable(q, acts, s) && FireContext !in acts
    ensures s.pc == Fetching && s.rowCount == n && s.channel.buf == [] && !s.handle.closed
  {
    if n == 0 {
      acts, s := OpenRun(q);
    } else {
      acts, s := RowsRun(q, n - 1);
      acts, s := RowRun(q, acts, s);
    }
  }

  /** The run that lets the deferred steps of a finished producer go by, and then sees the channel closed. */
  lemma {:induction false} CloseRun(q: Query, acts: seq<Act>, s: Stream, n: nat) returns (acts': seq<Act>, s': Stream)
    requires Reachable(q, acts, s) && FireContext !in acts && s.pc == ClosingRows && n <= 5
    ensures Reachable(q, acts', s') && FireContext !in acts'
    ensures s'.pc == [ClosingRows, Cancelling, SignallingDone, ClosingChannel, ReleasingSlot, Exited][n]
    ensures s'.channel.buf == s.channel.buf && s'.handle.closed == s.handle.closed && s'.handle.err == s.handle.err
    ensures s'.consumed == s.consumed
  {
    if n == 0 {
      acts', s' := acts, s;
    } else {
      acts', s' := CloseRun(q, acts, s, n - 1);
      GoOn(q, acts', s', Unwind);
      acts', s' := acts' + [Unwind], Apply(s', Unwind);
    }
  }

  lemma EndRun(q: Query) returns (acts: seq<Act>, s: Stream)
    ensures Reachable(q, acts, s) && FireContext !in acts
    ensures s.pc == ClosingRows && s.rowCount == |q.rows| && s.channel.buf == [] && !s.handle.closed
    ensures s.handle.err == None && |s.consumed| == |q.rows|
  {
    acts, s := RowsRun(q, |q.rows|);
    ReachableInv(q, acts, s);
    GoOn(q, acts, s, EndRows);
    acts, s := acts + [EndRows], Apply(s, EndRows);
  }

  lemma DrainStep(s: Stream)
    requires Inv(s) && s.pc == Exited && s.channel.buf == [] && !s.handle.closed
    ensures Enabled(s, CallNext)
    ensures
      var s' := Apply(s, CallNext);
      s'.drained && s'.consumed == s.consumed && s'.handle.err == s.handle.err && s'.pc == Exited
  {}

  /** Every query can be streamed to its end: all rows delivered, no error, producer gone, without a cancellation. */
  lemma EveryStreamCanEndWell(q: Query)
    ensures exists acts, s ::
      && Reachable(q, acts, s) && FireContext !in acts && s.pc == Exited && s.drained
      && |s.consumed| == |q.rows| && ErrOf(s.handle) == None
  {
    var acts, s := EndRun(q);
    acts, s := CloseRun(q, acts, s, 5);
    ReachableInv(q, acts, s);
    DrainStep(s);
    GoOn(q, acts, s, CallNext);
    acts, s := acts + [CallNext], Apply(s, CallNext);
    ReachableInv(q, acts, s);
    NoRowFaults(s);
    assert Reachable(q, acts, s) && FireContext !in acts;
  }

  /** A channel holds as many rows as the batch size says, or 50 where that says nothing sensible. */
  lemma BlockedProducerHasFilledTheBatch(q: Query, acts: seq<Act>, s: Stream)
    requires Reachable(q, acts, s) && !ProducerCanStep(s) && s.pc != Exited
    ensures |s.channel.buf| == if q.batchSize > 0 then q.batchSize else 50
  {
    ReachableInv(q, acts, s);
    ProducerBlocksOnlyOnFullBuffer(s);
  }
}
