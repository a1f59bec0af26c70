/** What a stream guarantees over whole runs: order, completeness, clean shutdown, progress and termination. */
module StreamTheorems {
  import opened Text
  import opened StreamResults
  import opened StreamMachine

  // ---- Order and completeness ------------------------------------------------------------------

  /**
   The rows Next has delivered are the first rows of the query, each with its position; a drained stream without error
   delivered all.
   */
  lemma RowsArriveInOrder(q: Query, acts: seq<Act>, s: Stream)
    requires Reachable(q, acts, s)
    ensures |s.consumed| <= |q.rows|
    ensures forall k | 0 <= k < |s.consumed| :: s.consumed[k].row == q.rows[k] && s.consumed[k].index == k
    ensures s.handle.index == |s.consumed|
    ensures s.handle.current == (if s.consumed == [] then None else Some(s.consumed[|s.consumed| - 1]))
    ensures s.drained && ErrOf(s.handle) == None ==> |s.consumed| == |q.rows|
    ensures s.consumed != [] || (s.drained && ErrOf(s.handle) == None) ==> s.handle.columns == Some(q.columns)
  {
    ReachableInv(q, acts, s);
    var all := Delivery(q)[..Sent(s)];
    forall k | 0 <= k < |s.consumed|
      ensures s.consumed[k] == all[k]
    {
      assert s.consumed[k] == (s.consumed + s.channel.buf)[k];
    }
  }

  // ---- Shutdown --------------------------------------------------------------------------------

  /** No step of any run closes a channel twice or sends on a closed one. */
  lemma NoRunPanics(q: Query, acts: seq<Act>, s: Stream, a: Act)
    requires Reachable(q, acts, s) && Enabled(s, a)
    ensures !Panics(s, a)
  {
    ReachableInv(q, acts, s);
    StepKeepsInv(s, a);
  }

  /**
   Each signal is given at most once, in order; a finished producer has closed everything exactly once and given its
   slot back once.
   */
  lemma ShutdownIsClean(q: Query, acts: seq<Act>, s: Stream)
    requires Reachable(q, acts, s)
    ensures s.handle.doneCloses <= 1 && s.released <= s.channel.closes <= s.handle.prodCloses <= 1
    ensures s.handle.prodCloses == 1 ==> !s.rowsOpen
    ensures s.pc == Exited ==> s.released == 1
  {
    ReachableInv(q, acts, s);
  }

  lemma StepKeepsResult(s: Stream, a: Act)
    requires Inv(s) && Enabled(s, a) && s.handle.prodCloses > 0
    ensures
      var s' := Apply(s, a);
      s'.handle.err == s.handle.err && s'.handle.columns == s.handle.columns && s'.handle.prodCloses > 0
  {}

  /** Once prodDone is closed, the error, the columns and the closed result set stay as they are. */
  lemma {:induction false} ResultIsFinal(s: Stream, acts: seq<Act>, s': Stream)
    requires Inv(s) && Run(s, acts, s') && s.handle.prodCloses > 0
    ensures s'.handle.err == s.handle.err && s'.handle.columns == s.handle.columns
    ensures s'.handle.prodCloses == 1 && !s'.rowsOpen
    decreases acts
  {
    if acts == [] {
    } else {
      StepKeepsInv(s, acts[0]);
      StepKeepsResult(s, acts[0]);
      ResultIsFinal(Apply(s, acts[0]), acts[1..], s');
    }
  }

  /** A consumer that saw the channel closed reads the final outcome: no later step changes it. */
  lemma DrainedOutcomeIsFinal(s: Stream, acts: seq<Act>, s': Stream)
    requires Inv(s) && s.drained && Run(s, acts, s')
    ensures ErrOf(s'.handle) == ErrOf(s.handle)
  {
    ResultIsFinal(s, acts, s');
    RunKeepsInv(s, acts, s');
    NoRowFaults(s);
    NoRowFaults(s');
  }

  /** The producer never marks a row as faulty, so Err reads the stream's own error. */
  lemma NoRowFaults(s: Stream)
    requires Inv(s)
    ensures ErrOf(s.handle) == s.handle.err
  {
    if s.consumed != [] {
      var n := |s.consumed| - 1;
      assert s.consumed[n] == (s.consumed + s.channel.buf)[n] == Delivery(s.query)[..Sent(s)][n];
    }
  }

  /** The instant Wait is let go, in any run, the slot is still held and the row channel still open. */
  lemma WaitReturnsBeforeRelease(s: Stream, a: Act)
    requires Inv(s) && Enabled(s, a) && s.handle.prodCloses == 0 && Apply(s, a).handle.prodCloses == 1
    ensures Apply(s, a).released == 0 && Apply(s, a).channel.closes == 0 && Apply(s, a).pc == ClosingChannel
  {
    StepKeepsInv(s, a);
  }

  /**
   Neither a return from Wait nor a drained iterator means a free slot: that is so exactly when the producer has
   exited.
   */
  lemma SlotIsFreeOnExit(s: Stream)
    requires Inv(s)
    ensures s.released == 1 <==> s.pc == Exited
    ensures s.handle.prodCloses == 1 <==> s.pc == ClosingChannel || s.pc == ReleasingSlot || s.pc == Exited
    ensures s.drained ==> s.pc == ReleasingSlot || s.pc == Exited
    ensures s.handle.prodCloses == 1 && s.released == 0 ==>
      Enabled(s, Unwind) && (Apply(s, Unwind).released == 1 || Apply(Apply(s, Unwind), Unwind).released == 1)
  {}

  lemma {:induction false} RunExtend(s: Stream, acts: seq<Act>, s': Stream, a: Act)
    requires Run(s, acts, s') && Enabled(s', a)
    ensures Run(s, acts + [a], Apply(s', a))
    decreases acts
  {
    if acts == [] {
      assert [] + [a] == [a] && [a][1..] == [];
    } else {
      assert (acts + [a])[1..] == acts[1..] + [a];
      RunExtend(Apply(s, acts[0]), acts[1..], s', a);
    }
  }

  /** `n` deferred steps. */
  lemma {:induction false} UnwindRun(q: Query, acts: seq<Act>, s: Stream, n: nat) returns (acts': seq<Act>, s': Stream)
    requires Reachable(q, acts, s) && s.pc == ClosingRows && n <= 4
    ensures Reachable(q, acts', s')
    ensures s'.pc == [ClosingRows, Cancelling, SignallingDone, ClosingChannel, ReleasingSlot][n]
    ensures s'.channel.buf == s.channel.buf && s'.handle.closed == s.handle.closed
  {
    if n == 0 {
      acts', s' := acts, s;
    } else {
      acts', s' := UnwindRun(q, acts, s, n - 1);
      RunExtend(Fresh(q), acts', s', Unwind);
      acts', s' := acts' + [Unwind], Apply(s', Unwind);
    }
  }

  lemma CancelledRun(q: Query) returns (acts: seq<Act>, s: Stream)
    ensures Reachable(q, acts, s)
    ensures s.pc == ClosingRows && s.channel.buf == [] && !s.handle.closed
  {
    var s0 := Fresh(q);
    acts, s := [FireContext], Apply(s0, FireContext);
    assert acts[1..] == [] && Run(s, [], s);
    RunExtend(s0, acts, s, ContextCheck);
    acts, s := acts + [ContextCheck], Apply(s, ContextCheck);
  }

  lemma DrainingStep(s: Stream)
    requires Inv(s) && s.pc == ReleasingSlot && s.channel.buf == [] && !s.handle.closed
    ensures Enabled(s, CallNext)
    ensures
      var s' := Apply(s, CallNext);
      s'.handle.prodCloses == 1 && s'.drained && s'.released == 0
  {}

  /** Both happen: a caller can be back from Wait, and its iterator drained, while the stream still counts as active. */
  lemma DrainedStreamCanHoldItsSlot(q: Query)
    ensures exists acts, s :: Reachable(q, acts, s) && s.handle.prodCloses == 1 && s.drained && s.released == 0
  {
    var acts, s := CancelledRun(q);
    acts, s := UnwindRun(q, acts, s, 4);
    ReachableInv(q, acts, s);
    DrainingStep(s);
    RunExtend(Fresh(q), acts, s, CallNext);
    assert Reachable(q, acts + [CallNext], Apply(s, CallNext));
  }

  // ---- Progress --------------------------------------------------------------------------------

  ghost predicate ProducerCanStep(s: Stream) {
    exists a :: IsProducer(a) && Enabled(s, a)
  }

  /** A producer that cannot step has finished, or waits to send into a full buffer that nobody has given up on. */
  lemma ProducerBlocksOnlyOnFullBuffer(s: Stream)
    requires Inv(s)
    ensures !ProducerCanStep(s) <==>
      s.pc == Exited || (s.pc.Sending? && |s.channel.buf| == s.channel.cap && s.handle.doneCloses == 0 && !s.ctxDone)
  {
    match s.pc
    case Starting => assert Enabled(s, ContextCheck);
    case Querying => assert Enabled(s, RunQuery(true));
    case ReadingColumns => assert Enabled(s, ReadColumns(true));
    case Fetching => assert Enabled(s, FailIteration);
    case Sending(_) =>
      if |s.channel.buf| < s.channel.cap {
        assert Enabled(s, Send);
      } else if s.handle.doneCloses > 0 {
        assert Enabled(s, SeeClosed);
      } else if s.ctxDone {
        assert Enabled(s, SeeContext);
      }
    case Exited =>
    case _ => assert Enabled(s, Unwind);
  }

  /**
   A blocked Next means a producer that can go on, and a blocked producer is let go by Next, by Close and by the
   context.
   */
  lemma NobodyWaitsForever(s: Stream)
    requires Inv(s)
    ensures !NextReady(s.handle, s.channel) ==> ProducerCanStep(s)
    ensures !ProducerCanStep(s) && s.pc != Exited ==>
      && NextReady(s.handle, s.channel) && !s.handle.closed
      && ProducerCanStep(Apply(s, CallNext))
      && ProducerCanStep(Apply(s, CallClose))
      && ProducerCanStep(Apply(s, FireContext))
  {
    ProducerBlocksOnlyOnFullBuffer(s);
    if !ProducerCanStep(s) && s.pc != Exited {
      forall a | a == CallNext || a == CallClose || a == FireContext
        ensures ProducerCanStep(Apply(s, a))
      {
        StepKeepsInv(s, a);
        ProducerBlocksOnlyOnFullBuffer(Apply(s, a));
      }
    }
  }

  // ---- Termination -----------------------------------------------------------------------------

  /** The step does something: calls on a closed iterator and repeated cancellations do not. */
  predicate Effective(s: Stream, a: Act) {
    match a
    case CallNext => !s.handle.closed
    case CallClose => !s.handle.closed
    case FireContext => !s.ctxDone
    case _ => true
  }

  function PcRank(pc: Pc, left: nat): nat {
    match pc
    case Starting => 9 + 2 * left
    case Querying => 8 + 2 * left
    case ReadingColumns => 7 + 2 * left
    case Fetching => 6 + 2 * left
    case Sending(_) => 7 + 2 * left
    case ClosingRows => 5
    case Cancelling => 4
    case SignallingDone => 3
    case ClosingChannel => 2
    case ReleasingSlot => 1
    case Exited => 0
  }

  predicate Bounded(s: Stream) {
    s.rowCount <= |s.query.rows| && |s.consumed| <= |s.query.rows|
  }

  function Rank(s: Stream): nat
    requires Bounded(s)
  {
    PcRank(s.pc, |s.query.rows| - s.rowCount)
    + (|s.query.rows| - |s.consumed|)
    + (if s.handle.closed then 0 else 1)
    + (if s.ctxDone then 0 else 1)
  }

  lemma UnwindDescends(s: Stream)
    requires Bounded(s) && Deferred(s.pc) && s.pc != Exited
    ensures Bounded(Unwound(s)) && Rank(Unwound(s)) < Rank(s)
  {}

  lemma LeaveDescends(s: Stream, fault: Option<Fault>)
    requires Bounded(s) && !Deferred(s.pc)
    ensures Bounded(Leave(s, fault)) && Rank(Leave(s, fault)) < Rank(s)
  {}

  lemma BodyDescends(s: Stream, a: Act)
    requires Bounded(s) && Enabled(s, a) && (a == ContextCheck ==> !s.ctxDone)
    requires a == ContextCheck || a == RunQuery(true) || a == ReadColumns(true) || a == FetchRow || a == Send
    ensures Bounded(Apply(s, a)) && Rank(Apply(s, a)) < Rank(s)
  {}

  lemma OthersDescend(s: Stream, a: Act)
    requires Bounded(s) && Enabled(s, a) && Effective(s, a) && (a == CallNext || a == CallClose || a == FireContext)
    ensures Bounded(Apply(s, a)) ==> Rank(Apply(s, a)) < Rank(s)
  {}

  lemma InvIsBounded(s: Stream)
    requires Inv(s)
    ensures Bounded(s)
  {}

  lemma StepDescends(s: Stream, a: Act)
    requires Bounded(s) && Enabled(s, a) && Effective(s, a)
    ensures Bounded(Apply(s, a)) ==> Rank(Apply(s, a)) < Rank(s)
  {
    match a
    case Unwind => UnwindDescends(s);
    case ContextCheck => if s.ctxDone { LeaveDescends(s, Some(ContextDone)); } else { BodyDescends(s, a); }
    case RunQuery(ok) => if ok { BodyDescends(s, a); } else { LeaveDescends(s, Some(QueryFailed)); }
    case ReadColumns(ok) => if ok { BodyDescends(s, a); } else { LeaveDescends(s, Some(ColumnsFailed)); }
    case FetchRow => BodyDescends(s, a);
    case Send => BodyDescends(s, a);
    case FailScan => LeaveDescends(s, Some(ScanFailed));
    case FailIteration => LeaveDescends(s, Some(IterationFailed));
    case EndRows => LeaveDescends(s, None);
    case SeeClosed => LeaveDescends(s, None);
    case SeeContext => LeaveDescends(s, Some(ContextDone));
    case _ => OthersDescend(s, a);
  }

  lemma EffectiveStepsDescend(s: Stream, a: Act)
    requires Inv(s) && Enabled(s, a) && Effective(s, a)
    ensures Inv(Apply(s, a)) && Bounded(s) && Bounded(Apply(s, a)) && Rank(Apply(s, a)) < Rank(s)
  {
    StepKeepsInv(s, a);
    InvIsBounded(s);
    InvIsBounded(Apply(s, a));
    StepDescends(s, a);
  }

  /** A run all of whose steps do something. */
  predicate EffectiveRun(s: Stream, acts: seq<Act>, s': Stream)
    decreases acts
  {
    if acts == [] then s == s'
    else
      Enabled(s, acts[0]) && Effective(s, acts[0]) && EffectiveRun(Apply(s, acts[0]), acts[1..], s')
  }

  lemma {:induction false} EffectiveRunsAreShort(s: Stream, acts: seq<Act>, s': Stream)
    requires Inv(s) && EffectiveRun(s, acts, s')
    ensures Inv(s') && s'.query == s.query && Bounded(s) && Bounded(s') && |acts| + Rank(s') <= Rank(s)
    decreases acts
  {
    InvIsBounded(s);
    if acts == [] {
    } else {
      EffectiveStepsDescend(s, acts[0]);
      StepKeepsQuery(s, acts[0]);
      EffectiveRunsAreShort(Apply(s, acts[0]), acts[1..], s');
    }
  }

  /** The producer cannot step and a call of Next has nothing left to do: it returns false at once. */
  ghost predicate Settled(s: Stream) {
    !ProducerCanStep(s) && (NextReady(s.handle, s.channel) ==> s.handle.closed)
  }

  /**
   Every stream ends: a run over n rows has at most 3n + 11 steps that do anything, and one that cannot be continued
   by the producer or by a consumer asking for rows has released its slot and closed the iterator.
   */
  lemma EveryRunEnds(q: Query, acts: seq<Act>, s: Stream)
    requires EffectiveRun(Fresh(q), acts, s)
    ensures |acts| <= 3 * |q.rows| + 11
    ensures Settled(s) ==> s.pc == Exited && s.released == 1 && s.handle.closed
  {
    FreshInv(q);
    EffectiveRunsAreShort(Fresh(q), acts, s);
    ProducerBlocksOnlyOnFullBuffer(s);
  }
}
