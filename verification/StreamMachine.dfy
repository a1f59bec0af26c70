/**
 pkg/db/stream.go: the producer goroutine of QueryStream, its consumer and its context, as one state machine.
 Every step is one synchronisation point of the program; the select statement offers each of its ready cases.
 */
module StreamMachine {
  import opened Text
  import opened StreamResults

  /** The query behind a stream. The channel's capacity is the batch size, or 50 where that is not positive. */
  datatype Query = Query(columns: seq<string>, rows: seq<Row>, batchSize: int, derivesContext: bool) {
    function Capacity(): (n: nat)
      ensures n > 0
    {
      if batchSize <= 0 then 50 else batchSize
    }
  }

  /** Where the producer stands. The last six are its deferred steps, in the order they run. */
  datatype Pc =
    | Starting | Querying | ReadingColumns | Fetching | Sending(row: StreamRow)
    | ClosingRows | Cancelling | SignallingDone | ClosingChannel | ReleasingSlot | Exited

  datatype Stream = Stream(
    query: Query,
    pc: Pc,
    ctxDone: bool,
    rowsOpen: bool,
    rowCount: nat,
    handle: Handle,
    channel: Channel,
    consumed: seq<StreamRow>,  // the rows that Next has delivered, oldest first
    drained: bool,             // Next has returned false because the channel was closed
    released: nat)             // how often this stream has given its slot back

  datatype Act =
    // producer
    | ContextCheck | RunQuery(ok: bool) | ReadColumns(ok: bool)
    | FetchRow | FailScan | FailIteration | EndRows
    | Send | SeeClosed | SeeContext
    | Unwind
    // consumer
    | CallNext | CallClose
    // environment
    | FireContext

  function Fresh(q: Query): Stream {
    Stream(q, Starting, false, false, 0, NEW_HANDLE, Channel([], q.Capacity(), 0), [], false, 0)
  }

  predicate Deferred(pc: Pc) {
    || pc == ClosingRows || pc == Cancelling || pc == SignallingDone
    || pc == ClosingChannel || pc == ReleasingSlot || pc == Exited
  }

  predicate IsProducer(a: Act) {
    a != CallNext && a != CallClose && a != FireContext
  }

  predicate Enabled(s: Stream, a: Act) {
    match a
    case ContextCheck => s.pc == Starting
    case RunQuery(_) => s.pc == Querying
    case ReadColumns(_) => s.pc == ReadingColumns
    case FetchRow => s.pc == Fetching && s.rowCount < |s.query.rows|
    case FailScan => s.pc == Fetching && s.rowCount < |s.query.rows|
    case FailIteration => s.pc == Fetching
    case EndRows => s.pc == Fetching && s.rowCount == |s.query.rows|
    case Send => s.pc.Sending? && |s.channel.buf| < s.channel.cap
    case SeeClosed => s.pc.Sending? && s.handle.doneCloses > 0
    case SeeContext => s.pc.Sending? && s.ctxDone
    case Unwind => Deferred(s.pc) && s.pc != Exited
    case CallNext => NextReady(s.handle, s.channel)
    case CallClose => true
    case FireContext => true
  }

  /** Leaving the goroutine body; `rows.Close` runs first, and does nothing for rows that were never opened. */
  function Leave(s: Stream, fault: Option<Fault>): Stream {
    s.(pc := ClosingRows, handle := if fault.Some? then AfterSetError(s.handle, fault.value) else s.handle)
  }

  function Unwound(s: Stream): Stream
    requires Deferred(s.pc) && s.pc != Exited
  {
    match s.pc
    case ClosingRows => s.(pc := Cancelling, rowsOpen := false)
    case Cancelling => s.(pc := SignallingDone, ctxDone := s.ctxDone || s.query.derivesContext)
    case SignallingDone => s.(pc := ClosingChannel, handle := AfterProducerDone(s.handle))
    case ClosingChannel => s.(pc := ReleasingSlot, channel := AfterCloseChannel(s.channel))
    case ReleasingSlot => s.(pc := Exited, released := s.released + 1)
  }

  function Apply(s: Stream, a: Act): Stream
    requires Enabled(s, a)
  {
    match a
    case ContextCheck => if s.ctxDone then Leave(s, Some(ContextDone)) else s.(pc := Querying)
    case RunQuery(ok) => if ok then s.(pc := ReadingColumns, rowsOpen := true) else Leave(s, Some(QueryFailed))
    case ReadColumns(ok) =>
      if ok then s.(pc := Fetching, handle := AfterSetColumns(s.handle, s.query.columns))
      else Leave(s, Some(ColumnsFailed))
    case FetchRow => s.(pc := Sending(StreamRow(s.query.rows[s.rowCount], s.rowCount, "")), rowCount := s.rowCount + 1)
    case FailScan => Leave(s, Some(ScanFailed))
    case FailIteration => Leave(s, Some(IterationFailed))
    case EndRows => Leave(s, None)
    case Send => s.(pc := Fetching, channel := AfterSend(s.channel, s.pc.row))
    case SeeClosed => Leave(s, None)
    case SeeContext => Leave(s, Some(ContextDone))
    case Unwind => Unwound(s)
    case CallNext =>
      var (h, ch, more) := AfterNext(s.handle, s.channel);
      s.(handle := h, channel := ch,
         consumed := if more then s.consumed + [s.channel.buf[0]] else s.consumed,
         drained := s.drained || (!more && !s.handle.closed))
    case CallClose => s.(handle := AfterClose(s.handle))
    case FireContext => s.(ctxDone := true)
  }

  /** The step would panic in Go: a second close of a channel, or a send on a closed one. */
  predicate Panics(s: Stream, a: Act) {
    match a
    case Send => s.channel.closes > 0
    case Unwind =>
      || (s.pc == SignallingDone && s.handle.prodCloses > 0)
      || (s.pc == ClosingChannel && s.channel.closes > 0)
    case CallClose => !s.handle.closed && s.handle.doneCloses > 0
    case _ => false
  }

  // ---- Invariant -------------------------------------------------------------------------------

  /** All rows of the query, each carrying its own position. */
  function Delivery(q: Query): (r: seq<StreamRow>)
    ensures |r| == |q.rows| && forall k | 0 <= k < |q.rows| :: r[k] == StreamRow(q.rows[k], k, "")
  {
    seq(|q.rows|, k requires 0 <= k < |q.rows| => StreamRow(q.rows[k], k, ""))
  }

  function Sent(s: Stream): nat {
    |s.consumed| + |s.channel.buf|
  }

  predicate RowsInv(s: Stream) {
    && Sent(s) <= s.rowCount <= |s.query.rows|
    && s.consumed + s.channel.buf == Delivery(s.query)[..Sent(s)]
    && |s.channel.buf| <= s.channel.cap == s.query.Capacity()
    && s.handle.index == |s.consumed|
    && s.handle.current == (if s.consumed == [] then None else Some(s.consumed[|s.consumed| - 1]))
    && (s.pc.Sending? ==> s.rowCount == Sent(s) + 1 && s.pc.row == Delivery(s.query)[Sent(s)])
    && (!Deferred(s.pc) && !s.pc.Sending? ==> s.rowCount == Sent(s))
  }

  predicate SignalsInv(s: Stream) {
    && s.handle.prodCloses == (if s.pc == ClosingChannel || s.pc == ReleasingSlot || s.pc == Exited then 1 else 0)
    && s.channel.closes == (if s.pc == ReleasingSlot || s.pc == Exited then 1 else 0)
    && s.released == (if s.pc == Exited then 1 else 0)
    && s.handle.doneCloses <= 1
    && (s.handle.closed <==> s.drained || s.handle.doneCloses == 1)
    && (s.drained ==> s.handle.doneCloses == 0 && s.channel.closes == 1 && s.channel.buf == [])
  }

  predicate OutcomeInv(s: Stream) {
    && (s.handle.err.Some? ==> Deferred(s.pc))
    && (Deferred(s.pc) && s.handle.err == None ==> Sent(s) == |s.query.rows| || s.handle.doneCloses == 1)
    && (s.pc == Fetching || s.pc.Sending? || s.rowCount > 0 ==> s.handle.columns == Some(s.query.columns))
    && (Deferred(s.pc) && s.handle.err == None ==> s.handle.columns == Some(s.query.columns))
    && (s.rowsOpen ==> s.pc == ReadingColumns || s.pc == Fetching || s.pc.Sending? || s.pc == ClosingRows)
  }

  predicate Inv(s: Stream) {
    RowsInv(s) && SignalsInv(s) && OutcomeInv(s)
  }

  lemma FreshInv(q: Query)
    ensures Inv(Fresh(q))
  {}

  lemma SendKeepsInv(s: Stream)
    requires Inv(s) && Enabled(s, Send)
    ensures Inv(Apply(s, Send)) && !Panics(s, Send)
  {
    var all, n := Delivery(s.query), Sent(s);
    assert all[..n] + [all[n]] == all[..n + 1];
    assert s.consumed + (s.channel.buf + [s.pc.row]) == s.consumed + s.channel.buf + [s.pc.row];
  }

  lemma NextKeepsInv(s: Stream)
    requires Inv(s) && Enabled(s, CallNext)
    ensures Inv(Apply(s, CallNext))
  {
    var buf := s.channel.buf;
    if !s.handle.closed && buf != [] {
      assert (s.consumed + [buf[0]]) + buf[1..] == s.consumed + buf;
    }
  }

  /** Any exit from the body: the deferred steps begin with everything delivered, or given up on, or an error noted. */
  lemma LeaveKeepsInv(s: Stream, fault: Option<Fault>)
    requires Inv(s) && !Deferred(s.pc)
    requires fault == None ==>
      (s.pc == Fetching || s.pc.Sending?) && (Sent(s) == |s.query.rows| || s.handle.doneCloses == 1)
    ensures Inv(Leave(s, fault))
  {}

  lemma UnwindKeepsInv(s: Stream)
    requires Inv(s) && Deferred(s.pc) && s.pc != Exited
    ensures Inv(Unwound(s)) && !Panics(s, Unwind)
  {}

  /** The steps that stay in the body of the goroutine. */
  lemma BodyKeepsInv(s: Stream, a: Act)
    requires Inv(s) && Enabled(s, a)
    requires a == ContextCheck || a == RunQuery(true) || a == ReadColumns(true) || a == FetchRow
    ensures (a == ContextCheck ==> !s.ctxDone) ==> Inv(Apply(s, a))
  {
    assert a == FetchRow ==> Apply(s, a).pc.row == Delivery(s.query)[Sent(s)];
  }

  lemma ConsumerKeepsInv(s: Stream, a: Act)
    requires Inv(s) && Enabled(s, a) && (a == CallClose || a == FireContext)
    ensures Inv(Apply(s, a)) && !Panics(s, a)
  {}

  /** Every step keeps the invariant, and no step ever panics. */
  lemma StepKeepsInv(s: Stream, a: Act)
    requires Inv(s) && Enabled(s, a)
    ensures Inv(Apply(s, a)) && !Panics(s, a)
  {
    match a
    case Send => SendKeepsInv(s);
    case CallNext => NextKeepsInv(s);
    case CallClose => ConsumerKeepsInv(s, a);
    case FireContext => ConsumerKeepsInv(s, a);
    case Unwind => UnwindKeepsInv(s);
    case ContextCheck => if s.ctxDone { LeaveKeepsInv(s, Some(ContextDone)); } else { BodyKeepsInv(s, a); }
    case RunQuery(ok) => if ok { BodyKeepsInv(s, a); } else { LeaveKeepsInv(s, Some(QueryFailed)); }
    case ReadColumns(ok) => if ok { BodyKeepsInv(s, a); } else { LeaveKeepsInv(s, Some(ColumnsFailed)); }
    case FetchRow => BodyKeepsInv(s, a);
    case FailScan => LeaveKeepsInv(s, Some(ScanFailed));
    case FailIteration => LeaveKeepsInv(s, Some(IterationFailed));
    case EndRows => LeaveKeepsInv(s, None);
    case SeeClosed => LeaveKeepsInv(s, None);
    case SeeContext => LeaveKeepsInv(s, Some(ContextDone));
  }

  // ---- Runs ------------------------------------------------------------------------------------

  /** `acts`, taken one after the other from `s`, lead to `s'`. */
  predicate Run(s: Stream, acts: seq<Act>, s': Stream)
    decreases acts
  {
    if acts == [] then s == s'
    else Enabled(s, acts[0]) && Run(Apply(s, acts[0]), acts[1..], s')
  }

  lemma StepKeepsQuery(s: Stream, a: Act)
    requires Enabled(s, a)
    ensures Apply(s, a).query == s.query
  {}

  lemma {:induction false} RunKeepsInv(s: Stream, acts: seq<Act>, s': Stream)
    requires Inv(s) && Run(s, acts, s')
    ensures Inv(s') && s'.query == s.query
    decreases acts
  {
    if acts == [] {
    } else {
      StepKeepsInv(s, acts[0]);
      StepKeepsQuery(s, acts[0]);
      RunKeepsInv(Apply(s, acts[0]), acts[1..], s');
    }
  }

  /** The states a stream can be in after any run of the query. */
  predicate Reachable(q: Query, acts: seq<Act>, s: Stream) {
    Run(Fresh(q), acts, s)
  }

  lemma ReachableInv(q: Query, acts: seq<Act>, s: Stream)
    requires Reachable(q, acts, s)
    ensures Inv(s) && s.query == q
  {
    FreshInv(q);
    RunKeepsInv(Fresh(q), acts, s);
  }
}
