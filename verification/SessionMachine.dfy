/** The concurrency slots of pkg/db/session.go under any number of interleaved streams. */
module SessionMachine {
  import opened StreamMachine
  import opened StreamTheorems

  // ---- The slot counter ------------------------------------------------------------------------

  /** acquireConcurrencySlot: whether a slot is granted. */
  predicate Grants(max: int, active: int) {
    max <= 0 || active < max
  }

  function AfterAcquire(max: int, active: int): int {
    if max <= 0 || active >= max then active else active + 1
  }

  function AfterRelease(max: int, active: int): int {
    if max <= 0 then active else active - 1
  }

  class Session {
    const maxConcurrentQueries: int
    var active: int

    constructor (max: int)
      ensures maxConcurrentQueries == max && active == 0
    {
      maxConcurrentQueries, active := max, 0;
    }

    method AcquireConcurrencySlot() returns (ok: bool)
      modifies this
      ensures ok == Grants(maxConcurrentQueries, old(active))
      ensures ok <==> maxConcurrentQueries <= 0 || old(active) < maxConcurrentQueries
      ensures active == AfterAcquire(maxConcurrentQueries, old(active))
    {
      if maxConcurrentQueries <= 0 {
        return true;
      }
      if active >= maxConcurrentQueries {
        return false;
      }
      active := active + 1;
      ok := true;
    }

    method ReleaseConcurrencySlot()
      modifies this
      ensures active == AfterRelease(maxConcurrentQueries, old(active))
    {
      if maxConcurrentQueries <= 0 {
        return;
      }
      active := active - 1;
    }
  }

  // ---- Many streams on one session -------------------------------------------------------------

  datatype World = World(max: int, active: int, streams: seq<Stream>, rejected: nat)

  /** A call of QueryStream, or a step of one of the streams already accepted. */
  datatype Event = Open(query: Query) | On(stream: nat, act: Act)

  function Idle(max: int): World {
    World(max, 0, [], 0)
  }

  /** The accepted streams that have not given their slot back. */
  function Live(streams: seq<Stream>): nat {
    if streams == [] then 0 else (if streams[0].released == 0 then 1 else 0) + Live(streams[1..])
  }

  predicate WorldInv(w: World) {
    && (forall i | 0 <= i < |w.streams| :: Inv(w.streams[i]))
    && w.active == (if w.max > 0 then Live(w.streams) else 0)
    && (w.max > 0 ==> w.active <= w.max)
  }

  predicate Possible(w: World, e: Event) {
    match e
    case Open(_) => true
    case On(i, a) => i < |w.streams| && Enabled(w.streams[i], a)
  }

  function After(w: World, e: Event): World
    requires Possible(w, e)
  {
    match e
    case Open(q) =>
      if Grants(w.max, w.active)
      then w.(active := AfterAcquire(w.max, w.active), streams := w.streams + [Fresh(q)])
      else w.(rejected := w.rejected + 1)
    case On(i, a) =>
      var s := w.streams[i];
      w.(streams := w.streams[i := Apply(s, a)],
         active := if s.pc == ReleasingSlot && a == Unwind then AfterRelease(w.max, w.active) else w.active)
  }

  lemma {:induction false} LiveAppend(streams: seq<Stream>, s: Stream)
    requires s.released == 0
    ensures Live(streams + [s]) == Live(streams) + 1
  {
    if streams == [] {
      assert [] + [s] == [s];
    } else {
      assert (streams + [s])[1..] == streams[1..] + [s];
      LiveAppend(streams[1..], s);
    }
  }

  lemma {:induction false} LiveUpdate(streams: seq<Stream>, i: nat, s: Stream)
    requires i < |streams|
    ensures Live(streams[i := s]) ==
      Live(streams) - (if streams[i].released == 0 then 1 else 0) + (if s.released == 0 then 1 else 0)
  {
    if i == 0 {
      assert streams[0 := s][1..] == streams[1..];
    } else {
      assert streams[i := s][1..] == streams[1..][i - 1 := s];
      LiveUpdate(streams[1..], i - 1, s);
    }
  }

  lemma ReleaseStep(s: Stream, a: Act)
    requires Inv(s) && Enabled(s, a)
    ensures s.pc == ReleasingSlot && a == Unwind <==> s.released == 0 && Apply(s, a).released == 1
    ensures Apply(s, a).released >= s.released
  {
    StepKeepsInv(s, a);
  }

  lemma WorldStepKeepsInv(w: World, e: Event)
    requires WorldInv(w) && Possible(w, e)
    ensures WorldInv(After(w, e)) && After(w, e).max == w.max
  {
    match e
    case Open(q) =>
      FreshInv(q);
      LiveAppend(w.streams, Fresh(q));
    case On(i, a) =>
      StepKeepsInv(w.streams[i], a);
      ReleaseStep(w.streams[i], a);
      LiveUpdate(w.streams, i, Apply(w.streams[i], a));
  }

  predicate History(w: World, events: seq<Event>, w': World)
    decreases events
  {
    if events == [] then w == w'
    else Possible(w, events[0]) && History(After(w, events[0]), events[1..], w')
  }

  lemma {:induction false} HistoryKeepsInv(w: World, events: seq<Event>, w': World)
    requires WorldInv(w) && History(w, events, w')
    ensures WorldInv(w') && w'.max == w.max
    decreases events
  {
    if events == [] {
    } else {
      WorldStepKeepsInv(w, events[0]);
      HistoryKeepsInv(After(w, events[0]), events[1..], w');
    }
  }

  lemma {:induction false} NoneLive(streams: seq<Stream>)
    requires forall i | 0 <= i < |streams| :: streams[i].released > 0
    ensures Live(streams) == 0
  {
    if streams == [] {
    } else {
      assert forall i | 0 <= i < |streams| - 1 :: streams[1..][i] == streams[i + 1];
      NoneLive(streams[1..]);
    }
  }

  /**
   In every history the counter is the number of accepted, unreleased streams, within its bounds; it is 0 once all
   producers are gone.
   */
  lemma SlotsAreConserved(max: int, events: seq<Event>, w: World)
    requires max > 0 && History(Idle(max), events, w)
    ensures w.active == Live(w.streams) && 0 <= w.active <= max
    ensures forall i | 0 <= i < |w.streams| ::
      w.streams[i].released <= 1 && (w.streams[i].released == 1 <==> w.streams[i].pc == Exited)
    ensures (forall i | 0 <= i < |w.streams| :: w.streams[i].pc == Exited) ==> w.active == 0
  {
    HistoryKeepsInv(Idle(max), events, w);
    if forall i | 0 <= i < |w.streams| :: w.streams[i].pc == Exited {
      NoneLive(w.streams);
    }
  }

  /** When no stream can go on and every consumer has stopped asking, the session has all its slots back. */
  lemma QuietSessionIsFree(max: int, events: seq<Event>, w: World)
    requires max > 0 && History(Idle(max), events, w)
    requires forall i | 0 <= i < |w.streams| :: Settled(w.streams[i])
    ensures w.active == 0 && Grants(max, w.active)
  {
    HistoryKeepsInv(Idle(max), events, w);
    forall i | 0 <= i < |w.streams|
      ensures w.streams[i].pc == Exited
    {
      ProducerBlocksOnlyOnFullBuffer(w.streams[i]);
    }
    SlotsAreConserved(max, events, w);
  }

  /** A call is turned away exactly when the limit's worth of earlier streams still hold their slots. */
  lemma RejectionMeansFull(max: int, events: seq<Event>, w: World)
    requires max > 0 && History(Idle(max), events, w)
    ensures !Grants(max, w.active) <==> Live(w.streams) == max
  {
    HistoryKeepsInv(Idle(max), events, w);
  }

  /** How often QueryStream was called. */
  function Calls(events: seq<Event>): nat {
    if events == [] then 0 else (if events[0].Open? then 1 else 0) + Calls(events[1..])
  }

  lemma {:induction false} CallsAreCounted(w: World, events: seq<Event>, w': World)
    requires History(w, events, w')
    ensures |w'.streams| + w'.rejected == |w.streams| + w.rejected + Calls(events)
    ensures w.max <= 0 ==> w'.rejected == w.rejected
    ensures w'.max == w.max
    decreases events
  {
    if events == [] {
    } else {
      CallsAreCounted(After(w, events[0]), events[1..], w');
    }
  }

  /** Every call is accepted or rejected, once; without a maximum all are accepted and no slot is counted. */
  lemma EveryCallIsAnswered(max: int, events: seq<Event>, w: World)
    requires History(Idle(max), events, w)
    ensures |w.streams| + w.rejected == Calls(events)
    ensures max <= 0 ==> |w.streams| == Calls(events) && w.rejected == 0 && w.active == 0
  {
    CallsAreCounted(Idle(max), events, w);
    HistoryKeepsInv(Idle(max), events, w);
  }

  /**
   The next call is rejected, and changes nothing else, if and only if a positive maximum of streams still holds its
   slots.
   */
  lemma NextCallIsRejectedExactly(max: int, events: seq<Event>, w: World, q: Query)
    requires History(Idle(max), events, w)
    ensures max > 0 && Live(w.streams) == max ==> After(w, Open(q)) == w.(rejected := w.rejected + 1)
    ensures max <= 0 || Live(w.streams) != max ==>
      After(w, Open(q)).streams == w.streams + [Fresh(q)] && After(w, Open(q)).rejected == w.rejected
    ensures max > 0 ==> After(w, Open(q)).active == Live(After(w, Open(q)).streams)
  {
    HistoryKeepsInv(Idle(max), events, w);
    WorldStepKeepsInv(w, Open(q));
  }

  // ---- Termination of whole sessions -----------------------------------------------------------

  predicate AllInv(streams: seq<Stream>) {
    forall i | 0 <= i < |streams| :: Inv(streams[i])
  }

  function TotalRank(streams: seq<Stream>): nat
    requires AllInv(streams)
  {
    if streams == [] then 0
    else
      InvIsBounded(streams[0]);
      Rank(streams[0]) + TotalRank(streams[1..])
  }

  lemma {:induction false} TotalRankAppend(streams: seq<Stream>, s: Stream)
    requires AllInv(streams) && Inv(s) && Bounded(s)
    ensures AllInv(streams + [s]) && TotalRank(streams + [s]) == TotalRank(streams) + Rank(s)
  {
    if streams == [] {
      assert [] + [s] == [s];
    } else {
      assert (streams + [s])[1..] == streams[1..] + [s];
      TotalRankAppend(streams[1..], s);
    }
  }

  lemma {:induction false} TotalRankUpdate(streams: seq<Stream>, i: nat, s: Stream)
    requires AllInv(streams) && i < |streams| && Inv(s)
    requires Bounded(s) && Bounded(streams[i]) && Rank(s) < Rank(streams[i])
    ensures AllInv(streams[i := s]) && TotalRank(streams[i := s]) < TotalRank(streams)
  {
    if i == 0 {
      assert streams[0 := s][1..] == streams[1..];
    } else {
      assert streams[i := s][1..] == streams[1..][i - 1 := s];
      TotalRankUpdate(streams[1..], i - 1, s);
    }
  }

  /** The steps that the queries of a history can cost: each call itself, and the longest run of its stream. */
  function Budget(events: seq<Event>): nat {
    if events == [] then 0
    else (match events[0] case Open(q) => 3 * |q.rows| + 12 case On(_, _) => 0) + Budget(events[1..])
  }

  predicate EffectiveHistory(w: World, events: seq<Event>, w': World)
    decreases events
  {
    if events == [] then w == w'
    else
      && Possible(w, events[0])
      && (events[0].On? ==> Effective(w.streams[events[0].stream], events[0].act))
      && EffectiveHistory(After(w, events[0]), events[1..], w')
  }

  lemma WorldStepDescends(w: World, e: Event)
    requires WorldInv(w) && Possible(w, e) && (e.On? ==> Effective(w.streams[e.stream], e.act))
    ensures WorldInv(After(w, e)) && 1 + TotalRank(After(w, e).streams) <= TotalRank(w.streams) + Budget([e])
  {
    WorldStepKeepsInv(w, e);
    match e
    case Open(q) =>
      FreshInv(q);
      TotalRankAppend(w.streams, Fresh(q));
    case On(i, a) =>
      EffectiveStepsDescend(w.streams[i], a);
      TotalRankUpdate(w.streams, i, Apply(w.streams[i], a));
  }

  /**
   However the streams interleave, a history takes no more steps than its queries have to give: no session runs on for
   ever.
   */
  lemma {:induction false} EveryHistoryEnds(w: World, events: seq<Event>, w': World)
    requires WorldInv(w) && EffectiveHistory(w, events, w')
    ensures WorldInv(w') && |events| + TotalRank(w'.streams) <= TotalRank(w.streams) + Budget(events)
    decreases events
  {
    if events == [] {
    } else {
      WorldStepDescends(w, events[0]);
      EveryHistoryEnds(After(w, events[0]), events[1..], w');
    }
  }
}
