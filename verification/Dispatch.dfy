/** The bounded queue between the sample loop and the dispatch worker (poller/poller.go). */
module Dispatch {
  import opened Wrappers
  import opened AlertEval

  const DISPATCH_BUFFER_SIZE := 64

  /** One atomic step of either side: the loop offers an event, or the worker receives one. */
  datatype Step = Offer(event: Event) | Receive

  datatype Pipe = Pipe(queue: seq<Event>, delivered: seq<Event>, dropped: seq<Event>)

  /** A select with a default: send when there is room, else drop. A receive on an empty queue waits. */
  function Next(p: Pipe, step: Step): Pipe {
    match step
    case Offer(e) =>
      if |p.queue| < DISPATCH_BUFFER_SIZE then p.(queue := p.queue + [e]) else p.(dropped := p.dropped + [e])
    case Receive => if p.queue == [] then p else Pipe(p.queue[1..], p.delivered + [p.queue[0]], p.dropped)
  }

  function PipeAfter(steps: seq<Step>): Pipe {
    if steps == [] then Pipe([], [], []) else Next(PipeAfter(steps[..|steps| - 1]), steps[|steps| - 1])
  }

  /** The events the loop offered, in order: the evaluator's log. */
  function Offered(steps: seq<Step>): seq<Event> {
    if steps == [] then []
    else Offered(steps[..|steps| - 1]) + match steps[|steps| - 1] case Offer(e) => [e] case Receive => []
  }

  /** `part` is `whole` with some elements left out, order kept. */
  predicate Subsequence(part: seq<Event>, whole: seq<Event>)
    decreases |whole|
  {
    if part == [] then true
    else if whole == [] then false
    else if part[|part| - 1] == whole[|whole| - 1] && Subsequence(part[..|part| - 1], whole[..|whole| - 1]) then true
    else Subsequence(part, whole[..|whole| - 1])
  }

  /** The two sides' buffer, as the object they share. */
  class Channel {
    var queue: seq<Event>

    constructor ()
      ensures queue == []
    {
      queue := [];
    }

    /** Non-blocking send. */
    method TrySend(e: Event) returns (sent: bool)
      modifies this
      ensures forall delivered, dropped ::
                Next(Pipe(old(queue), delivered, dropped), Offer(e)) ==
                  Pipe(queue, delivered, if sent then dropped else dropped + [e])
    {
      if |queue| < DISPATCH_BUFFER_SIZE {
        queue := queue + [e];
        return true;
      }
      return false;
    }

    /** The worker's receive, None while it would wait. */
    method TryReceive() returns (e: Option<Event>)
      modifies this
      ensures forall delivered, dropped ::
                Next(Pipe(old(queue), delivered, dropped), Receive)
                == Pipe(queue, if e.None? then delivered else delivered + [e.value], dropped)
    {
      if queue == [] { return None; }
      e := Some(queue[0]);
      queue := queue[1..];
    }
  }

  lemma SubsequenceGrows(part: seq<Event>, whole: seq<Event>, e: Event)
    requires Subsequence(part, whole)
    ensures Subsequence(part + [e], whole + [e]) && Subsequence(part, whole + [e])
  {
    assert (part + [e])[..|part|] == part && (whole + [e])[..|whole|] == whole;
  }

  lemma ReceiveKeepsOrder(p: Pipe)
    ensures var q := Next(p, Receive);
            && q.delivered + q.queue == p.delivered + p.queue && q.dropped == p.dropped
            && multiset(q.delivered) + multiset(q.queue) == multiset(p.delivered) + multiset(p.queue)
  {
    if p.queue != [] {
      assert p.queue == [p.queue[0]] + p.queue[1..];
      assert Next(p, Receive).delivered + p.queue[1..] == p.delivered + p.queue;
    }
  }

  /** Under every interleaving nothing is reordered or invented, and the queue is bounded. */
  lemma {:induction false} DeliveredInOrder(steps: seq<Step>)
    ensures var p := PipeAfter(steps);
            |p.queue| <= DISPATCH_BUFFER_SIZE && Subsequence(p.delivered + p.queue, Offered(steps))
    decreases |steps|
  {
    if steps != [] {
      var init, step := steps[..|steps| - 1], steps[|steps| - 1];
      var p := PipeAfter(init);
      DeliveredInOrder(init);
      if step.Offer? {
        SubsequenceGrows(p.delivered + p.queue, Offered(init), step.event);
        assert p.delivered + (p.queue + [step.event]) == p.delivered + p.queue + [step.event];
      } else {
        ReceiveKeepsOrder(p);
        assert Offered(init) + [] == Offered(init);
      }
    }
  }

  /** `log` begins with `part`. */
  predicate Prefix(part: seq<Event>, log: seq<Event>) { |part| <= |log| && log[..|part|] == part }

  lemma StepKeepsQueued(p: Pipe, step: Step)
    ensures var q := Next(p, step);
            && Prefix(p.delivered + p.queue, q.delivered + q.queue)
            && (step.Offer? ==> q.delivered == p.delivered) && Prefix(p.delivered, q.delivered)
  {
    if step.Receive? { ReceiveKeepsOrder(p); }
  }

  /** What is queued stays queued until it is delivered, in its place: only an event on offer is ever
      dropped, never one that waits. */
  lemma {:induction false} QueuedIsDelivered(steps: seq<Step>, more: seq<Step>)
    ensures var p, q := PipeAfter(steps), PipeAfter(steps + more);
            Prefix(p.delivered + p.queue, q.delivered + q.queue) && Prefix(p.delivered, q.delivered)
    decreases |more|
  {
    if more == [] {
      assert steps + more == steps;
    } else {
      var init := more[..|more| - 1];
      QueuedIsDelivered(steps, init);
      assert (steps + more)[..|steps + more| - 1] == steps + init;
      StepKeepsQueued(PipeAfter(steps + init), more[|more| - 1]);
    }
  }

  /** Every offered event is delivered, queued or dropped, exactly once. */
  lemma {:induction false} EveryEventAccountedFor(steps: seq<Step>)
    ensures var p := PipeAfter(steps);
            multiset(Offered(steps)) == multiset(p.delivered) + multiset(p.queue) + multiset(p.dropped)
    decreases |steps|
  {
    if steps != [] {
      EveryEventAccountedFor(steps[..|steps| - 1]);
      ReceiveKeepsOrder(PipeAfter(steps[..|steps| - 1]));
    }
  }

  /** The backlog a queue without a bound would hold. */
  function Backlog(steps: seq<Step>): nat {
    if steps == [] then 0
    else
      var before := Backlog(steps[..|steps| - 1]);
      match steps[|steps| - 1] case Offer(_) => before + 1 case Receive => if before == 0 then 0 else before - 1
  }

  function BacklogAt(steps: seq<Step>, i: nat): nat
    requires i <= |steps|
  {
    Backlog(steps[..i])
  }

  ghost predicate BacklogFits(steps: seq<Step>) {
    forall i :: 0 <= i <= |steps| ==> BacklogAt(steps, i) <= DISPATCH_BUFFER_SIZE
  }

  lemma BacklogOfPrefix(steps: seq<Step>, i: nat)
    requires i < |steps|
    ensures BacklogAt(steps[..|steps| - 1], i) == BacklogAt(steps, i)
  {
    assert steps[..|steps| - 1][..i] == steps[..i];
  }

  lemma BacklogFitsSplits(steps: seq<Step>)
    requires steps != []
    ensures BacklogFits(steps) <==> BacklogFits(steps[..|steps| - 1]) && Backlog(steps) <= DISPATCH_BUFFER_SIZE
  {
    var n, init := |steps|, steps[..|steps| - 1];
    assert BacklogAt(steps, n) == Backlog(steps) by { assert steps[..n] == steps; }
    if BacklogFits(steps) {
      forall i | 0 <= i <= |init| ensures BacklogAt(init, i) <= DISPATCH_BUFFER_SIZE { BacklogOfPrefix(steps, i); }
    }
    if BacklogFits(init) && Backlog(steps) <= DISPATCH_BUFFER_SIZE {
      forall i | 0 <= i <= n ensures BacklogAt(steps, i) <= DISPATCH_BUFFER_SIZE {
        if i < n { BacklogOfPrefix(steps, i); }
      }
    }
  }

  /** No notification is lost exactly when the worker never falls more than the buffer behind. */
  lemma {:induction false} NothingDroppedIff(steps: seq<Step>)
    ensures PipeAfter(steps).dropped == [] <==> BacklogFits(steps)
    ensures BacklogFits(steps) ==> |PipeAfter(steps).queue| == Backlog(steps)
    decreases |steps|
  {
    if steps != [] {
      var init := steps[..|steps| - 1];
      NothingDroppedIff(init);
      BacklogFitsSplits(steps);
      assert BacklogAt(init, |init|) == Backlog(init) by { assert init[..|init|] == init; }
    } else {
      assert forall i :: 0 <= i <= |steps| ==> BacklogAt(steps, i) == 0;
    }
  }

  /** Without drops every event reaches the worker in order: delivered, then queued, is the log. */
  lemma {:induction false} NothingDroppedIsFifo(steps: seq<Step>)
    requires BacklogFits(steps)
    ensures PipeAfter(steps).delivered + PipeAfter(steps).queue == Offered(steps)
    decreases |steps|
  {
    if steps != [] {
      var init := steps[..|steps| - 1];
      BacklogFitsSplits(steps);
      NothingDroppedIsFifo(init);
      NothingDroppedIff(init);
      NothingDroppedIff(steps);
    }
  }
}
