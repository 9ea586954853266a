/** Whole runs of the sample loop beside the dispatch worker: ticks, the sends of each tick, and
    the worker's receives, in any interleaving (poller/poller.go). */
module LoopRuns {
  import opened AlertEval
  import opened StatusRing
  import opened Dispatch

  /** An atomic step: the loop evaluates a tick and updates the holder, or sends its next event, or
      the worker receives. */
  datatype Action = Evaluate(tick: Tick) | Send | Deliver

  /** The ticks evaluated so far, the evaluator's state, the ring, the events of the current tick
      still to be sent, and the queue with what became of the sent ones. */
  datatype Loop = Loop(ticks: seq<Tick>, state: State, ring: seq<Event>, pending: seq<Event>, pipe: Pipe)

  const START := Loop([], FRESH, [], [], Pipe([], [], []))

  /** A tick starts only once the previous one's events are sent. */
  function Act(cfg: Config, l: Loop, a: Action): Loop {
    match a
    case Evaluate(t) =>
      if l.pending != [] then l
      else
        var (s, events) := EvaluateTick(cfg, l.state, t);
        Loop(l.ticks + [t], s, LastN(l.ring + events, RECENT_CAP), events, l.pipe)
    case Send =>
      if l.pending == [] then l
      else l.(pending := l.pending[1..], pipe := Next(l.pipe, Offer(l.pending[0])))
    case Deliver => l.(pipe := Next(l.pipe, Receive))
  }

  function LoopAfter(cfg: Config, actions: seq<Action>): Loop {
    if actions == [] then START else Act(cfg, LoopAfter(cfg, actions[..|actions| - 1]), actions[|actions| - 1])
  }

  /** The queue's own steps in an action, and in a run. */
  function ActionSteps(l: Loop, a: Action): seq<Step> {
    match a
    case Evaluate(_) => []
    case Send => if l.pending == [] then [] else [Offer(l.pending[0])]
    case Deliver => [Receive]
  }

  function PipeSteps(cfg: Config, actions: seq<Action>): seq<Step> {
    if actions == [] then []
    else
      var init := actions[..|actions| - 1];
      PipeSteps(cfg, init) + ActionSteps(LoopAfter(cfg, init), actions[|actions| - 1])
  }

  lemma PipeOneMore(steps: seq<Step>, step: Step)
    ensures PipeAfter(steps + [step]) == Next(PipeAfter(steps), step)
    ensures Offered(steps + [step]) == Offered(steps) + if step.Offer? then [step.event] else []
  {
    assert (steps + [step])[..|steps|] == steps;
  }

  lemma {:induction false} PipeFollowsSteps(cfg: Config, actions: seq<Action>)
    ensures LoopAfter(cfg, actions).pipe == PipeAfter(PipeSteps(cfg, actions))
    decreases |actions|
  {
    if actions != [] {
      var init, a := actions[..|actions| - 1], actions[|actions| - 1];
      var steps, l := PipeSteps(cfg, init), LoopAfter(cfg, init);
      PipeFollowsSteps(cfg, init);
      if a.Deliver? { PipeOneMore(steps, Receive); }
      if a.Send? && l.pending != [] { PipeOneMore(steps, Offer(l.pending[0])); }
      assert steps + [] == steps;
    }
  }

  lemma {:induction false} RingFollowsLog(cfg: Config, actions: seq<Action>)
    ensures var l := LoopAfter(cfg, actions);
            && l.state == StateAfter(cfg, l.ticks) && l.ring == RingAfter(cfg, l.ticks)
    decreases |actions|
  {
    if actions != [] {
      var l := LoopAfter(cfg, actions[..|actions| - 1]);
      RingFollowsLog(cfg, actions[..|actions| - 1]);
      if actions[|actions| - 1].Evaluate? {
        assert (l.ticks + [actions[|actions| - 1].tick])[..|l.ticks|] == l.ticks;
      }
    }
  }

  lemma LogOneMore(cfg: Config, ticks: seq<Tick>, t: Tick)
    ensures EventLog(cfg, ticks + [t]) == EventLog(cfg, ticks) + EvaluateTick(cfg, StateAfter(cfg, ticks), t).1
  {
    assert (ticks + [t])[..|ticks|] == ticks;
  }

  lemma SendMovesHead(steps: seq<Step>, pending: seq<Event>)
    requires pending != []
    ensures Offered(steps + [Offer(pending[0])]) + pending[1..] == Offered(steps) + pending
  {
    PipeOneMore(steps, Offer(pending[0]));
    assert pending == [pending[0]] + pending[1..];
  }

  lemma EvaluateExtends(cfg: Config, steps: seq<Step>, ticks: seq<Tick>, t: Tick)
    requires Offered(steps) + [] == EventLog(cfg, ticks)
    ensures Offered(steps + []) + EvaluateTick(cfg, StateAfter(cfg, ticks), t).1 == EventLog(cfg, ticks + [t])
  {
    LogOneMore(cfg, ticks, t);
    assert steps + [] == steps && Offered(steps) + [] == Offered(steps);
  }

  /** What one action offers and leaves pending. */
  lemma ActionKeepsSum(cfg: Config, steps: seq<Step>, l: Loop, a: Action)
    requires Offered(steps) + l.pending == EventLog(cfg, l.ticks) && l.state == StateAfter(cfg, l.ticks)
    ensures var next := Act(cfg, l, a);
            Offered(steps + ActionSteps(l, a)) + next.pending == EventLog(cfg, next.ticks)
  {
    match a
    case Evaluate(t) =>
      if l.pending == [] { EvaluateExtends(cfg, steps, l.ticks, t); } else { assert steps + [] == steps; }
    case Send =>
      if l.pending != [] { SendMovesHead(steps, l.pending); } else { assert steps + [] == steps; }
    case Deliver =>
      PipeOneMore(steps, Receive);
      assert Offered(steps) + [] == Offered(steps);
  }

  /** What is offered, then what is pending, is the whole event log. */
  lemma {:induction false} OfferedIsLog(cfg: Config, actions: seq<Action>)
    ensures var l := LoopAfter(cfg, actions);
            Offered(PipeSteps(cfg, actions)) + l.pending == EventLog(cfg, l.ticks)
    decreases |actions|
  {
    if actions != [] {
      var init := actions[..|actions| - 1];
      OfferedIsLog(cfg, init);
      RingFollowsLog(cfg, init);
      ActionKeepsSum(cfg, PipeSteps(cfg, init), LoopAfter(cfg, init), actions[|actions| - 1]);
    }
  }

  lemma {:induction false} SubsequenceOfMore(part: seq<Event>, whole: seq<Event>, more: seq<Event>)
    requires Subsequence(part, whole)
    ensures Subsequence(part, whole + more)
    decreases |more|
  {
    if more == [] {
      assert whole + more == whole;
    } else {
      SubsequenceOfMore(part, whole, more[..|more| - 1]);
      assert whole + more == whole + more[..|more| - 1] + [more[|more| - 1]];
      SubsequenceGrows(part, whole + more[..|more| - 1], more[|more| - 1]);
    }
  }

  /** In every interleaving of ticks, sends and receives: the ring is the last fifty events of the
      evaluator's log whatever the queue lost; delivered then queued events are that log in order
      with some left out; at most 64 are queued; and each event of the log is delivered, queued,
      dropped or still to be sent, exactly once. */
  lemma RingAndQueueFollowLog(cfg: Config, actions: seq<Action>)
    ensures var l := LoopAfter(cfg, actions);
            var log := EventLog(cfg, l.ticks);
            && l.ring == LastN(log, RECENT_CAP)
            && Subsequence(l.pipe.delivered + l.pipe.queue, log)
            && |l.pipe.queue| <= DISPATCH_BUFFER_SIZE
            && multiset(log) == multiset(l.pipe.delivered) + multiset(l.pipe.queue)
                                + multiset(l.pipe.dropped) + multiset(l.pending)
  {
    var l, steps := LoopAfter(cfg, actions), PipeSteps(cfg, actions);
    PipeFollowsSteps(cfg, actions);
    OfferedIsLog(cfg, actions);
    RingFollowsLog(cfg, actions);
    RingIsLastOfLog(cfg, l.ticks);
    DeliveredInOrder(steps);
    EveryEventAccountedFor(steps);
    SubsequenceOfMore(l.pipe.delivered + l.pipe.queue, Offered(steps), l.pending);
  }
}
