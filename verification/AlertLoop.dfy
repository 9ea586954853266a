/** The alert part of a sample tick: evaluate, show, then offer for delivery (poller/poller.go). */
module AlertLoop {
  import opened AlertEval
  import opened AlertClass
  import opened StatusRing
  import opened Dispatch

  /** Offering a tick's events one after the other. */
  function OfferAll(p: Pipe, events: seq<Event>): Pipe {
    if events == [] then p else Next(OfferAll(p, events[..|events| - 1]), Offer(events[|events| - 1]))
  }

  /** The loop of non-blocking sends. */
  method OfferEvents(channel: Channel, events: seq<Event>)
    modifies channel
    ensures channel.queue == OfferAll(Pipe(old(channel.queue), [], []), events).queue
  {
    ghost var p := Pipe(channel.queue, [], []);
    for i := 0 to |events|
      invariant channel.queue == OfferAll(p, events[..i]).queue
    {
      assert events[..i + 1][..i] == events[..i];
      ghost var q := OfferAll(p, events[..i]);
      var sent := channel.TrySend(events[i]);
      assert Next(Pipe(q.queue, q.delivered, q.dropped), Offer(events[i])).queue == channel.queue;
    }
    assert events[..|events|] == events;
  }

  /** Show the evaluator's state, then offer the tick's events: the view and the ring follow the
      evaluator whatever the queue does, and only a full queue loses an event. */
  method Publish(evaluator: Evaluator, holder: StatusHolder, channel: Channel, events: seq<Event>)
    requires evaluator.Valid() && holder.Valid()
    modifies holder, channel
    ensures evaluator.Valid() && evaluator.View() == old(evaluator.View())
    ensures holder.Valid() && holder.enabled == old(holder.enabled)
    ensures IsActiveView(old(evaluator.View()), holder.active)
    ensures holder.recent == LastN(old(holder.recent) + events, RECENT_CAP)
    ensures channel.queue == OfferAll(Pipe(old(channel.queue), [], []), events).queue
  {
    var active := evaluator.Active();
    holder.Update(active, events);
    OfferEvents(channel, events);
  }

  /** evaluateAlerts, once the tick's inputs are read. */
  method EvaluateAlerts(evaluator: Evaluator, holder: StatusHolder, channel: Channel, now: int, input: Input)
    requires evaluator.Valid() && holder.Valid() && DistinctPeers(input.peers)
    modifies evaluator, evaluator.states.Values, holder, channel
    ensures evaluator.Valid() && fresh(evaluator.states.Values - old(evaluator.states.Values))
    ensures holder.Valid() && holder.enabled == old(holder.enabled)
    ensures var (s, events) := EvaluateTick(evaluator.cfg, old(evaluator.View()), Tick(now, input));
            && evaluator.View() == s && IsActiveView(s, holder.active)
            && holder.recent == LastN(old(holder.recent) + events, RECENT_CAP)
            && channel.queue == OfferAll(Pipe(old(channel.queue), [], []), events).queue
  {
    ghost var spec := EvaluateTick(evaluator.cfg, evaluator.View(), Tick(now, input));
    var events := evaluator.Evaluate(now, input);
    assert evaluator.View() == spec.0 && events == spec.1;
    assert holder.Valid() && holder.recent == old(holder.recent) && channel.queue == old(channel.queue);
    Publish(evaluator, holder, channel, events);
  }
}
