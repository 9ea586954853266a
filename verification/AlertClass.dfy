/** The evaluator as the object the poller drives, with one machine on the heap per key. */
module AlertClass {
  import opened Wrappers
  import opened Ordering
  import opened AlertMachine
  import opened AlertEval
  import opened AlertRuns

  /** One row of the active-alerts view. */
  datatype ActiveAlert = ActiveAlert(key: Key, since: Option<int>)

  predicate ByAlertKey(a: ActiveAlert, b: ActiveAlert) { !Less(KeyText(b.key), KeyText(a.key)) }

  /** What Active must return for a state: every firing key once, with its original fire time,
      in ascending key order. */
  ghost predicate IsActiveView(s: State, out: seq<ActiveAlert>) {
    && (forall a :: a in out <==>
          a.key in s.machines && s.machines[a.key].firing && a.since == s.machines[a.key].firingSince)
    && (forall i, j :: 0 <= i < j < |out| ==> Less(KeyText(out[i].key), KeyText(out[j].key)))
  }

  lemma HostSteps(cfg: Config, s0: State, t: Tick, s1: State, e1: seq<Event>, s2: State, e2: seq<Event>, s3: State,
                  e3: seq<Event>)
    requires var (s, e) := ObserveKey(cfg, s0, ServiceDown, Observation(t.now, !t.input.serviceActive));
             s1 == s && e1 == [] + e
    requires var (s, e) := ObserveKey(cfg, s1, HighDisk, Observation(t.now, DiskFiring(cfg, t.input.disks)));
             s2 == s && e2 == e1 + e
    requires var (s, e) := ObserveCpu(cfg, s2, t); s3 == s && e3 == e2 + e
    ensures (s3, e3) == ObserveHost(cfg, s0, t)
  {
    var (_, e) := ObserveKey(cfg, s0, ServiceDown, Observation(t.now, !t.input.serviceActive));
    assert [] + e == e;
  }

  lemma PeersOneMore(cfg: Config, s: State, peers: seq<PeerSample>, i: nat, now: int)
    requires i < |peers|
    ensures var (s1, e1) := ObservePeers(cfg, s, peers[..i], now);
            var (s2, e2) := ObservePeer(cfg, s1, peers[i], now);
            ObservePeers(cfg, s, peers[..i + 1], now) == (s2, e1 + e2)
  {
    assert peers[..i + 1][..i] == peers[..i];
  }

  lemma TextOrderIsTotal(a: string, b: string, c: string)
    ensures !Less(b, a) || !Less(a, b)
    ensures !Less(b, a) && !Less(c, b) ==> !Less(c, a)
  {
    LessTrichotomy(a, b);
    LessTrichotomy(b, c);
    if !Less(b, a) && !Less(c, b) && Less(c, a) {
      if Less(a, b) { LessTransitive(c, a, b); }
    }
  }

  lemma ByKeyIsTotal()
    ensures TotalPreorder(ByKey)
  {
    forall x, y, z: Event ensures ByKey(x, y) || ByKey(y, x) ensures ByKey(x, y) && ByKey(y, z) ==> ByKey(x, z) {
      TextOrderIsTotal(KeyText(x.key), KeyText(y.key), KeyText(z.key));
    }
  }

  lemma ByAlertKeyIsTotal()
    ensures TotalPreorder(ByAlertKey)
  {
    forall x, y, z: ActiveAlert ensures ByAlertKey(x, y) || ByAlertKey(y, x)
      ensures ByAlertKey(x, y) && ByAlertKey(y, z) ==> ByAlertKey(x, z)
    {
      TextOrderIsTotal(KeyText(x.key), KeyText(y.key), KeyText(z.key));
    }
  }

  lemma SameKeySameAlert(collected: seq<ActiveAlert>, out: seq<ActiveAlert>, i: nat, j: nat)
    requires multiset(out) == multiset(collected) && i < j < |out|
    requires forall i, j :: 0 <= i < j < |collected| ==> collected[i].key != collected[j].key
    ensures out[i].key != out[j].key
  {
    if out[i].key == out[j].key {
      assert out[i] in multiset(collected) && out[j] in multiset(collected);
      assert out[i] == out[j];
      RepeatCountsTwice(out, i, j);
      NoRepeatMultiset(collected);
      assert false;
    }
  }

  lemma SortedDistinctIsStrict(collected: seq<ActiveAlert>, out: seq<ActiveAlert>)
    requires multiset(out) == multiset(collected) && Sorted(out, ByAlertKey)
    requires forall i, j :: 0 <= i < j < |collected| ==> collected[i].key != collected[j].key
    ensures forall i, j :: 0 <= i < j < |out| ==> Less(KeyText(out[i].key), KeyText(out[j].key))
    ensures forall a :: a in out <==> a in collected
  {
    forall a ensures a in out <==> a in collected { assert a in out <==> a in multiset(out); }
    forall i, j | 0 <= i < j < |out| ensures Less(KeyText(out[i].key), KeyText(out[j].key)) {
      if out[i].key == out[j].key { SameKeySameAlert(collected, out, i, j); }
      KeyTextInjective(out[i].key, out[j].key);
      LessTrichotomy(KeyText(out[i].key), KeyText(out[j].key));
      assert ByAlertKey(out[i], out[j]);
    }
  }

  lemma {:induction false} KeyLogHolds(log: seq<Event>, e: Event)
    requires e in log
    ensures Mark(e.kind, e.at) in KeyLog(log, e.key)
  {
    if log[0] != e { KeyLogHolds(log[1..], e); }
  }

  lemma OneEventPerKey(cfg: Config, s: State, t: Tick, x: Event, y: Event)
    requires DistinctPeers(t.input.peers) && x.key == y.key
    requires x in EvaluateTick(cfg, s, t).1 && y in EvaluateTick(cfg, s, t).1
    ensures x == y
  {
    KeyLogHolds(EvaluateTick(cfg, s, t).1, x);
    KeyLogHolds(EvaluateTick(cfg, s, t).1, y);
    TickEffect(cfg, s, t, x.key);
  }

  lemma TickIsSorted(cfg: Config, s: State, t: Tick)
    ensures Sorted(EvaluateTick(cfg, s, t).1, ByKey)
  {
    ByKeyIsTotal();
    var (s1, e1) := ObserveHost(cfg, s, t);
    SortIsSorted(e1 + ObservePeers(cfg, s1, t.input.peers, t.now).1, ByKey);
  }

  /** A tick's events come in ascending byte order of their key text. */
  lemma TickAscends(cfg: Config, s: State, t: Tick)
    ensures var events := EvaluateTick(cfg, s, t).1;
            forall i, j :: 0 <= i < j < |events| ==>
              events[i].key == events[j].key || BytesBefore(KeyText(events[i].key), KeyText(events[j].key))
  {
    var events := EvaluateTick(cfg, s, t).1;
    TickIsSorted(cfg, s, t);
    forall i, j | 0 <= i < j < |events|
      ensures events[i].key == events[j].key || BytesBefore(KeyText(events[i].key), KeyText(events[j].key))
    {
      assert ByKey(events[i], events[j]);
      KeyTextInjective(events[i].key, events[j].key);
      LessTrichotomy(KeyText(events[i].key), KeyText(events[j].key));
      LessIsByteOrder(KeyText(events[i].key), KeyText(events[j].key));
    }
  }

  /** With distinct peer names a tick holds at most one event per key, so sorting by key leaves
      no freedom of order. */
  lemma TickOrderIsForced(cfg: Config, s: State, t: Tick, events: seq<Event>)
    requires DistinctPeers(t.input.peers)
    requires multiset(events) == multiset(EvaluateTick(cfg, s, t).1) && Sorted(events, ByKey)
    ensures events == EvaluateTick(cfg, s, t).1
  {
    var spec := EvaluateTick(cfg, s, t).1;
    TickIsSorted(cfg, s, t);
    forall x, y | x in multiset(spec) && y in multiset(spec) && ByKey(x, y) && ByKey(y, x) ensures x == y {
      LessTrichotomy(KeyText(x.key), KeyText(y.key));
      KeyTextInjective(x.key, y.key);
      OneEventPerKey(cfg, s, t, x, y);
    }
    SortedUnique(spec, events, ByKey);
  }

  class Evaluator {
    const cfg: Config
    var states: map<Key, StateMachine>
    var cpuHighSince: Option<int>
    var transferBaseline: map<string, Counters>

    /** No two keys share a machine. */
    ghost predicate Valid()
      reads this
    {
      DistinctValues(states)
    }

    /** The state the specification speaks of. */
    ghost function View(): State
      reads this, states.Values
    {
      State(map k | k in states :: states[k].View(), cpuHighSince, transferBaseline)
    }

    constructor (cfg: Config)
      ensures Valid() && View() == FRESH && this.cfg == cfg && states == map[]
    {
      this.cfg := cfg;
      states, cpuHighSince, transferBaseline := map[], None, map[];
    }

    /** The funnel: find or make the key's machine, step it, append any event. */
    method Observe(dst: seq<Event>, key: Key, firingNow: bool, now: int) returns (events: seq<Event>)
      requires Valid()
      modifies this`states, states.Values
      ensures Valid() && fresh(states.Values - old(states.Values))
      ensures var (s, e) := ObserveKey(cfg, old(View()), key, Observation(now, firingNow));
              View() == s && events == dst + e
    {
      ghost var was := View();
      if key !in states {
        var sm := new StateMachine();
        states := states[key := sm];
      }
      var sm := states[key];
      assert sm.View() == MachineOf(was, key);
      var kind := sm.Track(firingNow, now, cfg.cooldown);
      events := if kind.None? then dst else dst + [Event(key, kind.value, now)];
      assert View().machines == was.machines[key := sm.View()];
    }

    /** Fires when any filesystem is at or over the threshold, and names the fullest such one. */
    method DiskObservation(disks: seq<real>) returns (firing: bool, worst: real)
      ensures firing <==> exists i :: 0 <= i < |disks| && disks[i] >= cfg.diskThreshold
      ensures firing == DiskFiring(cfg, disks)
      ensures firing ==> worst in disks && forall d :: d in disks ==> d <= worst
    {
      firing, worst := false, 0.0;
      for i := 0 to |disks|
        invariant !firing ==> forall j :: 0 <= j < i ==> disks[j] < cfg.diskThreshold
        invariant firing ==> worst in disks && worst >= cfg.diskThreshold
        invariant firing ==> forall j :: 0 <= j < i ==> disks[j] <= worst
      {
        if disks[i] >= cfg.diskThreshold && (!firing || disks[i] > worst) {
          firing, worst := true, disks[i];
        }
      }
    }

    method CpuObservation(cpu: real, now: int) returns (firing: bool)
      modifies this`cpuHighSince
      ensures forall t: Tick :: t.now == now && t.input.cpu == cpu ==>
                cpuHighSince == CpuWindow(cfg, old(cpuHighSince), t) && firing == CpuFiring(cfg, cpuHighSince, now)
    {
      if cpu < cfg.cpuThreshold {
        cpuHighSince := None;
        return false;
      }
      if cpuHighSince.None? {
        cpuHighSince := Some(now);
      }
      return now - cpuHighSince.value >= cfg.cpuSustain;
    }

    method TransferCapObservation(peer: PeerSample) returns (firing: bool)
      modifies this`transferBaseline
      ensures var base := Rebase(BaseOf(old(View()), peer.name), peer.count);
              transferBaseline == old(transferBaseline)[peer.name := base] && firing == CapFiring(cfg, base, peer.count)
    {
      if peer.name !in transferBaseline {
        transferBaseline := transferBaseline[peer.name := peer.count];
      }
      var base := transferBaseline[peer.name];
      if peer.count.rx < base.rx || peer.count.tx < base.tx {
        base := peer.count;
        transferBaseline := transferBaseline[peer.name := base];
      }
      assert transferBaseline == old(transferBaseline)[peer.name := base];
      return peer.count.rx - base.rx >= cfg.transferCap || peer.count.tx - base.tx >= cfg.transferCap;
    }

    method EvaluateCpu(dst: seq<Event>, t: Tick) returns (events: seq<Event>)
      requires Valid()
      modifies this, states.Values
      ensures Valid() && fresh(states.Values - old(states.Values))
      ensures var (s, e) := ObserveCpu(cfg, old(View()), t); View() == s && events == dst + e
    {
      ghost var before := View();
      var cpuFiring := CpuObservation(t.input.cpu, t.now);
      assert View() == before.(cpuHighSince := CpuWindow(cfg, before.cpuHighSince, t));
      events := Observe(dst, HighCpu, cpuFiring, t.now);
    }

    method EvaluateDisk(dst: seq<Event>, t: Tick) returns (events: seq<Event>)
      requires Valid()
      modifies this`states, states.Values
      ensures Valid() && fresh(states.Values - old(states.Values))
      ensures var (s, e) := ObserveKey(cfg, old(View()), HighDisk, Observation(t.now, DiskFiring(cfg, t.input.disks)));
              View() == s && events == dst + e
    {
      var diskFiring, _ := DiskObservation(t.input.disks);
      events := Observe(dst, HighDisk, diskFiring, t.now);
    }

    method EvaluateHost(t: Tick) returns (events: seq<Event>)
      requires Valid()
      modifies this, states.Values
      ensures Valid() && fresh(states.Values - old(states.Values))
      ensures (View(), events) == ObserveHost(cfg, old(View()), t)
    {
      ghost var s0 := View();
      var e1 := Observe([], ServiceDown, !t.input.serviceActive, t.now);
      ghost var s1 := View();
      var e2 := EvaluateDisk(e1, t);
      ghost var s2 := View();
      events := EvaluateCpu(e2, t);
      HostSteps(cfg, s0, t, s1, e1, s2, e2, View(), events);
    }

    method EvaluatePeer(dst: seq<Event>, peer: PeerSample, now: int) returns (events: seq<Event>)
      requires Valid()
      modifies this, states.Values
      ensures Valid() && fresh(states.Values - old(states.Values))
      ensures var (s, e) := ObservePeer(cfg, old(View()), peer, now); View() == s && events == dst + e
    {
      ghost var before := View();
      var capFiring := TransferCapObservation(peer);
      assert View() == before.(baseline := transferBaseline);
      events := Observe(dst, TransferCap(peer.name), capFiring, now);
    }

    method EvaluatePeers(dst: seq<Event>, peers: seq<PeerSample>, now: int) returns (events: seq<Event>)
      requires Valid()
      modifies this, states.Values
      ensures Valid() && fresh(states.Values - old(states.Values))
      ensures var (s, e) := ObservePeers(cfg, old(View()), peers, now); View() == s && events == dst + e
    {
      events := dst;
      ghost var was := View();
      for i := 0 to |peers|
        invariant Valid() && fresh(states.Values - old(states.Values))
        invariant View() == ObservePeers(cfg, was, peers[..i], now).0
        invariant events == dst + ObservePeers(cfg, was, peers[..i], now).1
      {
        PeersOneMore(cfg, was, peers, i, now);
        events := EvaluatePeer(events, peers[i], now);
      }
      assert peers[..|peers|] == peers;
    }

    /** One tick. Whatever the unstable sort does, the events are those of the specification,
        and with distinct peer names they come in exactly its order. */
    method Evaluate(now: int, input: Input) returns (events: seq<Event>)
      requires Valid()
      modifies this, states.Values
      ensures Valid() && fresh(states.Values - old(states.Values))
      ensures View() == EvaluateTick(cfg, old(View()), Tick(now, input)).0
      ensures multiset(events) == multiset(EvaluateTick(cfg, old(View()), Tick(now, input)).1) && Sorted(events, ByKey)
      ensures DistinctPeers(input.peers) ==> events == EvaluateTick(cfg, old(View()), Tick(now, input)).1
    {
      ghost var was := View();
      ghost var spec := EvaluateTick(cfg, was, Tick(now, input));
      var collected := EvaluateHost(Tick(now, input));
      collected := EvaluatePeers(collected, input.peers, now);
      assert View() == spec.0 && spec.1 == SortBy(collected, ByKey);
      ByKeyIsTotal();
      events := SortSlice(collected, ByKey);
      SortPermutes(collected, ByKey);
      if DistinctPeers(input.peers) { TickOrderIsForced(cfg, was, Tick(now, input), events); }
    }

    /** The currently firing keys, however the map is ranged over. */
    method Active() returns (out: seq<ActiveAlert>)
      requires Valid()
      ensures IsActiveView(View(), out)
    {
      out := [];
      var rest := states.Keys;
      while rest != {}
        invariant rest <= states.Keys
        invariant forall a :: a in out <==>
                  a.key in states && a.key !in rest && states[a.key].firing && a.since == states[a.key].firingSince
        invariant forall i, j :: 0 <= i < j < |out| ==> out[i].key != out[j].key
        decreases |rest|
      {
        var key :| key in rest;
        var sm := states[key];
        rest := rest - {key};
        if sm.firing {
          assert forall i :: 0 <= i < |out| ==> out[i] in out && out[i].key != key;
          out := out + [ActiveAlert(key, sm.firingSince)];
        }
      }
      ghost var collected := out;
      ByAlertKeyIsTotal();
      out := SortSlice(out, ByAlertKey);
      SortedDistinctIsStrict(collected, out);
    }
  }

  /** What the active view shows after any run: exactly the keys whose event log ends in a Fire,
      each with the time its current episode began. */
  lemma ActiveIsOpenEpisodes(cfg: Config, ticks: seq<Tick>, out: seq<ActiveAlert>, k: Key, since: int)
    requires DistinctRun(ticks) && IsActiveView(StateAfter(cfg, ticks), out)
    ensures ActiveAlert(k, Some(since)) in out <==>
            var log := KeyLog(EventLog(cfg, ticks), k); Open(log) && since == EpisodeStart(log)
    ensures ActiveAlert(k, None) !in out
  {
    StateIsFoldOfEvents(cfg, ticks, k);
  }
}
