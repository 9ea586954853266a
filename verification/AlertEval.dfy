/** The alert evaluator: every condition of a tick, and runs of ticks (alerts/alerts.go). */
module AlertEval {
  import opened Wrappers
  import opened Ordering
  import opened AlertMachine

  /** A condition's state-machine key; peers get one each. */
  datatype Key = ServiceDown | HighDisk | HighCpu | TransferCap(name: string)

  function KeyText(k: Key): string {
    match k
    case ServiceDown => "service-down"
    case HighDisk => "high-disk"
    case HighCpu => "high-cpu"
    case TransferCap(name) => "transfer-cap:" + name
  }

  /** No peer name can make its key collide with another key. */
  lemma KeyTextInjective(a: Key, b: Key)
    ensures KeyText(a) == KeyText(b) <==> a == b
  {
    if a.TransferCap? { assert KeyText(a)[0] == 't' && KeyText(a)[13..] == a.name; }
    if b.TransferCap? { assert KeyText(b)[0] == 't' && KeyText(b)[13..] == b.name; }
    assert |KeyText(ServiceDown)| == 12 && |KeyText(HighDisk)| == 9 && |KeyText(HighCpu)| == 8;
    assert KeyText(ServiceDown)[0] == 's' && KeyText(HighDisk)[0] == 'h' && KeyText(HighCpu)[0] == 'h';
  }

  datatype Counters = Counters(rx: int, tx: int)

  datatype PeerSample = PeerSample(name: string, count: Counters)

  /** One tick's readings; `disks` holds the fullness of each filesystem. */
  datatype Input = Input(serviceActive: bool, cpu: real, disks: seq<real>, peers: seq<PeerSample>)

  datatype Tick = Tick(now: int, input: Input)

  datatype Config = Config(cooldown: int, diskThreshold: real, cpuThreshold: real, cpuSustain: int, transferCap: int)

  datatype Event = Event(key: Key, kind: Kind, at: int)

  datatype State = State(machines: map<Key, Machine>, cpuHighSince: Option<int>, baseline: map<string, Counters>)

  const FRESH := State(map[], None, map[])

  function MachineOf(s: State, k: Key): Machine { if k in s.machines then s.machines[k] else IDLE }

  function ToEvents(k: Key, kind: Option<Kind>, at: int): seq<Event> {
    if kind.None? then [] else [Event(k, kind.value, at)]
  }

  /** Evaluator.observe for one key. */
  function ObserveKey(cfg: Config, s: State, k: Key, o: Observation): (State, seq<Event>) {
    var (m, kind) := AlertMachine.Observe(MachineOf(s, k), o, cfg.cooldown);
    (s.(machines := s.machines[k := m]), ToEvents(k, kind, o.at))
  }

  predicate DiskFiring(cfg: Config, disks: seq<real>) { exists d :: d in disks && d >= cfg.diskThreshold }

  /** cpuObservation: the sustain window and whether it is full. */
  function CpuWindow(cfg: Config, since: Option<int>, t: Tick): Option<int> {
    if t.input.cpu < cfg.cpuThreshold then None else if since.None? then Some(t.now) else since
  }

  predicate CpuFiring(cfg: Config, window: Option<int>, now: int) {
    window.Some? && now - window.value >= cfg.cpuSustain
  }

  /** The baseline a peer's sample leaves: the first one, or a new one when a counter fell below it. */
  function Rebase(base: Option<Counters>, c: Counters): Counters {
    if base.None? || c.rx < base.value.rx || c.tx < base.value.tx then c else base.value
  }

  predicate CapFiring(cfg: Config, base: Counters, c: Counters) {
    c.rx - base.rx >= cfg.transferCap || c.tx - base.tx >= cfg.transferCap
  }

  function BaseOf(s: State, name: string): Option<Counters> {
    if name in s.baseline then Some(s.baseline[name]) else None
  }

  function ObservePeer(cfg: Config, s: State, p: PeerSample, now: int): (State, seq<Event>) {
    var base := Rebase(BaseOf(s, p.name), p.count);
    ObserveKey(cfg, s.(baseline := s.baseline[p.name := base]), TransferCap(p.name),
               Observation(now, CapFiring(cfg, base, p.count)))
  }

  function ObservePeers(cfg: Config, s: State, peers: seq<PeerSample>, now: int): (State, seq<Event>) {
    if peers == [] then (s, [])
    else
      var (s1, e1) := ObservePeers(cfg, s, peers[..|peers| - 1], now);
      var (s2, e2) := ObservePeer(cfg, s1, peers[|peers| - 1], now);
      (s2, e1 + e2)
  }

  predicate ByKey(a: Event, b: Event) { !Less(KeyText(b.key), KeyText(a.key)) }

  /** The sustained-CPU condition: move the window, then observe. */
  function ObserveCpu(cfg: Config, s: State, t: Tick): (State, seq<Event>) {
    var window := CpuWindow(cfg, s.cpuHighSince, t);
    ObserveKey(cfg, s.(cpuHighSince := window), HighCpu, Observation(t.now, CpuFiring(cfg, window, t.now)))
  }

  /** The three host conditions of a tick. */
  function ObserveHost(cfg: Config, s: State, t: Tick): (State, seq<Event>) {
    var (s1, e1) := ObserveKey(cfg, s, ServiceDown, Observation(t.now, !t.input.serviceActive));
    var (s2, e2) := ObserveKey(cfg, s1, HighDisk, Observation(t.now, DiskFiring(cfg, t.input.disks)));
    var (s3, e3) := ObserveCpu(cfg, s2, t);
    (s3, e1 + e2 + e3)
  }

  /** Evaluate. */
  function EvaluateTick(cfg: Config, s: State, t: Tick): (State, seq<Event>) {
    var (s1, e1) := ObserveHost(cfg, s, t);
    var (s2, e2) := ObservePeers(cfg, s1, t.input.peers, t.now);
    (s2, SortBy(e1 + e2, ByKey))
  }

  function StateAfter(cfg: Config, ticks: seq<Tick>): State {
    if ticks == [] then FRESH else EvaluateTick(cfg, StateAfter(cfg, ticks[..|ticks| - 1]), ticks[|ticks| - 1]).0
  }

  /** All events of a run, in the order Evaluate returned them. */
  function EventLog(cfg: Config, ticks: seq<Tick>): seq<Event> {
    if ticks == [] then []
    else
      var init := ticks[..|ticks| - 1];
      EventLog(cfg, init) + EvaluateTick(cfg, StateAfter(cfg, init), ticks[|ticks| - 1]).1
  }

  /** The part of a log that concerns one key. */
  function KeyLog(log: seq<Event>, k: Key): seq<Mark> {
    if log == [] then []
    else (if log[0].key == k then [Mark(log[0].kind, log[0].at)] else []) + KeyLog(log[1..], k)
  }

  lemma {:induction false} KeyLogConcat(a: seq<Event>, b: seq<Event>, k: Key)
    ensures KeyLog(a + b, k) == KeyLog(a, k) + KeyLog(b, k)
  {
    if a == [] {
      assert a + b == b;
    } else {
      assert (a + b)[1..] == a[1..] + b && (a + b)[0] == a[0];
      KeyLogConcat(a[1..], b, k);
      var head := if a[0].key == k then [Mark(a[0].kind, a[0].at)] else [];
      assert head + (KeyLog(a[1..], k) + KeyLog(b, k)) == (head + KeyLog(a[1..], k)) + KeyLog(b, k);
    }
  }

  lemma KeyLogCons(e: Event, s: seq<Event>, k: Key)
    ensures KeyLog([e] + s, k) == (if e.key == k then [Mark(e.kind, e.at)] + KeyLog(s, k) else KeyLog(s, k))
  {
    assert ([e] + s)[1..] == s;
  }

  lemma {:induction false} KeyLogInsert(e: Event, s: seq<Event>, k: Key)
    ensures KeyLog(Insert(e, s, ByKey), k) == KeyLog([e] + s, k)
  {
    if s != [] && !ByKey(e, s[0]) {
      LessTrichotomy(KeyText(e.key), KeyText(s[0].key));
      KeyLogInsert(e, s[1..], k);
      KeyLogCons(s[0], Insert(e, s[1..], ByKey), k);
      KeyLogCons(e, s[1..], k);
      KeyLogCons(e, s, k);
    }
  }

  /** Sorting a tick's events by key does not reorder any one key's events. */
  lemma {:induction false} KeyLogSort(s: seq<Event>, k: Key)
    ensures KeyLog(SortBy(s, ByKey), k) == KeyLog(s, k)
  {
    if s != [] {
      KeyLogSort(s[1..], k);
      var rest := SortBy(s[1..], ByKey);
      KeyLogInsert(s[0], rest, k);
      assert ([s[0]] + rest)[1..] == rest;
    }
  }

  ghost predicate DistinctPeers(peers: seq<PeerSample>) {
    forall i, j :: 0 <= i < j < |peers| ==> peers[i].name != peers[j].name
  }

  /** The sustain window after a run: reset below the threshold, else kept or opened. */
  function WindowAfter(cfg: Config, ticks: seq<Tick>): Option<int> {
    if ticks == [] then None else CpuWindow(cfg, WindowAfter(cfg, ticks[..|ticks| - 1]), ticks[|ticks| - 1])
  }

  /** The peer's reading in a tick. */
  function CountIn(peers: seq<PeerSample>, name: string): Option<Counters> {
    if peers == [] then None
    else if peers[|peers| - 1].name == name then Some(peers[|peers| - 1].count)
    else CountIn(peers[..|peers| - 1], name)
  }

  /** A peer's baseline after a run, from its own readings only. */
  function BaseAfter(ticks: seq<Tick>, name: string): (b: Option<Counters>)
    ensures ticks != [] && CountIn(ticks[|ticks| - 1].input.peers, name).Some? ==> b.Some?
  {
    if ticks == [] then None
    else
      var base := BaseAfter(ticks[..|ticks| - 1], name);
      var c := CountIn(ticks[|ticks| - 1].input.peers, name);
      if c.None? then base else Some(Rebase(base, c.value))
  }

  /** What one tick shows one key: at most one observation. */
  function ObservationIn(cfg: Config, ticks: seq<Tick>, k: Key): seq<Observation>
    requires ticks != []
  {
    var t := ticks[|ticks| - 1];
    match k
    case ServiceDown => [Observation(t.now, !t.input.serviceActive)]
    case HighDisk => [Observation(t.now, DiskFiring(cfg, t.input.disks))]
    case HighCpu => [Observation(t.now, CpuFiring(cfg, WindowAfter(cfg, ticks), t.now))]
    case TransferCap(name) =>
      var c := CountIn(t.input.peers, name);
      if c.None? then [] else [Observation(t.now, CapFiring(cfg, BaseAfter(ticks, name).value, c.value))]
  }

  /** All observations of one key over a run. */
  function Observations(cfg: Config, ticks: seq<Tick>, k: Key): seq<Observation> {
    if ticks == [] then [] else Observations(cfg, ticks[..|ticks| - 1], k) + ObservationIn(cfg, ticks, k)
  }

  ghost predicate DistinctRun(ticks: seq<Tick>) {
    forall i :: 0 <= i < |ticks| ==> DistinctPeers(ticks[i].input.peers)
  }

  /** Observing one key leaves every other key's machine and events alone. */
  lemma ObserveKeyEffect(cfg: Config, s: State, j: Key, o: Observation, k: Key)
    ensures var (t, e) := ObserveKey(cfg, s, j, o);
            && t.cpuHighSince == s.cpuHighSince && t.baseline == s.baseline
            && (k != j ==> MachineOf(t, k) == MachineOf(s, k) && KeyLog(e, k) == [])
            && (k == j ==> var (m, kind) := AlertMachine.Observe(MachineOf(s, k), o, cfg.cooldown);
                           MachineOf(t, k) == m && KeyLog(e, k) == Marks(kind, o.at))
  {
    var (t, e) := ObserveKey(cfg, s, j, o);
    if e != [] { assert e[1..] == []; }
  }

  /** The effect of a tick on one key, as one optional observation. */
  ghost predicate Effect(cfg: Config, s: State, t: State, e: seq<Event>, k: Key, obs: seq<Observation>) {
    if obs == [] then MachineOf(t, k) == MachineOf(s, k) && KeyLog(e, k) == []
    else
      && |obs| == 1
      && var (m, kind) := AlertMachine.Observe(MachineOf(s, k), obs[0], cfg.cooldown);
         MachineOf(t, k) == m && KeyLog(e, k) == Marks(kind, obs[0].at)
  }

  function HostObservation(cfg: Config, s: State, t: Tick, k: Key): seq<Observation> {
    match k
    case ServiceDown => [Observation(t.now, !t.input.serviceActive)]
    case HighDisk => [Observation(t.now, DiskFiring(cfg, t.input.disks))]
    case HighCpu => [Observation(t.now, CpuFiring(cfg, CpuWindow(cfg, s.cpuHighSince, t), t.now))]
    case TransferCap(_) => []
  }

  lemma HostEffect(cfg: Config, s: State, t: Tick, k: Key)
    ensures var (u, e) := ObserveHost(cfg, s, t);
            && u.cpuHighSince == CpuWindow(cfg, s.cpuHighSince, t) && u.baseline == s.baseline
            && Effect(cfg, s, u, e, k, HostObservation(cfg, s, t, k))
  {
    var a, b := Observation(t.now, !t.input.serviceActive), Observation(t.now, DiskFiring(cfg, t.input.disks));
    var (s1, e1) := ObserveKey(cfg, s, ServiceDown, a);
    ObserveKeyEffect(cfg, s, ServiceDown, a, k);
    var (s2, e2) := ObserveKey(cfg, s1, HighDisk, b);
    ObserveKeyEffect(cfg, s1, HighDisk, b, k);
    var s2' := s2.(cpuHighSince := CpuWindow(cfg, s2.cpuHighSince, t));
    var c := Observation(t.now, CpuFiring(cfg, s2'.cpuHighSince, t.now));
    ObserveKeyEffect(cfg, s2', HighCpu, c, k);
    assert MachineOf(s2', k) == MachineOf(s2, k);
    KeyLogConcat(e1, e2, k);
    KeyLogConcat(e1 + e2, ObserveKey(cfg, s2', HighCpu, c).1, k);
  }

  function PeerObservation(cfg: Config, s: State, peers: seq<PeerSample>, now: int, k: Key): seq<Observation> {
    if !k.TransferCap? then []
    else
      var c := CountIn(peers, k.name);
      if c.None? then [] else [Observation(now, CapFiring(cfg, Rebase(BaseOf(s, k.name), c.value), c.value))]
  }

  lemma {:induction false} AbsentIsNone(peers: seq<PeerSample>, name: string)
    requires forall i :: 0 <= i < |peers| ==> peers[i].name != name
    ensures CountIn(peers, name).None?
  {
    if peers != [] { AbsentIsNone(peers[..|peers| - 1], name); }
  }

  function BaseLeft(s: State, peers: seq<PeerSample>, name: string): Option<Counters> {
    var c := CountIn(peers, name);
    if c.None? then BaseOf(s, name) else Some(Rebase(BaseOf(s, name), c.value))
  }

  /** The observation the last peer of a tick makes, which no earlier peer touches. */
  function LastPeerObservation(cfg: Config, s: State, p: PeerSample, now: int, k: Key): seq<Observation> {
    if k != TransferCap(p.name) then []
    else [Observation(now, CapFiring(cfg, Rebase(BaseOf(s, p.name), p.count), p.count))]
  }

  lemma PeerEffect(cfg: Config, s: State, p: PeerSample, now: int, k: Key)
    ensures var (t, e) := ObservePeer(cfg, s, p, now);
            && t.cpuHighSince == s.cpuHighSince
            && (forall n :: BaseOf(t, n) == if n == p.name then Some(Rebase(BaseOf(s, n), p.count)) else BaseOf(s, n))
            && Effect(cfg, s, t, e, k, LastPeerObservation(cfg, s, p, now, k))
  {
    var base := Rebase(BaseOf(s, p.name), p.count);
    var s1 := s.(baseline := s.baseline[p.name := base]);
    ObserveKeyEffect(cfg, s1, TransferCap(p.name), Observation(now, CapFiring(cfg, base, p.count)), k);
    assert MachineOf(s1, k) == MachineOf(s, k);
  }

  lemma {:induction false} PeersLeaveBase(cfg: Config, s: State, peers: seq<PeerSample>, now: int, n: string)
    requires DistinctPeers(peers)
    ensures var t := ObservePeers(cfg, s, peers, now).0;
            t.cpuHighSince == s.cpuHighSince && BaseOf(t, n) == BaseLeft(s, peers, n)
    decreases |peers|
  {
    if peers != [] {
      var init, p := peers[..|peers| - 1], peers[|peers| - 1];
      PeersLeaveBase(cfg, s, init, now, n);
      AbsentIsNone(init, p.name);
      PeerEffect(cfg, ObservePeers(cfg, s, init, now).0, p, now, ServiceDown);
    }
  }

  lemma EffectsJoin(cfg: Config, s: State, t: State, u: State, e1: seq<Event>, e2: seq<Event>, k: Key,
                    o1: seq<Observation>, o2: seq<Observation>)
    requires Effect(cfg, s, t, e1, k, o1) && Effect(cfg, t, u, e2, k, o2) && (o1 == [] || o2 == [])
    ensures Effect(cfg, s, u, e1 + e2, k, o1 + o2)
  {
    KeyLogConcat(e1, e2, k);
    assert o1 + [] == o1 && [] + o2 == o2;
  }

  lemma PeerObservationSplits(cfg: Config, s: State, peers: seq<PeerSample>, now: int, k: Key)
    requires DistinctPeers(peers) && peers != []
    ensures var init, p := peers[..|peers| - 1], peers[|peers| - 1];
            var o1, o2 := PeerObservation(cfg, s, init, now, k), LastPeerObservation(cfg, s, p, now, k);
            PeerObservation(cfg, s, peers, now, k) == o1 + o2 && (o1 == [] || o2 == [])
  {
    AbsentIsNone(peers[..|peers| - 1], peers[|peers| - 1].name);
  }

  lemma {:induction false} PeersEffect(cfg: Config, s: State, peers: seq<PeerSample>, now: int, k: Key)
    requires DistinctPeers(peers)
    ensures var (t, e) := ObservePeers(cfg, s, peers, now);
            Effect(cfg, s, t, e, k, PeerObservation(cfg, s, peers, now, k))
    decreases |peers|
  {
    if peers != [] {
      var init, p := peers[..|peers| - 1], peers[|peers| - 1];
      PeersEffect(cfg, s, init, now, k);
      var (s1, e1) := ObservePeers(cfg, s, init, now);
      AbsentIsNone(init, p.name);
      PeersLeaveBase(cfg, s, init, now, p.name);
      PeerEffect(cfg, s1, p, now, k);
      var (s2, e2) := ObservePeer(cfg, s1, p, now);
      PeerObservationSplits(cfg, s, peers, now, k);
      EffectsJoin(cfg, s, s1, s2, e1, e2, k, PeerObservation(cfg, s, init, now, k),
                  LastPeerObservation(cfg, s1, p, now, k));
    }
  }

  /** A whole tick, seen by one key. */
  lemma TickEffect(cfg: Config, s: State, t: Tick, k: Key)
    requires DistinctPeers(t.input.peers)
    ensures var (u, e) := EvaluateTick(cfg, s, t);
            && u.cpuHighSince == CpuWindow(cfg, s.cpuHighSince, t)
            && (forall n :: BaseOf(u, n) == BaseLeft(s, t.input.peers, n))
            && Effect(cfg, s, u, e, k, HostObservation(cfg, s, t, k) + PeerObservation(cfg, s, t.input.peers, t.now, k))
  {
    HostEffect(cfg, s, t, k);
    var (s1, e1) := ObserveHost(cfg, s, t);
    PeersEffect(cfg, s1, t.input.peers, t.now, k);
    var (u, e2) := ObservePeers(cfg, s1, t.input.peers, t.now);
    assert forall n :: BaseOf(s1, n) == BaseOf(s, n);
    forall n ensures BaseOf(u, n) == BaseLeft(s, t.input.peers, n) { PeersLeaveBase(cfg, s1, t.input.peers, t.now, n); }
    PeersLeaveBase(cfg, s1, t.input.peers, t.now, "");
    assert PeerObservation(cfg, s1, t.input.peers, t.now, k) == PeerObservation(cfg, s, t.input.peers, t.now, k);
    KeyLogSort(e1 + e2, k);
    EffectsJoin(cfg, s, s1, u, e1, e2, k, HostObservation(cfg, s, t, k),
                PeerObservation(cfg, s1, t.input.peers, t.now, k));
  }

  lemma OneMore(obs: seq<Observation>, more: seq<Observation>, cooldown: int)
    requires |more| <= 1
    ensures more == [] ==> obs + more == obs
    ensures more != [] ==>
              var (m, kind) := AlertMachine.Observe(MachineAfter(obs, cooldown), more[0], cooldown);
              MachineAfter(obs + more, cooldown) == m &&
                LogAfter(obs + more, cooldown) == LogAfter(obs, cooldown) + Marks(kind, more[0].at)
  {
    if more != [] { assert (obs + more)[..|obs|] == obs; }
  }

  lemma ObservationSplits(cfg: Config, ticks: seq<Tick>, s: State, k: Key)
    requires ticks != [] && s.cpuHighSince == WindowAfter(cfg, ticks[..|ticks| - 1])
    requires forall n :: BaseOf(s, n) == BaseAfter(ticks[..|ticks| - 1], n)
    ensures var t := ticks[|ticks| - 1];
            ObservationIn(cfg, ticks, k) ==
            HostObservation(cfg, s, t, k) + PeerObservation(cfg, s, t.input.peers, t.now, k)
  {
  }

  /** Over any run, each key's log and machine are those of its own observations alone. */
  lemma {:induction false} RunProjectsToKey(cfg: Config, ticks: seq<Tick>, k: Key)
    requires DistinctRun(ticks)
    ensures var s := StateAfter(cfg, ticks);
            && s.cpuHighSince == WindowAfter(cfg, ticks)
            && (forall n :: BaseOf(s, n) == BaseAfter(ticks, n))
            && MachineOf(s, k) == MachineAfter(Observations(cfg, ticks, k), cfg.cooldown)
            && KeyLog(EventLog(cfg, ticks), k) == LogAfter(Observations(cfg, ticks, k), cfg.cooldown)
    decreases |ticks|
  {
    if ticks != [] {
      var init, t := ticks[..|ticks| - 1], ticks[|ticks| - 1];
      RunProjectsToKey(cfg, init, k);
      var s := StateAfter(cfg, init);
      TickEffect(cfg, s, t, k);
      KeyLogConcat(EventLog(cfg, init), EvaluateTick(cfg, s, t).1, k);
      ObservationSplits(cfg, ticks, s, k);
      OneMore(Observations(cfg, init, k), ObservationIn(cfg, ticks, k), cfg.cooldown);
    }
  }
}
