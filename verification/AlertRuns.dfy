/** What the evaluator guarantees over whole runs of ticks. */
module AlertRuns {
  import opened Wrappers
  import opened AlertMachine
  import opened AlertEval

  /** Every key's event log keeps to the episode grammar, in every run. */
  lemma EveryKeyKeepsEpisodes(cfg: Config, ticks: seq<Tick>, k: Key)
    requires DistinctRun(ticks)
    ensures Episodes(KeyLog(EventLog(cfg, ticks), k), cfg.cooldown)
  {
    RunProjectsToKey(cfg, ticks, k);
    LogIsEpisodes(Observations(cfg, ticks, k), cfg.cooldown);
  }

  /** The evaluator's incremental state is a fold over the event log: a key is firing exactly
      when its last event is a Fire, since the first Fire of that episode. */
  lemma StateIsFoldOfEvents(cfg: Config, ticks: seq<Tick>, k: Key)
    requires DistinctRun(ticks)
    ensures var m, log := MachineOf(StateAfter(cfg, ticks), k), KeyLog(EventLog(cfg, ticks), k);
            && (m.firing <==> Open(log))
            && (m.firing ==> m.firingSince == Some(EpisodeStart(log)) && m.lastFire == Some(log[|log| - 1].at))
  {
    RunProjectsToKey(cfg, ticks, k);
    StateIsFoldOfLog(Observations(cfg, ticks, k), cfg.cooldown);
  }

  /** The log that the rule of Continue alone makes of a key's observations. */
  function Replay(obs: seq<Observation>, cooldown: int): seq<Mark> {
    if obs == [] then [] else Continue(Replay(obs[..|obs| - 1], cooldown), obs[|obs| - 1], cooldown)
  }

  lemma {:induction false} LogIsReplay(obs: seq<Observation>, cooldown: int)
    ensures LogAfter(obs, cooldown) == Replay(obs, cooldown)
    decreases |obs|
  {
    StateIsFoldOfLog(obs, cooldown);
    if obs != [] { LogIsReplay(obs[..|obs| - 1], cooldown); }
  }

  /** In every run a key's events are what the rule makes of its observations: a Fire on entry and at
      every tick at or past the cooldown, a Recovery on clearing, and nothing else. */
  lemma EventsAreReplay(cfg: Config, ticks: seq<Tick>, k: Key)
    requires DistinctRun(ticks)
    ensures KeyLog(EventLog(cfg, ticks), k) == Replay(Observations(cfg, ticks, k), cfg.cooldown)
  {
    RunProjectsToKey(cfg, ticks, k);
    LogIsReplay(Observations(cfg, ticks, k), cfg.cooldown);
  }

  predicate SameReading(s: Tick, t: Tick, k: Key) {
    && s.now == t.now
    && match k
       case ServiceDown => s.input.serviceActive == t.input.serviceActive
       case HighDisk => s.input.disks == t.input.disks
       case HighCpu => s.input.cpu == t.input.cpu
       case TransferCap(name) => CountIn(s.input.peers, name) == CountIn(t.input.peers, name)
  }

  /** Two runs look the same to a key: same clock, same reading of the key's own input. */
  ghost predicate LooksSame(a: seq<Tick>, b: seq<Tick>, k: Key) {
    |a| == |b| && forall i :: 0 <= i < |a| ==> SameReading(a[i], b[i], k)
  }

  lemma {:induction false} SameWindow(cfg: Config, a: seq<Tick>, b: seq<Tick>)
    requires LooksSame(a, b, HighCpu)
    ensures WindowAfter(cfg, a) == WindowAfter(cfg, b)
    decreases |a|
  {
    if a != [] {
      SameWindow(cfg, a[..|a| - 1], b[..|b| - 1]);
      assert SameReading(a[|a| - 1], b[|b| - 1], HighCpu);
    }
  }

  lemma {:induction false} SameBase(a: seq<Tick>, b: seq<Tick>, name: string)
    requires LooksSame(a, b, TransferCap(name))
    ensures BaseAfter(a, name) == BaseAfter(b, name)
    decreases |a|
  {
    if a != [] {
      SameBase(a[..|a| - 1], b[..|b| - 1], name);
      assert SameReading(a[|a| - 1], b[|b| - 1], TransferCap(name));
    }
  }

  lemma {:induction false} SameObservations(cfg: Config, a: seq<Tick>, b: seq<Tick>, k: Key)
    requires LooksSame(a, b, k)
    ensures Observations(cfg, a, k) == Observations(cfg, b, k)
    decreases |a|
  {
    if a != [] {
      SameObservations(cfg, a[..|a| - 1], b[..|b| - 1], k);
      assert SameReading(a[|a| - 1], b[|b| - 1], k);
      if k.HighCpu? { SameWindow(cfg, a, b); }
      if k.TransferCap? { SameBase(a, b, k.name); }
    }
  }

  /** Non-interference: replacing every other peer and every other condition's input, on every
      tick, by anything at all leaves a key's events and state exactly as they were. */
  lemma NoInterference(cfg: Config, a: seq<Tick>, b: seq<Tick>, k: Key)
    requires DistinctRun(a) && DistinctRun(b) && LooksSame(a, b, k)
    ensures KeyLog(EventLog(cfg, a), k) == KeyLog(EventLog(cfg, b), k)
    ensures MachineOf(StateAfter(cfg, a), k) == MachineOf(StateAfter(cfg, b), k)
  {
    RunProjectsToKey(cfg, a, k);
    RunProjectsToKey(cfg, b, k);
    SameObservations(cfg, a, b, k);
  }

  predicate High(cfg: Config, t: Tick) { t.input.cpu >= cfg.cpuThreshold }

  /** Tick i starts the maximal suffix of ticks at or above the threshold. */
  ghost predicate StartsHighSuffix(cfg: Config, ticks: seq<Tick>, i: int) {
    && 0 <= i < |ticks| && (i == 0 || !High(cfg, ticks[i - 1]))
    && forall j :: i <= j < |ticks| ==> High(cfg, ticks[j])
  }

  ghost predicate Sustained(cfg: Config, ticks: seq<Tick>) {
    exists i :: StartsHighSuffix(cfg, ticks, i) && ticks[|ticks| - 1].now - ticks[i].now >= cfg.cpuSustain
  }

  function HighStart(cfg: Config, ticks: seq<Tick>): (i: nat)
    ensures i <= |ticks|
  {
    if ticks == [] || !High(cfg, ticks[|ticks| - 1]) then |ticks| else HighStart(cfg, ticks[..|ticks| - 1])
  }

  lemma {:induction false} HighStartStarts(cfg: Config, ticks: seq<Tick>)
    ensures var i := HighStart(cfg, ticks);
            && (i == 0 || !High(cfg, ticks[i - 1]))
            && forall j :: i <= j < |ticks| ==> High(cfg, ticks[j])
    decreases |ticks|
  {
    if ticks != [] && High(cfg, ticks[|ticks| - 1]) { HighStartStarts(cfg, ticks[..|ticks| - 1]); }
  }

  lemma {:induction false} WindowHoldsStart(cfg: Config, ticks: seq<Tick>)
    ensures var i := HighStart(cfg, ticks);
            WindowAfter(cfg, ticks) == if i == |ticks| then None else Some(ticks[i].now)
    decreases |ticks|
  {
    if ticks != [] { WindowHoldsStart(cfg, ticks[..|ticks| - 1]); }
  }

  lemma HighSuffixIsUnique(cfg: Config, ticks: seq<Tick>, i: nat, s: nat)
    requires StartsHighSuffix(cfg, ticks, i)
    requires s <= |ticks| && (s == 0 || !High(cfg, ticks[s - 1]))
    requires forall j :: s <= j < |ticks| ==> High(cfg, ticks[j])
    ensures i == s
  {
    assert i == 0 || !High(cfg, ticks[i - 1]);
  }

  lemma WindowOfSuffix(cfg: Config, ticks: seq<Tick>, i: nat)
    requires StartsHighSuffix(cfg, ticks, i)
    ensures WindowAfter(cfg, ticks) == Some(ticks[i].now)
  {
    HighStartStarts(cfg, ticks);
    WindowHoldsStart(cfg, ticks);
    HighSuffixIsUnique(cfg, ticks, i, HighStart(cfg, ticks));
  }

  /** The sustain timer holds the time at which the current maximal high suffix began, and is
      off exactly when there is none. */
  lemma WindowIsHighSuffix(cfg: Config, ticks: seq<Tick>)
    ensures forall i :: StartsHighSuffix(cfg, ticks, i) ==> WindowAfter(cfg, ticks) == Some(ticks[i].now)
    ensures WindowAfter(cfg, ticks).Some? <==> exists i :: StartsHighSuffix(cfg, ticks, i)
  {
    forall i | StartsHighSuffix(cfg, ticks, i) ensures WindowAfter(cfg, ticks) == Some(ticks[i].now) {
      WindowOfSuffix(cfg, ticks, i);
    }
    HighStartStarts(cfg, ticks);
    WindowHoldsStart(cfg, ticks);
    if HighStart(cfg, ticks) < |ticks| { assert StartsHighSuffix(cfg, ticks, HighStart(cfg, ticks)); }
  }

  lemma {:induction false} PeersLeaveHostKeys(cfg: Config, s: State, peers: seq<PeerSample>, now: int, k: Key)
    requires !k.TransferCap?
    ensures var t := ObservePeers(cfg, s, peers, now).0;
            t.cpuHighSince == s.cpuHighSince && MachineOf(t, k) == MachineOf(s, k)
    decreases |peers|
  {
    if peers != [] {
      PeersLeaveHostKeys(cfg, s, peers[..|peers| - 1], now, k);
      PeerEffect(cfg, ObservePeers(cfg, s, peers[..|peers| - 1], now).0, peers[|peers| - 1], now, k);
    }
  }

  /** The host conditions' machines follow their own observations in every run, repeated peer
      names included. */
  lemma {:induction false} HostKeysFollowObservations(cfg: Config, ticks: seq<Tick>, k: Key)
    requires !k.TransferCap?
    ensures StateAfter(cfg, ticks).cpuHighSince == WindowAfter(cfg, ticks)
    ensures MachineOf(StateAfter(cfg, ticks), k) == MachineAfter(Observations(cfg, ticks, k), cfg.cooldown)
    decreases |ticks|
  {
    if ticks != [] {
      var init, t := ticks[..|ticks| - 1], ticks[|ticks| - 1];
      var s := StateAfter(cfg, init);
      HostKeysFollowObservations(cfg, init, k);
      HostEffect(cfg, s, t, k);
      PeersLeaveHostKeys(cfg, ObserveHost(cfg, s, t).0, t.input.peers, t.now, k);
      OneMore(Observations(cfg, init, k), ObservationIn(cfg, ticks, k), cfg.cooldown);
    }
  }

  /** The evaluator's high-CPU key is firing exactly when the maximal suffix of high ticks began at
      least the sustain window ago: a spike never fires, an unbroken run always does. */
  lemma CpuFiresIffSustained(cfg: Config, ticks: seq<Tick>)
    requires ticks != []
    ensures MachineOf(StateAfter(cfg, ticks), HighCpu).firing <==> Sustained(cfg, ticks)
    ensures ObservationIn(cfg, ticks, HighCpu)[0].firing <==> Sustained(cfg, ticks)
  {
    WindowIsHighSuffix(cfg, ticks);
    HostKeysFollowObservations(cfg, ticks, HighCpu);
    FiringFollowsLast(Observations(cfg, ticks, HighCpu), cfg.cooldown);
  }

  /** The high-disk key is firing exactly when some filesystem of the last tick is at or over the
      threshold. */
  lemma DiskFiresIff(cfg: Config, ticks: seq<Tick>)
    requires ticks != []
    ensures MachineOf(StateAfter(cfg, ticks), HighDisk).firing <==>
            var disks := ticks[|ticks| - 1].input.disks; exists i :: 0 <= i < |disks| && disks[i] >= cfg.diskThreshold
  {
    var disks := ticks[|ticks| - 1].input.disks;
    HostKeysFollowObservations(cfg, ticks, HighDisk);
    FiringFollowsLast(Observations(cfg, ticks, HighDisk), cfg.cooldown);
    if i :| 0 <= i < |disks| && disks[i] >= cfg.diskThreshold { assert disks[i] in disks; }
  }

  /** The service-down key is firing exactly when the last tick found the service inactive. */
  lemma ServiceFiresIff(cfg: Config, ticks: seq<Tick>)
    requires ticks != []
    ensures MachineOf(StateAfter(cfg, ticks), ServiceDown).firing <==> !ticks[|ticks| - 1].input.serviceActive
  {
    HostKeysFollowObservations(cfg, ticks, ServiceDown);
    FiringFollowsLast(Observations(cfg, ticks, ServiceDown), cfg.cooldown);
  }

  /** The readings of one peer over a run. */
  function Readings(ticks: seq<Tick>, name: string): seq<Counters> {
    if ticks == [] then []
    else
      var c := CountIn(ticks[|ticks| - 1].input.peers, name);
      Readings(ticks[..|ticks| - 1], name) + if c.None? then [] else [c.value]
  }

  function BaseOfReadings(rs: seq<Counters>): Option<Counters> {
    if rs == [] then None else Some(Rebase(BaseOfReadings(rs[..|rs| - 1]), rs[|rs| - 1]))
  }

  lemma {:induction false} BaseFollowsReadings(ticks: seq<Tick>, name: string)
    ensures BaseAfter(ticks, name) == BaseOfReadings(Readings(ticks, name))
    decreases |ticks|
  {
    if ticks != [] {
      var init := ticks[..|ticks| - 1];
      BaseFollowsReadings(init, name);
      var c := CountIn(ticks[|ticks| - 1].input.peers, name);
      if c.Some? {
        assert (Readings(init, name) + [c.value])[..|Readings(init, name)|] == Readings(init, name);
      } else {
        assert Readings(init, name) + [] == Readings(init, name);
      }
    }
  }

  predicate Below(c: Counters, base: Counters) { c.rx < base.rx || c.tx < base.tx }

  /** Reading i is below the baseline of the readings before it. */
  predicate ResetAt(rs: seq<Counters>, i: nat)
    requires 0 < i < |rs|
  {
    Below(rs[i], BaseOfReadings(rs[..i]).value)
  }

  /** Reading r is the last point where a counter fell below the baseline, or the first reading. */
  ghost predicate LastReset(rs: seq<Counters>, r: int) {
    0 <= r < |rs| && (r == 0 || ResetAt(rs, r)) && forall i :: r < i < |rs| ==> !ResetAt(rs, i)
  }

  lemma ResetCarriesOver(rs: seq<Counters>)
    requires |rs| >= 2 && !Below(rs[|rs| - 1], BaseOfReadings(rs[..|rs| - 1]).value)
    ensures forall r :: LastReset(rs, r) <==> LastReset(rs[..|rs| - 1], r)
  {
    var init := rs[..|rs| - 1];
    forall i | 0 < i < |init| ensures ResetAt(init, i) == ResetAt(rs, i) { assert init[..i] == rs[..i]; }
    assert !ResetAt(rs, |init|);
  }

  /** The transfer baseline is the reading at the last reset. */
  lemma {:induction false} BaseIsLastReset(rs: seq<Counters>)
    requires rs != []
    ensures exists r :: LastReset(rs, r)
    ensures forall r :: LastReset(rs, r) ==> BaseOfReadings(rs) == Some(rs[r])
    decreases |rs|
  {
    var n := |rs| - 1;
    var init := rs[..n];
    if n == 0 {
      assert LastReset(rs, 0);
    } else {
      BaseIsLastReset(init);
      if Below(rs[n], BaseOfReadings(init).value) {
        assert ResetAt(rs, n) && LastReset(rs, n);
      } else {
        ResetCarriesOver(rs);
        var r :| LastReset(init, r);
        assert LastReset(rs, r);
      }
    }
  }

  /** Since reading r, one of the counters has grown by the cap. */
  predicate GrownByCap(cfg: Config, rs: seq<Counters>, r: int)
    requires 0 <= r < |rs|
  {
    var now, base := rs[|rs| - 1], rs[r];
    now.rx - base.rx >= cfg.transferCap || now.tx - base.tx >= cfg.transferCap
  }

  predicate NeverFalls(rs: seq<Counters>) {
    forall i, j :: 0 <= i < j < |rs| ==> rs[i].rx <= rs[j].rx && rs[i].tx <= rs[j].tx
  }

  /** The baseline that reading i is judged against: that of the readings up to and including it. */
  function BaseAt(rs: seq<Counters>, i: nat): (base: Counters)
    requires i < |rs|
    ensures BaseOfReadings(rs[..i + 1]) == Some(base)
  {
    BaseOfReadings(rs[..i + 1]).value
  }

  lemma BaseAtPrefix(rs: seq<Counters>, c: Counters)
    ensures forall i :: 0 <= i < |rs| ==> BaseAt(rs + [c], i) == BaseAt(rs, i)
  {
    forall i | 0 <= i < |rs| ensures BaseAt(rs + [c], i) == BaseAt(rs, i) {
      assert (rs + [c])[..i + 1] == rs[..i + 1];
    }
  }

  /** One observation per reading, each judged against BaseAt. */
  ghost predicate Judged(cfg: Config, rs: seq<Counters>, obs: seq<Observation>) {
    |obs| == |rs| && forall i :: 0 <= i < |rs| ==> obs[i].firing == CapFiring(cfg, BaseAt(rs, i), rs[i])
  }

  lemma JudgedOneMore(cfg: Config, rs: seq<Counters>, obs: seq<Observation>, c: Counters, o: Observation)
    requires Judged(cfg, rs, obs) && o.firing == CapFiring(cfg, BaseOfReadings(rs + [c]).value, c)
    ensures Judged(cfg, rs + [c], obs + [o])
  {
    BaseAtPrefix(rs, c);
    assert (rs + [c])[..|rs| + 1] == rs + [c];
  }

  lemma {:induction false} ObservationsFollowReadings(cfg: Config, ticks: seq<Tick>, name: string)
    ensures Judged(cfg, Readings(ticks, name), Observations(cfg, ticks, TransferCap(name)))
    decreases |ticks|
  {
    if ticks != [] {
      var init := ticks[..|ticks| - 1];
      var rs, obs := Readings(init, name), Observations(cfg, init, TransferCap(name));
      var c := CountIn(ticks[|ticks| - 1].input.peers, name);
      ObservationsFollowReadings(cfg, init, name);
      BaseFollowsReadings(ticks, name);
      if c.Some? {
        JudgedOneMore(cfg, rs, obs, c.value, ObservationIn(cfg, ticks, TransferCap(name))[0]);
      } else {
        assert rs + [] == rs && obs + [] == obs;
      }
    }
  }

  ghost predicate OverSinceReset(cfg: Config, rs: seq<Counters>) {
    exists r :: LastReset(rs, r) && GrownByCap(cfg, rs, r)
  }

  lemma GrownIsFiring(cfg: Config, rs: seq<Counters>, r: nat)
    requires r < |rs| && BaseOfReadings(rs) == Some(rs[r])
    ensures GrownByCap(cfg, rs, r) == CapFiring(cfg, BaseAt(rs, |rs| - 1), rs[|rs| - 1])
  {
    assert rs[..|rs| - 1 + 1] == rs;
  }

  lemma JudgedLast(cfg: Config, rs: seq<Counters>, obs: seq<Observation>)
    requires Judged(cfg, rs, obs) && rs != []
    ensures obs[|obs| - 1].firing <==> OverSinceReset(cfg, rs)
  {
    BaseIsLastReset(rs);
    var s :| LastReset(rs, s);
    GrownIsFiring(cfg, rs, s);
    if r :| LastReset(rs, r) && GrownByCap(cfg, rs, r) { GrownIsFiring(cfg, rs, r); }
  }

  /** A peer's transfer-cap key is firing exactly when, at its last reading, a counter had grown by the
      cap since the last reset (or since the first reading). */
  lemma CapFiresIff(cfg: Config, ticks: seq<Tick>, name: string)
    requires DistinctRun(ticks)
    ensures MachineOf(StateAfter(cfg, ticks), TransferCap(name)).firing <==> OverSinceReset(cfg, Readings(ticks, name))
  {
    var rs, obs := Readings(ticks, name), Observations(cfg, ticks, TransferCap(name));
    RunProjectsToKey(cfg, ticks, TransferCap(name));
    ObservationsFollowReadings(cfg, ticks, name);
    FiringFollowsLast(obs, cfg.cooldown);
    if rs != [] { JudgedLast(cfg, rs, obs); }
  }

  /** Reading k has a counter below the reading before it. */
  predicate Falls(rs: seq<Counters>, k: nat)
    requires 0 < k < |rs|
  {
    Below(rs[k], rs[k - 1])
  }

  lemma BaseMoves(rs: seq<Counters>, k: nat)
    requires k < |rs|
    ensures !Below(rs[k], BaseAt(rs, k))
    ensures k > 0 ==> BaseAt(rs, k) == Rebase(Some(BaseAt(rs, k - 1)), rs[k])
  {
    assert rs[..k + 1][..k] == rs[..k];
  }

  lemma {:induction false} NoFallStaysFiring(cfg: Config, rs: seq<Counters>, obs: seq<Observation>, i: nat, j: nat)
    requires Judged(cfg, rs, obs) && i <= j < |rs| && obs[i].firing
    requires forall k :: i < k <= j ==> !Falls(rs, k)
    ensures obs[j].firing
    decreases j
  {
    if i < j {
      NoFallStaysFiring(cfg, rs, obs, i, j - 1);
      BaseMoves(rs, j - 1);
      BaseMoves(rs, j);
      assert !Falls(rs, j);
    }
  }

  /** A transfer-cap key that was firing and no longer is has seen a counter fall in between. */
  lemma RecoveryNeedsFall(cfg: Config, ticks: seq<Tick>, name: string, i: nat, j: nat)
    requires var obs := Observations(cfg, ticks, TransferCap(name)); i < j < |obs| && obs[i].firing && !obs[j].firing
    ensures var rs := Readings(ticks, name);
            |rs| == |Observations(cfg, ticks, TransferCap(name))| && exists k :: i < k <= j && Falls(rs, k)
  {
    var rs, obs := Readings(ticks, name), Observations(cfg, ticks, TransferCap(name));
    ObservationsFollowReadings(cfg, ticks, name);
    if forall k :: i < k <= j ==> !Falls(rs, k) {
      NoFallStaysFiring(cfg, rs, obs, i, j);
      assert false;
    }
  }

  lemma MonotoneStaysFiring(cfg: Config, ticks: seq<Tick>, name: string)
    requires NeverFalls(Readings(ticks, name))
    ensures StaysFiring(Observations(cfg, ticks, TransferCap(name)))
  {
    var rs, obs := Readings(ticks, name), Observations(cfg, ticks, TransferCap(name));
    ObservationsFollowReadings(cfg, ticks, name);
    forall i, j | 0 <= i < j < |obs| && obs[i].firing ensures obs[j].firing {
      assert forall k :: i < k <= j ==> !Falls(rs, k);
      NoFallStaysFiring(cfg, rs, obs, i, j);
    }
  }

  /** If a peer's counters never decrease, its transfer-cap key never recovers. */
  lemma MonotoneNeverRecovers(cfg: Config, ticks: seq<Tick>, name: string)
    requires DistinctRun(ticks) && NeverFalls(Readings(ticks, name))
    ensures forall m :: m in KeyLog(EventLog(cfg, ticks), TransferCap(name)) ==> m.kind.Fire?
  {
    var obs := Observations(cfg, ticks, TransferCap(name));
    MonotoneStaysFiring(cfg, ticks, name);
    NoRecoveryWhileFiring(obs, cfg.cooldown);
    RunProjectsToKey(cfg, ticks, TransferCap(name));
  }

  /** A counter that falls without passing the baseline also recovers the key, although the
      source's comment calls a reset below the baseline the only way back. */
  lemma FallAboveBaselineRecovers()
    ensures var cfg := Config(10, 90.0, 90.0, 5, 100);
            var ticks := [Tick(0, Input(true, 0.0, [], [PeerSample("a", Counters(0, 0))])),
                          Tick(1, Input(true, 0.0, [], [PeerSample("a", Counters(100, 0))])),
                          Tick(2, Input(true, 0.0, [], [PeerSample("a", Counters(99, 0))]))];
            && LogAfter(Observations(cfg, ticks, TransferCap("a")), 10) == [Mark(Fire, 1), Mark(Recovery, 2)]
            && BaseAfter(ticks, "a") == Some(Counters(0, 0))
  {
    var cfg := Config(10, 90.0, 90.0, 5, 100);
    var p0, p1 := [PeerSample("a", Counters(0, 0))], [PeerSample("a", Counters(100, 0))];
    var p2 := [PeerSample("a", Counters(99, 0))];
    var t0, t1 := Tick(0, Input(true, 0.0, [], p0)), Tick(1, Input(true, 0.0, [], p1));
    var t2 := Tick(2, Input(true, 0.0, [], p2));
    assert [t0, t1, t2][..2] == [t0, t1] && [t0, t1][..1] == [t0] && [t0][..0] == [];
    assert CountIn(p0, "a") == Some(Counters(0, 0)) && CountIn(p1, "a") == Some(Counters(100, 0)) &&
           CountIn(p2, "a") == Some(Counters(99, 0));
    assert BaseAfter([t0], "a") == Some(Counters(0, 0));
    assert BaseAfter([t0, t1], "a") == Some(Counters(0, 0));
    var a, b, c := Observation(0, false), Observation(1, true), Observation(2, false);
    assert Observations(cfg, [t0], TransferCap("a")) == [a];
    assert Observations(cfg, [t0, t1], TransferCap("a")) == [a, b];
    assert Observations(cfg, [t0, t1, t2], TransferCap("a")) == [a, b, c];
    assert [a, b, c][..2] == [a, b] && [a, b][..1] == [a] && [a][..0] == [];
    OneMore([], [a], 10);
    OneMore([a], [b], 10);
    OneMore([a, b], [c], 10);
    assert [] + [a] == [a] && [a] + [b] == [a, b] && [a, b] + [c] == [a, b, c];
  }
}
