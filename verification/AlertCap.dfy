/** Exactly when a transfer-cap key recovers (alerts/alerts.go). */
module AlertCap {
  import opened AlertMachine
  import opened AlertEval
  import opened AlertRuns

  /** The reading before the last one was over the cap. */
  predicate WasOver(cfg: Config, rs: seq<Counters>) {
    var n := |rs| - 1;
    n > 0 && CapFiring(cfg, BaseAt(rs, n - 1), rs[n - 1])
  }

  /** The last reading is a counter reset: below the baseline of the readings before it. */
  predicate Resets(rs: seq<Counters>)
    requires |rs| > 1
  {
    Below(rs[|rs| - 1], BaseAt(rs, |rs| - 2))
  }

  /** The last reading is at or above that baseline, with both totals under the cap. */
  predicate Dips(cfg: Config, rs: seq<Counters>)
    requires |rs| > 1
  {
    !Resets(rs) && !CapFiring(cfg, BaseAt(rs, |rs| - 2), rs[|rs| - 1])
  }

  predicate ResetOrDip(cfg: Config, rs: seq<Counters>) { WasOver(cfg, rs) && (Resets(rs) || Dips(cfg, rs)) }

  /** After a reading over the cap the next one stops firing exactly by a reset or a dip. */
  lemma StopsIff(cfg: Config, rs: seq<Counters>)
    requires cfg.transferCap > 0 && WasOver(cfg, rs)
    ensures var n := |rs| - 1; !CapFiring(cfg, BaseAt(rs, n), rs[n]) <==> Resets(rs) || Dips(cfg, rs)
  {
    BaseMoves(rs, |rs| - 1);
  }

  predicate Sampled(ticks: seq<Tick>, name: string) {
    ticks != [] && CountIn(ticks[|ticks| - 1].input.peers, name).Some?
  }

  /** The last tick of a run logs a Recovery for the peer's key. */
  ghost predicate Recovers(cfg: Config, ticks: seq<Tick>, name: string) {
    ticks != [] &&
    KeyLog(EventLog(cfg, ticks), TransferCap(name))
    == KeyLog(EventLog(cfg, ticks[..|ticks| - 1]), TransferCap(name)) + [Mark(Recovery, ticks[|ticks| - 1].now)]
  }

  /** The last observation ends a firing stretch. */
  predicate Stops(obs: seq<Observation>) { |obs| > 1 && obs[|obs| - 2].firing && !obs[|obs| - 1].firing }

  lemma SampledRecovers(before: seq<Observation>, o: Observation, cooldown: int)
    ensures LogAfter(before + [o], cooldown) == LogAfter(before, cooldown) + [Mark(Recovery, o.at)] <==>
            Stops(before + [o])
  {
    assert (before + [o])[..|before|] == before;
    RecoversIff(before + [o], cooldown);
  }

  lemma RecoversOnObservations(cfg: Config, ticks: seq<Tick>, name: string)
    requires DistinctRun(ticks)
    ensures Recovers(cfg, ticks, name) <==>
            Sampled(ticks, name) && Stops(Observations(cfg, ticks, TransferCap(name)))
  {
    if ticks != [] {
      var k, init := TransferCap(name), ticks[..|ticks| - 1];
      RunProjectsToKey(cfg, ticks, k);
      RunProjectsToKey(cfg, init, k);
      var before, now := Observations(cfg, init, k), ObservationIn(cfg, ticks, k);
      if Sampled(ticks, name) {
        SampledRecovers(before, now[0], cfg.cooldown);
        assert now == [now[0]];
      } else {
        assert before + now == before;
        var log := LogAfter(before, cfg.cooldown);
        assert |log| != |log + [Mark(Recovery, ticks[|init|].now)]|;
      }
    }
  }

  lemma StopsOnReadings(cfg: Config, rs: seq<Counters>, obs: seq<Observation>)
    requires Judged(cfg, rs, obs)
    ensures Stops(obs) <==> WasOver(cfg, rs) && !CapFiring(cfg, BaseAt(rs, |rs| - 1), rs[|rs| - 1])
  {
  }

  /** In every run a tick recovers a peer's key exactly when the peer is sampled after a reading
      over the cap, and the new reading is a reset or a dip. */
  lemma RecoversOnReadings(cfg: Config, ticks: seq<Tick>, name: string)
    requires DistinctRun(ticks) && cfg.transferCap > 0
    ensures Recovers(cfg, ticks, name) <==> Sampled(ticks, name) && ResetOrDip(cfg, Readings(ticks, name))
  {
    var rs, obs := Readings(ticks, name), Observations(cfg, ticks, TransferCap(name));
    RecoversOnObservations(cfg, ticks, name);
    ObservationsFollowReadings(cfg, ticks, name);
    StopsOnReadings(cfg, rs, obs);
    if WasOver(cfg, rs) { StopsIff(cfg, rs); }
  }

  function Prefix(ticks: seq<Tick>, i: nat): seq<Tick>
    requires i <= |ticks|
  {
    ticks[..i]
  }

  /** The source's comment, of one run: every recovery is a reset below the baseline. */
  ghost predicate OnlyResetsRecover(cfg: Config, ticks: seq<Tick>, name: string) {
    forall i :: 0 <= i <= |ticks| && Recovers(cfg, Prefix(ticks, i), name) ==>
      |Readings(Prefix(ticks, i), name)| > 1 && Resets(Readings(Prefix(ticks, i), name))
  }

  /** No tick brings a sampled peer from over the cap to a dip. */
  ghost predicate NoDip(cfg: Config, ticks: seq<Tick>, name: string) {
    forall i :: 0 <= i <= |ticks| && Sampled(Prefix(ticks, i), name) ==>
      !(WasOver(cfg, Readings(Prefix(ticks, i), name)) && Dips(cfg, Readings(Prefix(ticks, i), name)))
  }

  /** The comment holds of a run exactly when no reading after one over the cap lies at or above
      the baseline with both totals under the cap. */
  lemma OnlyResetsRecoverIff(cfg: Config, ticks: seq<Tick>, name: string)
    requires DistinctRun(ticks) && cfg.transferCap > 0
    ensures OnlyResetsRecover(cfg, ticks, name) <==> NoDip(cfg, ticks, name)
  {
    forall i | 0 <= i <= |ticks|
      ensures var p := Prefix(ticks, i);
              Recovers(cfg, p, name) <==> Sampled(p, name) && ResetOrDip(cfg, Readings(p, name))
    {
      RecoversOnReadings(cfg, Prefix(ticks, i), name);
    }
  }
}
