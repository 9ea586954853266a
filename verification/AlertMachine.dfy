/** The per-key alert state machine and the grammar of its event log (alerts/alerts.go). */
module AlertMachine {
  import opened Wrappers

  datatype Kind = Fire | Recovery

  /** stateMachine, with the episode start that the evaluator keeps for the active view. */
  datatype Machine = Machine(firing: bool, lastFire: Option<int>, firingSince: Option<int>)

  const IDLE := Machine(false, None, None)

  /** One tick's input for one key, and one entry of its log. */
  datatype Observation = Observation(at: int, firing: bool)

  datatype Mark = Mark(kind: Kind, at: int)

  /** stateMachine.observe followed by the firingSince bookkeeping of Evaluator.observe. */
  function Observe(m: Machine, o: Observation, cooldown: int): (Machine, Option<Kind>) {
    if o.firing then
      if !m.firing then (Machine(true, Some(o.at), Some(o.at)), Some(Fire))
      else if m.lastFire.Some? && o.at - m.lastFire.value >= cooldown then (m.(lastFire := Some(o.at)), Some(Fire))
      else (m, None)
    else if m.firing then (IDLE, Some(Recovery))
    else (m, None)
  }

  function MachineAfter(obs: seq<Observation>, cooldown: int): Machine {
    if obs == [] then IDLE
    else Observe(MachineAfter(obs[..|obs| - 1], cooldown), obs[|obs| - 1], cooldown).0
  }

  function Marks(kind: Option<Kind>, at: int): seq<Mark> {
    if kind.None? then [] else [Mark(kind.value, at)]
  }

  function LogAfter(obs: seq<Observation>, cooldown: int): seq<Mark> {
    if obs == [] then []
    else
      var o := obs[|obs| - 1];
      LogAfter(obs[..|obs| - 1], cooldown) +
        Marks(Observe(MachineAfter(obs[..|obs| - 1], cooldown), o, cooldown).1, o.at)
  }

  /** A prefix of repeated episodes, each one or more Fires and then one Recovery, with the
      Fires of an episode at least the cooldown apart. */
  predicate Episodes(log: seq<Mark>, cooldown: int) {
    && (log != [] ==> log[0].kind.Fire?)
    && (forall i :: 0 <= i < |log| - 1 ==> log[i].kind.Recovery? ==> log[i + 1].kind.Fire?)
    && (forall i :: 0 <= i < |log| - 1 ==> log[i].kind.Fire? && log[i + 1].kind.Fire? ==>
          log[i + 1].at - log[i].at >= cooldown)
  }

  /** The log ends inside an episode. */
  predicate Open(log: seq<Mark>) { log != [] && log[|log| - 1].kind.Fire? }

  /** When the episode the log ends in began. */
  function EpisodeStart(log: seq<Mark>): int
    requires Open(log)
  {
    if |log| == 1 || log[|log| - 2].kind.Recovery? then log[|log| - 1].at else EpisodeStart(log[..|log| - 1])
  }

  /** The machine state a log stands for. */
  function StateOf(log: seq<Mark>): Machine {
    if Open(log) then Machine(true, Some(log[|log| - 1].at), Some(EpisodeStart(log))) else IDLE
  }

  /** What a tick adds to a log, in terms of the log alone: a Fire on entry, a reminder exactly
      when the last Fire is at least the cooldown old, a Recovery exactly when an episode is open. */
  function Continue(log: seq<Mark>, o: Observation, cooldown: int): seq<Mark> {
    if o.firing then
      if !Open(log) || o.at - log[|log| - 1].at >= cooldown then log + [Mark(Fire, o.at)] else log
    else if Open(log) then log + [Mark(Recovery, o.at)]
    else log
  }

  lemma ContinueMatches(log: seq<Mark>, o: Observation, cooldown: int)
    ensures var (m, kind) := Observe(StateOf(log), o, cooldown);
            && Continue(log, o, cooldown) == log + Marks(kind, o.at)
            && m == StateOf(Continue(log, o, cooldown))
  {
    var next := Continue(log, o, cooldown);
    if next != log {
      assert next[..|next| - 1] == log;
    } else {
      assert log + [] == log;
    }
  }

  /** The incremental state is a fold over the key's own log, and the log continues as Continue
      says: exactly one Fire on entry, reminders exactly at the cooldown, one Recovery on clear. */
  lemma {:induction false} StateIsFoldOfLog(obs: seq<Observation>, cooldown: int)
    ensures MachineAfter(obs, cooldown) == StateOf(LogAfter(obs, cooldown))
    ensures obs != [] ==>
              LogAfter(obs, cooldown) == Continue(LogAfter(obs[..|obs| - 1], cooldown), obs[|obs| - 1], cooldown)
  {
    if obs != [] {
      var init := obs[..|obs| - 1];
      StateIsFoldOfLog(init, cooldown);
      ContinueMatches(LogAfter(init, cooldown), obs[|obs| - 1], cooldown);
    }
  }

  /** Whatever is observed, the log keeps to the episode grammar. */
  lemma {:induction false} LogIsEpisodes(obs: seq<Observation>, cooldown: int)
    ensures Episodes(LogAfter(obs, cooldown), cooldown)
  {
    if obs != [] {
      LogIsEpisodes(obs[..|obs| - 1], cooldown);
      StateIsFoldOfLog(obs, cooldown);
    }
  }

  ghost predicate StaysFiring(obs: seq<Observation>) {
    forall i, j :: 0 <= i < j < |obs| && obs[i].firing ==> obs[j].firing
  }

  /** Once firing, a key whose condition stays true never recovers. */
  lemma {:induction false} NoRecoveryWhileFiring(obs: seq<Observation>, cooldown: int)
    requires StaysFiring(obs)
    ensures forall m :: m in LogAfter(obs, cooldown) ==> m.kind.Fire?
    ensures MachineAfter(obs, cooldown).firing ==> obs != [] && obs[|obs| - 1].firing
    decreases |obs|
  {
    if obs != [] {
      var init := obs[..|obs| - 1];
      NoRecoveryWhileFiring(init, cooldown);
      if MachineAfter(init, cooldown).firing {
        assert init[|init| - 1] == obs[|obs| - 2];
      }
    }
  }

  /** A machine fires exactly when the last observation did. */
  lemma {:induction false} FiringFollowsLast(obs: seq<Observation>, cooldown: int)
    ensures MachineAfter(obs, cooldown).firing <==> obs != [] && obs[|obs| - 1].firing
    decreases |obs|
  {
    if obs != [] { FiringFollowsLast(obs[..|obs| - 1], cooldown); }
  }

  /** The last observation logs a Recovery exactly when it ends a firing stretch. */
  lemma RecoversIff(obs: seq<Observation>, cooldown: int)
    requires obs != []
    ensures var n := |obs| - 1;
            LogAfter(obs, cooldown) == LogAfter(obs[..n], cooldown) + [Mark(Recovery, obs[n].at)]
            <==> n > 0 && obs[n - 1].firing && !obs[n].firing
  {
    var n := |obs| - 1;
    FiringFollowsLast(obs[..n], cooldown);
    var before := LogAfter(obs[..n], cooldown);
    assert before + [Mark(Recovery, obs[n].at)] != before + [];
    assert (before + [Mark(Recovery, obs[n].at)])[|before|] == Mark(Recovery, obs[n].at);
    assert (before + [Mark(Fire, obs[n].at)])[|before|] == Mark(Fire, obs[n].at);
  }

  /** The record the evaluator keeps for a key, updated in place. */
  class StateMachine {
    var firing: bool
    var lastFire: Option<int>
    var firingSince: Option<int>

    function View(): Machine
      reads this
    {
      Machine(firing, lastFire, firingSince)
    }

    constructor ()
      ensures View() == IDLE
    {
      firing, lastFire, firingSince := false, None, None;
    }

    /** stateMachine.observe: the transition and whether to notify. */
    method Step(firingNow: bool, now: int, cooldown: int) returns (kind: Kind, emit: bool)
      modifies this`firing, this`lastFire
      ensures var (m, k) := Observe(old(View()), Observation(now, firingNow), cooldown);
              View() == m.(firingSince := firingSince) && emit == k.Some? && (emit ==> kind == k.value)
    {
      if firingNow {
        if !firing {
          firing, lastFire := true, Some(now);
          return Fire, true;
        }
        if lastFire.Some? && now - lastFire.value >= cooldown {
          lastFire := Some(now);
          return Fire, true;
        }
        return Fire, false;
      }
      if firing {
        firing, lastFire := false, None;
        return Recovery, true;
      }
      return Recovery, false;
    }

    /** Evaluator.observe's part: Step, then track the original fire time on the edges. */
    method Track(firingNow: bool, now: int, cooldown: int) returns (r: Option<Kind>)
      modifies this
      ensures (View(), r) == Observe(old(View()), Observation(now, firingNow), cooldown)
    {
      var wasFiring := firing;
      var kind, emit := Step(firingNow, now, cooldown);
      if !wasFiring && firing {
        firingSince := Some(now);
      } else if wasFiring && !firing {
        firingSince := None;
      }
      return if emit then Some(kind) else None;
    }
  }
}
