/** The status holder: the latest active view and a bounded ring of events (alerts/status.go). */
module StatusRing {
  import opened AlertEval
  import opened AlertClass

  const RECENT_CAP := 50

  /** The last n elements of a log, or all of it. */
  function LastN<T>(s: seq<T>, n: nat): seq<T> {
    if |s| > n then s[|s| - n..] else s
  }

  /** Trimming early loses nothing that trimming later would keep. */
  lemma TrimmedThenTrimmed<T>(s: seq<T>, more: seq<T>, n: nat)
    ensures LastN(LastN(s, n) + more, n) == LastN(s + more, n)
  {
    if |s| > n {
      var cut := |s| - n;
      assert (s + more)[cut..] == s[cut..] + more;
      assert (s + more)[cut..][|more|..] == (s + more)[cut + |more|..];
    }
  }

  function Reverse<T>(s: seq<T>): (r: seq<T>)
    ensures |r| == |s| && forall i :: 0 <= i < |s| ==> r[i] == s[|s| - 1 - i]
  {
    if s == [] then [] else Reverse(s[1..]) + [s[0]]
  }

  datatype Status = Status(enabled: bool, active: seq<ActiveAlert>, recent: seq<Event>)

  class StatusHolder {
    var enabled: bool
    var active: seq<ActiveAlert>
    var recent: seq<Event>

    ghost predicate Valid()
      reads this
    {
      |recent| <= RECENT_CAP
    }

    constructor ()
      ensures Valid() && !enabled && active == [] && recent == []
    {
      enabled, active, recent := false, [], [];
    }

    method SetEnabled(on: bool)
      modifies this`enabled
      ensures enabled == on
    {
      enabled := on;
    }

    method Update(nowActive: seq<ActiveAlert>, events: seq<Event>)
      requires Valid()
      modifies this`active, this`recent
      ensures Valid() && active == nowActive && recent == LastN(old(recent) + events, RECENT_CAP)
    {
      active := nowActive;
      for i := 0 to |events|
        invariant active == nowActive && recent == old(recent) + events[..i]
      {
        recent := recent + [events[i]];
      }
      assert events[..|events|] == events;
      if |recent| > RECENT_CAP {
        recent := recent[|recent| - RECENT_CAP..];
      }
    }

    /** Newest first, in a fresh copy. */
    method Snapshot() returns (status: Status)
      ensures status == Status(enabled, active, Reverse(recent))
    {
      var n := |recent|;
      var copied := new Event[n];
      for i := 0 to n
        invariant forall j :: 0 <= j < i ==> copied[n - 1 - j] == recent[j]
      {
        copied[n - 1 - i] := recent[i];
      }
      assert copied[..] == Reverse(recent);
      status := Status(enabled, active, copied[..]);
    }
  }

  /** The ring after a run in which every tick's events went through Update. */
  function RingAfter(cfg: Config, ticks: seq<Tick>): seq<Event> {
    if ticks == [] then []
    else
      var init := ticks[..|ticks| - 1];
      LastN(RingAfter(cfg, init) + EvaluateTick(cfg, StateAfter(cfg, init), ticks[|ticks| - 1]).1, RECENT_CAP)
  }

  /** The ring is exactly the last fifty events of the full log, whatever was delivered. */
  lemma {:induction false} RingIsLastOfLog(cfg: Config, ticks: seq<Tick>)
    ensures RingAfter(cfg, ticks) == LastN(EventLog(cfg, ticks), RECENT_CAP)
    decreases |ticks|
  {
    if ticks != [] {
      var init := ticks[..|ticks| - 1];
      RingIsLastOfLog(cfg, init);
      TrimmedThenTrimmed(EventLog(cfg, init), EvaluateTick(cfg, StateAfter(cfg, init), ticks[|ticks| - 1]).1,
                         RECENT_CAP);
    }
  }

  /** The newest n entries of a log, or all if there are fewer, newest first. */
  ghost predicate NewestFirst<T>(shown: seq<T>, log: seq<T>, n: nat) {
    && |shown| == (if |log| < n then |log| else n)
    && forall i :: 0 <= i < |shown| ==> shown[i] == log[|log| - 1 - i]
  }

  lemma ReversedTail<T>(log: seq<T>, n: nat)
    ensures NewestFirst(Reverse(LastN(log, n)), log, n)
  {}

  /** What a snapshot shows: entry i is the i-th newest event of the whole run. */
  lemma SnapshotIsNewestFirst(cfg: Config, ticks: seq<Tick>)
    ensures NewestFirst(Reverse(RingAfter(cfg, ticks)), EventLog(cfg, ticks), RECENT_CAP)
  {
    RingIsLastOfLog(cfg, ticks);
    ReversedTail(EventLog(cfg, ticks), RECENT_CAP);
  }
}
