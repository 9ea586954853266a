/** Runs without failures, and what a restart changes. */
module HandshakeRestarts {
  import opened Wrappers
  import opened Handshakes
  import opened HandshakeRuns

  predicate AllStored(steps: seq<Step>) {
    forall i :: 0 <= i < |steps| ==> steps[i].Tick? ==> steps[i].sample.stored
  }

  predicate NoRestart(steps: seq<Step>) {
    forall i :: 0 <= i < |steps| ==> steps[i].Tick?
  }

  predicate Kept(beats: seq<Beat>) { forall i :: 0 <= i < |beats| && beats[i].Reading? ==> beats[i].stored }

  predicate Unbroken(beats: seq<Beat>) { forall i :: 0 <= i < |beats| ==> beats[i].Reading? }

  lemma {:induction false} TickBeatsAreReadings(reports: seq<Report>, names: map<string, string>, stored: bool,
                                                key: string)
    ensures Unbroken(BeatsIn(reports, names, stored, key))
    ensures stored ==> Kept(BeatsIn(reports, names, stored, key))
  {
    if reports != [] { TickBeatsAreReadings(reports[..|reports| - 1], names, stored, key); }
  }

  lemma {:induction false} BeatsOfRun(steps: seq<Step>, key: string)
    ensures AllStored(steps) ==> Kept(Beats(steps, key))
    ensures NoRestart(steps) ==> Unbroken(Beats(steps, key))
    decreases |steps|
  {
    if steps != [] {
      var step := steps[|steps| - 1];
      BeatsOfRun(steps[..|steps| - 1], key);
      if step.Tick? { TickBeatsAreReadings(step.sample.reports, step.sample.names, step.sample.stored, key); }
    }
  }

  /** The times reported for a peer over a run, in order. */
  function Times(beats: seq<Beat>): seq<int> {
    if beats == [] then []
    else Times(beats[..|beats| - 1]) + match beats[|beats| - 1] case Reading(at, _, _) => [at] case Cleared => []
  }

  /** Strict running maximum, starting from 0. */
  ghost predicate RunningMaximum(times: seq<int>, i: int) {
    0 <= i < |times| && times[i] > 0 && forall j :: 0 <= j < i ==> times[j] < times[i]
  }

  lemma {:induction false} UnbrokenTimes(beats: seq<Beat>)
    requires Unbroken(beats)
    ensures |Times(beats)| == |beats| && forall i :: 0 <= i < |beats| ==> Times(beats)[i] == beats[i].at
    decreases |beats|
  {
    if beats != [] { UnbrokenTimes(beats[..|beats| - 1]); }
  }

  /** In a run without insert failures and restarts the table holds, for each peer, exactly the
      strict running maxima of the times reported for it. */
  lemma StoresRunningMaxima(steps: seq<Step>, key: string, t: int)
    requires AllStored(steps) && NoRestart(steps)
    ensures var times := Times(Beats(steps, key));
            (t, key) in After(steps).table <==> exists i :: RunningMaximum(times, i) && times[i] == t
  {
    var beats := Beats(steps, key);
    BeatsOfRun(steps, key);
    UnbrokenTimes(beats);
    TableHoldsRecords(steps, key, t);
    forall i ensures Stores(beats, i, t) <==> RunningMaximum(Times(beats), i) && Times(beats)[i] == t {
      assert 0 <= i < |beats| ==> forall j :: 0 <= j < i ==> SameLife(beats, j, i);
    }
  }

  /** No time reported for the peer is below an earlier one. */
  predicate NeverFallsBack(beats: seq<Beat>) {
    forall j, i :: 0 <= j < i < |beats| && beats[j].Reading? && beats[i].Reading? ==> beats[j].at <= beats[i].at
  }

  ghost predicate Reported(beats: seq<Beat>, t: int) {
    exists i :: 0 <= i < |beats| && beats[i].Reading? && beats[i].at == t
  }

  lemma {:induction false} FirstReport(beats: seq<Beat>, t: int, k: nat) returns (i: nat)
    requires k < |beats| && beats[k].Reading? && beats[k].at == t
    ensures i <= k && beats[i].Reading? && beats[i].at == t
    ensures forall j :: 0 <= j < i && beats[j].Reading? ==> beats[j].at != t
  {
    if j :| 0 <= j < k && beats[j].Reading? && beats[j].at == t {
      i := FirstReport(beats, t, j);
    } else {
      i := k;
    }
  }

  /** With times that never fall back, every reported time is stored, restarts or not. */
  lemma SteadyStoresEverything(beats: seq<Beat>, t: int)
    requires Kept(beats) && NeverFallsBack(beats)
    ensures HasRecord(beats, t) <==> t > 0 && Reported(beats, t)
  {
    if t > 0 && Reported(beats, t) {
      var k :| 0 <= k < |beats| && beats[k].Reading? && beats[k].at == t;
      var i := FirstReport(beats, t, k);
      assert Stores(beats, i, t);
    }
    if i :| Stores(beats, i, t) { assert beats[i].at == t; }
  }

  lemma {:induction false} BeatsConcat(a: seq<Step>, b: seq<Step>, key: string)
    ensures Beats(a + b, key) == Beats(a, key) + Beats(b, key)
    decreases |b|
  {
    if b == [] {
      assert a + b == a;
    } else {
      assert (a + b)[..|a + b| - 1] == a + b[..|b| - 1];
      BeatsConcat(a, b[..|b| - 1], key);
    }
  }

  lemma ClearingKeepsOrder(p: seq<Beat>, q: seq<Beat>)
    requires NeverFallsBack(p + q)
    ensures NeverFallsBack(p + [Cleared] + q)
    ensures forall t :: Reported(p + [Cleared] + q, t) <==> Reported(p + q, t)
  {
    var a, b := p + q, p + [Cleared] + q;
    forall j, i | 0 <= j < i < |b| && b[j].Reading? && b[i].Reading? ensures b[j].at <= b[i].at {
      var j', i' := if j < |p| then j else j - 1, if i < |p| then i else i - 1;
      assert b[j] == a[j'] && b[i] == a[i'];
    }
    forall t ensures Reported(b, t) <==> Reported(a, t) {
      if i :| 0 <= i < |b| && b[i].Reading? && b[i].at == t { assert b[i] == a[if i < |p| then i else i - 1]; }
      if i :| 0 <= i < |a| && a[i].Reading? && a[i].at == t { assert a[i] == b[if i < |p| then i else i + 1]; }
    }
  }

  /** Without failures and falls the table holds exactly the reported times, restarts or not. */
  lemma SteadyTable(steps: seq<Step>, key: string, t: int)
    requires AllStored(steps) && NeverFallsBack(Beats(steps, key))
    ensures (t, key) in After(steps).table <==> t > 0 && Reported(Beats(steps, key), t)
  {
    BeatsOfRun(steps, key);
    SteadyStoresEverything(Beats(steps, key), t);
    TableHoldsRecords(steps, key, t);
  }

  lemma RestartAddsClear(before: seq<Step>, after: seq<Step>, key: string)
    ensures Beats(before + [Restart] + after, key) == Beats(before, key) + [Cleared] + Beats(after, key)
  {
    BeatsConcat(before, [Restart], key);
    BeatsConcat(before + [Restart], after, key);
    assert [Restart][..0] == [];
  }

  lemma RestartFailsNothing(before: seq<Step>, after: seq<Step>)
    requires AllStored(before + after)
    ensures AllStored(before + [Restart] + after)
  {
    var whole, cut := before + after, before + [Restart] + after;
    assert forall i :: 0 <= i < |cut| && i != |before| ==> cut[i] == whole[if i < |before| then i else i - 1];
  }

  /** A restart at any tick leaves the stored (time, key) pairs of a peer unchanged, provided its
      times never fall back and inserts succeed. */
  lemma RestartLosesNothing(before: seq<Step>, after: seq<Step>, key: string, t: int)
    requires AllStored(before + after) && NeverFallsBack(Beats(before + after, key))
    ensures (t, key) in After(before + [Restart] + after).table <==> (t, key) in After(before + after).table
  {
    BeatsConcat(before, after, key);
    RestartAddsClear(before, after, key);
    RestartFailsNothing(before, after);
    ClearingKeepsOrder(Beats(before, key), Beats(after, key));
    SteadyTable(before + after, key, t);
    SteadyTable(before + [Restart] + after, key, t);
  }

  lemma LivesJoin(p: seq<Beat>, q: seq<Beat>, j: nat, i: nat)
    requires j <= |p| + i && i <= |q|
    ensures SameLife(p + q, j, |p| + i) <==>
            if j >= |p| then SameLife(q, j - |p|, i) else SameLife(p, j, |p|) && SameLife(q, 0, i)
  {
    var w := p + q;
    assert forall m :: 0 <= m < |p| ==> w[m] == p[m];
    assert forall m :: 0 <= m < |q| ==> w[|p| + m] == q[m];
    if SameLife(w, j, |p| + i) {
      assert forall m :: j <= m < |p| ==> w[m].Reading?;
      forall m | 0 <= m < i && j <= |p| + m ensures q[m].Reading? { assert w[|p| + m].Reading?; }
    }
  }

  lemma PrefixRecords(p: seq<Beat>, q: seq<Beat>, i: nat)
    requires i < |p|
    ensures IsRecord(p + q, i) <==> IsRecord(p, i)
  {
    var w := p + q;
    forall j | 0 <= j <= i ensures SameLife(w, j, i) <==> SameLife(p, j, i) {
      assert forall m :: j <= m < i ==> w[m] == p[m];
    }
    assert w[i] == p[i] && forall j :: 0 <= j < i ==> w[j] == p[j];
  }

  /** A record of the second part stays one unless it belongs to the life that the first part's
      peak belongs to, and does not pass that peak. */
  lemma SuffixRecords(p: seq<Beat>, q: seq<Beat>, i: nat, last: int)
    requires i < |q| && IsPeak(p, last)
    ensures IsRecord(p + q, |p| + i) <==> IsRecord(q, i) && (SameLife(q, 0, i) ==> q[i].at > last)
  {
    var w := p + q;
    forall j | 0 <= j <= |p| + i
      ensures SameLife(w, j, |p| + i) <==>
              if j >= |p| then SameLife(q, j - |p|, i) else SameLife(p, j, |p|) && SameLife(q, 0, i)
    {
      LivesJoin(p, q, j, i);
    }
    assert w[|p| + i] == q[i];
    if IsRecord(w, |p| + i) {
      forall j | 0 <= j < i && SameLife(q, j, i) && q[j].Reading? ensures q[j].at < q[i].at {
        assert w[|p| + j] == q[j] && SameLife(w, |p| + j, |p| + i);
      }
      if SameLife(q, 0, i) && last > 0 {
        var j :| 0 <= j < |p| && SameLife(p, j, |p|) && p[j].at == last;
        assert w[j] == p[j] && SameLife(w, j, |p| + i);
      }
    }
    if IsRecord(q, i) && (SameLife(q, 0, i) ==> q[i].at > last) {
      forall j | 0 <= j < |p| + i && SameLife(w, j, |p| + i) && w[j].Reading? ensures w[j].at < q[i].at {
        LivesJoin(p, q, j, i);
        if j < |p| { assert w[j] == p[j]; } else { assert w[j] == q[j - |p|] && SameLife(q, j - |p|, i); }
      }
    }
  }

  /** A stored record of the second part that counts after a first part with this peak. */
  ghost predicate StoresAbove(q: seq<Beat>, last: int, i: int, t: int) {
    Stores(q, i, t) && (SameLife(q, 0, i) ==> t > last)
  }

  ghost predicate HasAbove(q: seq<Beat>, last: int, t: int) { exists i :: StoresAbove(q, last, i, t) }

  lemma JoinedStores(p: seq<Beat>, q: seq<Beat>, i: int, t: int)
    ensures Stores(p + q, i, t) <==>
            if i < |p| then Stores(p, i, t) else StoresAbove(q, LaneFrom(EMPTY, p).last, i - |p|, t)
  {
    CacheIsPeak(p);
    if 0 <= i < |p| {
      PrefixRecords(p, q, i);
    } else if |p| <= i < |p + q| {
      SuffixRecords(p, q, i - |p|, LaneFrom(EMPTY, p).last);
    }
  }

  lemma JoinedRecords(p: seq<Beat>, q: seq<Beat>, t: int)
    ensures HasRecord(p + q, t) <==> HasRecord(p, t) || HasAbove(q, LaneFrom(EMPTY, p).last, t)
  {
    var last := LaneFrom(EMPTY, p).last;
    if i :| Stores(p + q, i, t) { JoinedStores(p, q, i, t); }
    if i :| Stores(p, i, t) { JoinedStores(p, q, i, t); }
    if i :| StoresAbove(q, last, i, t) { JoinedStores(p, q, |p| + i, t); }
  }

  /** Clearing the cache makes the two parts independent. */
  lemma ClearedRecords(p: seq<Beat>, q: seq<Beat>, t: int)
    ensures HasRecord(p + [Cleared] + q, t) <==> HasRecord(p, t) || HasRecord(q, t)
  {
    JoinedRecords(p, [Cleared], t);
    JoinedRecords(p + [Cleared], q, t);
    assert (p + [Cleared])[..|p|] == p && LaneFrom(EMPTY, p + [Cleared]).last == 0;
    assert forall i :: StoresAbove(q, 0, i, t) <==> Stores(q, i, t);
    assert forall i :: !StoresAbove([Cleared], LaneFrom(EMPTY, p).last, i, t);
  }

  /** Whatever is reported and whatever fails, a run with a restart stores a pair exactly when the
      part before the restart or the part after it stores it by itself. */
  lemma RestartStoresBoth(before: seq<Step>, after: seq<Step>, key: string, t: int)
    ensures (t, key) in After(before + [Restart] + after).table <==>
            (t, key) in After(before).table || (t, key) in After(after).table
  {
    RestartAddsClear(before, after, key);
    ClearedRecords(Beats(before, key), Beats(after, key), t);
    TableHoldsRecords(before + [Restart] + after, key, t);
    TableHoldsRecords(before, key, t);
    TableHoldsRecords(after, key, t);
  }

  /** Without the restart, the later part's pairs of the same process lifetime count only above
      the cached time. */
  lemma NoRestartStores(before: seq<Step>, after: seq<Step>, key: string, t: int)
    ensures (t, key) in After(before + after).table <==>
            (t, key) in After(before).table || HasAbove(Beats(after, key), Cached(After(before).cache, key), t)
  {
    BeatsConcat(before, after, key);
    RunMovesLane(before, key);
    JoinedRecords(Beats(before, key), Beats(after, key), t);
    TableHoldsRecords(before + after, key, t);
    TableHoldsRecords(before, key, t);
  }

  /** A restart never loses a pair. */
  lemma RestartOnlyAdds(before: seq<Step>, after: seq<Step>, key: string, t: int)
    requires (t, key) in After(before + after).table
    ensures (t, key) in After(before + [Restart] + after).table
  {
    RestartStoresBoth(before, after, key, t);
    NoRestartStores(before, after, key, t);
    TableHoldsRecords(after, key, t);
    if HasAbove(Beats(after, key), Cached(After(before).cache, key), t) {
      var i :| StoresAbove(Beats(after, key), Cached(After(before).cache, key), i, t);
      assert Stores(Beats(after, key), i, t);
    }
  }

  /** A reading of the life that the beats end in has reached t. */
  ghost predicate Reached(beats: seq<Beat>, t: int) {
    exists j :: 0 <= j < |beats| && SameLife(beats, j, |beats|) && beats[j].at >= t
  }

  lemma ReachedIsPeak(beats: seq<Beat>, t: int)
    requires t > 0
    ensures Reached(beats, t) <==> t <= LaneFrom(EMPTY, beats).last
  {
    CacheIsPeak(beats);
  }

  /** What a restart between these reports adds: a time that the later part stores, in the life it
      starts with only, that the earlier part never stored and that its last life had reached. */
  ghost predicate Adds(p: seq<Beat>, q: seq<Beat>, t: int) {
    HasRecord(q, t) && !HasRecord(p, t) && Reached(p, t) && forall i :: Stores(q, i, t) ==> SameLife(q, 0, i)
  }

  lemma AddsIff(p: seq<Beat>, q: seq<Beat>, t: int)
    ensures Adds(p, q, t) <==> HasRecord(q, t) && !HasRecord(p, t) && !HasAbove(q, LaneFrom(EMPTY, p).last, t)
  {
    var last := LaneFrom(EMPTY, p).last;
    if i :| Stores(q, i, t) {
      ReachedIsPeak(p, t);
      if !HasAbove(q, last, t) {
        forall j | Stores(q, j, t) ensures SameLife(q, 0, j) && t <= last { assert !StoresAbove(q, last, j, t); }
      }
    }
  }

  ghost predicate SamePairs(a: Recorder, b: Recorder, key: string) {
    forall t :: (t, key) in a.table <==> (t, key) in b.table
  }

  ghost predicate AddsNothing(p: seq<Beat>, q: seq<Beat>) { forall t :: !Adds(p, q, t) }

  /** A restart leaves a peer's stored pairs unchanged if and only if it would add none, whatever
      is reported and whatever inserts fail. */
  lemma RestartInvisibleIff(before: seq<Step>, after: seq<Step>, key: string)
    ensures SamePairs(After(before + [Restart] + after), After(before + after), key) <==>
            AddsNothing(Beats(before, key), Beats(after, key))
  {
    var a, b, p, q := After(before + [Restart] + after), After(before + after), Beats(before, key), Beats(after, key);
    RunMovesLane(before, key);
    forall t ensures ((t, key) in a.table <==> (t, key) in b.table) <==> !Adds(p, q, t) {
      AddsIff(p, q, t);
      RestartStoresBoth(before, after, key, t);
      NoRestartStores(before, after, key, t);
      TableHoldsRecords(before, key, t);
      TableHoldsRecords(after, key, t);
      if (t, key) in b.table { RestartOnlyAdds(before, after, key, t); }
    }
  }

  lemma {:induction false} LastRecord(beats: seq<Beat>, t: int, k: int) returns (i: int)
    requires Stores(beats, k, t)
    ensures Stores(beats, i, t) && forall j :: j > i ==> !Stores(beats, j, t)
    decreases |beats| - k
  {
    if j :| j > k && Stores(beats, j, t) {
      i := LastRecord(beats, t, j);
    } else {
      i := k;
    }
  }

  lemma OneLatestName(beats: seq<Beat>, t: int, a: string, b: string)
    requires LatestName(beats, t, a) && LatestName(beats, t, b)
    ensures a == b
  {
    var i :| Stores(beats, i, t) && a == beats[i].name && forall k :: k > i ==> !Stores(beats, k, t);
    var j :| Stores(beats, j, t) && b == beats[j].name && forall k :: k > j ==> !Stores(beats, k, t);
    assert i == j;
  }

  /** The name of the last record that counts after a first part with this peak. */
  ghost predicate LatestAbove(q: seq<Beat>, last: int, t: int, name: string) {
    exists i :: StoresAbove(q, last, i, t) && name == q[i].name && forall j :: j > i ==> !StoresAbove(q, last, j, t)
  }

  lemma LatestInSecond(p: seq<Beat>, q: seq<Beat>, t: int, i: nat)
    requires var last := LaneFrom(EMPTY, p).last;
             StoresAbove(q, last, i, t) && forall j :: j > i ==> !StoresAbove(q, last, j, t)
    ensures Stores(p + q, |p| + i, t) && forall j :: j > |p| + i ==> !Stores(p + q, j, t)
  {
    JoinedStores(p, q, |p| + i, t);
    forall j | j > |p| + i ensures !Stores(p + q, j, t) { JoinedStores(p, q, j, t); }
  }

  lemma LatestInFirst(p: seq<Beat>, q: seq<Beat>, t: int, i: nat)
    requires !HasAbove(q, LaneFrom(EMPTY, p).last, t)
    requires Stores(p, i, t) && forall j :: j > i ==> !Stores(p, j, t)
    ensures Stores(p + q, i, t) && forall j :: j > i ==> !Stores(p + q, j, t)
  {
    JoinedStores(p, q, i, t);
    forall j | j > i ensures !Stores(p + q, j, t) { JoinedStores(p, q, j, t); }
  }

  lemma {:induction false} LastAbove(q: seq<Beat>, last: int, t: int, k: int) returns (i: int)
    requires StoresAbove(q, last, k, t)
    ensures StoresAbove(q, last, i, t) && forall j :: j > i ==> !StoresAbove(q, last, j, t)
    decreases |q| - k
  {
    if j :| j > k && StoresAbove(q, last, j, t) {
      i := LastAbove(q, last, t, j);
    } else {
      i := k;
    }
  }

  /** Where the name of a pair comes from when the parts are joined: the last record of the second
      part that counts, or else the last of the first. */
  lemma JoinedLatest(p: seq<Beat>, q: seq<Beat>, t: int, name: string)
    ensures var last := LaneFrom(EMPTY, p).last;
            LatestName(p + q, t, name) <==>
            if HasAbove(q, last, t) then LatestAbove(q, last, t, name) else LatestName(p, t, name)
  {
    var last := LaneFrom(EMPTY, p).last;
    JoinedRecords(p, q, t);
    if k :| StoresAbove(q, last, k, t) {
      var i := LastAbove(q, last, t, k);
      LatestInSecond(p, q, t, i);
      assert LatestAbove(q, last, t, name) <==> name == q[i].name;
      assert LatestName(p + q, t, name) <==> name == (p + q)[|p| + i].name;
    } else if k :| Stores(p, k, t) {
      var i := LastRecord(p, t, k);
      LatestInFirst(p, q, t, i);
      assert LatestName(p, t, name) <==> name == p[i].name;
      assert LatestName(p + q, t, name) <==> name == (p + q)[i].name;
    }
  }

  lemma ClearedLatest(p: seq<Beat>, q: seq<Beat>, t: int, name: string)
    ensures LatestName(p + [Cleared] + q, t, name) <==>
            if HasRecord(q, t) then LatestName(q, t, name) else LatestName(p, t, name)
  {
    assert (p + [Cleared])[..|p|] == p && LaneFrom(EMPTY, p + [Cleared]).last == 0;
    JoinedLatest(p, [Cleared], t, name);
    JoinedLatest(p + [Cleared], q, t, name);
    assert forall i :: StoresAbove(q, 0, i, t) <==> Stores(q, i, t);
    assert forall i :: !StoresAbove([Cleared], LaneFrom(EMPTY, p).last, i, t);
  }

  /** What a restart between these reports changes: a time whose last record in the later part falls
      in the life that part starts with, that the earlier part's last life had reached, and that the
      earlier part does not hold under the same name. */
  ghost predicate Rewrites(p: seq<Beat>, q: seq<Beat>, t: int) {
    && Reached(p, t)
    && exists i :: && Stores(q, i, t) && SameLife(q, 0, i) && (forall j :: j > i ==> !Stores(q, j, t))
                   && !LatestName(p, t, q[i].name)
  }

  lemma FirstLifeHasOneRecord(q: seq<Beat>, i: int, last: int, t: int)
    requires Stores(q, i, t) && (forall j :: j > i ==> !Stores(q, j, t)) && SameLife(q, 0, i) && t <= last
    ensures !HasAbove(q, last, t)
  {
    forall j | Stores(q, j, t) ensures SameLife(q, 0, j) { }
  }

  ghost predicate SameNames(p: seq<Beat>, q: seq<Beat>, t: int) {
    forall name :: LatestName(p + [Cleared] + q, t, name) <==> LatestName(p + q, t, name)
  }

  lemma SameNamesIff(p: seq<Beat>, q: seq<Beat>, t: int)
    ensures SameNames(p, q, t) <==> !Rewrites(p, q, t)
  {
    var last := LaneFrom(EMPTY, p).last;
    forall name
      ensures LatestName(p + q, t, name) <==>
              if HasAbove(q, last, t) then LatestAbove(q, last, t, name) else LatestName(p, t, name)
      ensures LatestName(p + [Cleared] + q, t, name) <==>
              if HasRecord(q, t) then LatestName(q, t, name) else LatestName(p, t, name)
    {
      JoinedLatest(p, q, t, name);
      ClearedLatest(p, q, t, name);
    }
    if k :| Stores(q, k, t) {
      var i := LastRecord(q, t, k);
      ReachedIsPeak(p, t);
      assert forall name :: LatestName(q, t, name) <==> name == q[i].name;
      if StoresAbove(q, last, i, t) {
        assert forall name :: LatestAbove(q, last, t, name) <==> name == q[i].name;
      } else {
        FirstLifeHasOneRecord(q, i, last, t);
        forall name | LatestName(p, t, name) && LatestName(p, t, q[i].name) ensures name == q[i].name {
          OneLatestName(p, t, name, q[i].name);
        }
        assert LatestName(p + q, t, q[i].name) <==> LatestName(p, t, q[i].name);
      }
    }
  }

  function RowAt(r: Recorder, key: string, t: int): Option<string> {
    if (t, key) in r.table then Some(r.table[(t, key)]) else None
  }

  lemma RowIsLatest(steps: seq<Step>, key: string, t: int)
    ensures forall name :: RowAt(After(steps), key, t) == Some(name) <==> LatestName(Beats(steps, key), t, name)
  {
    var beats := Beats(steps, key);
    TableHoldsRecords(steps, key, t);
    forall name | LatestName(beats, t, name) ensures RowAt(After(steps), key, t) == Some(name) {
      OneLatestName(beats, t, name, After(steps).table[(t, key)]);
    }
  }

  ghost predicate SameRows(a: Recorder, b: Recorder, key: string) { forall t :: RowAt(a, key, t) == RowAt(b, key, t) }

  ghost predicate RewritesNothing(p: seq<Beat>, q: seq<Beat>) { forall t :: !Rewrites(p, q, t) }

  /** A restart leaves a peer's rows as they would have been, names included, if and only if it
      rewrites none, whatever is reported and whatever inserts fail. */
  lemma RestartKeepsRowsIff(before: seq<Step>, after: seq<Step>, key: string)
    ensures SameRows(After(before + [Restart] + after), After(before + after), key) <==>
            RewritesNothing(Beats(before, key), Beats(after, key))
  {
    var p, q := Beats(before, key), Beats(after, key);
    var a, b := before + [Restart] + after, before + after;
    BeatsConcat(before, after, key);
    RestartAddsClear(before, after, key);
    forall t ensures RowAt(After(a), key, t) == RowAt(After(b), key, t) <==> !Rewrites(p, q, t) {
      var x, y := RowAt(After(a), key, t), RowAt(After(b), key, t);
      RowIsLatest(a, key, t);
      RowIsLatest(b, key, t);
      SameNamesIff(p, q, t);
      assert (forall name :: x == Some(name) <==> y == Some(name)) <==> SameNames(p, q, t);
      assert x.Some? ==> x == Some(x.value);
      assert y.Some? ==> y == Some(y.value);
    }
  }

  /** One time is always reported under one name. */
  predicate SteadyNames(beats: seq<Beat>) {
    forall i, j :: 0 <= i < j < |beats| && beats[i].Reading? && beats[j].Reading? && beats[i].at == beats[j].at ==>
      beats[i].name == beats[j].name
  }

  lemma SteadyRewritesNothing(p: seq<Beat>, q: seq<Beat>)
    requires Kept(p + q) && NeverFallsBack(p + q) && SteadyNames(p + q)
    ensures RewritesNothing(p, q)
  {
    var w := p + q;
    assert forall i :: 0 <= i < |p| ==> w[i] == p[i];
    assert forall i :: 0 <= i < |q| ==> w[|p| + i] == q[i];
    forall t, i | Reached(p, t) && Stores(q, i, t) ensures LatestName(p, t, q[i].name) {
      var j :| 0 <= j < |p| && SameLife(p, j, |p|) && p[j].at >= t;
      assert w[j].at <= w[|p| + i].at;
      SteadyStoresEverything(p, t);
      assert Reported(p, t);
      var k :| Stores(p, k, t);
      var last := LastRecord(p, t, k);
      assert w[last].name == w[|p| + i].name;
    }
  }

  /** Re-emission after a restart is idempotent, on whole rows, for a peer whose times never fall
      back and keep their names, if inserts succeed. */
  lemma RestartKeepsSteadyRows(before: seq<Step>, after: seq<Step>, key: string)
    requires AllStored(before + after)
    requires NeverFallsBack(Beats(before + after, key)) && SteadyNames(Beats(before + after, key))
    ensures SameRows(After(before + [Restart] + after), After(before + after), key)
  {
    BeatsConcat(before, after, key);
    BeatsOfRun(before + after, key);
    SteadyRewritesNothing(Beats(before, key), Beats(after, key));
    RestartKeepsRowsIff(before, after, key);
  }

  function NamedTick(key: string, at: int, names: map<string, string>): Step {
    Tick(Sample([Report(key, Some(at))], names, true))
  }

  function Report1(key: string, at: int): Step { NamedTick(key, at, map[]) }

  lemma OneReportTick(r: Recorder, key: string, at: int, names: map<string, string>)
    ensures Next(r, NamedTick(key, at, names)) ==
            if at > Cached(r.cache, key) then Recorder(r.cache[key := at], r.table[(at, key) := NameFor(names, key)])
            else r
  {
    var reports := [Report(key, Some(at))];
    var row := Row(at, key, NameFor(names, key));
    assert reports[..0] == [] && Scan(r.cache, [], names) == (r.cache, []);
    assert [] + [row] == [row] && [row][..0] == [];
    assert Insert(r.table, [row]) == r.table[(at, key) := row.name];
  }

  lemma TwoSteps(a: Step, b: Step)
    ensures After([a]) == Next(Recorder(map[], map[]), a)
    ensures After([a, b]) == Next(After([a]), b)
    ensures After([a, Restart, b]) == Next(After([a]).(cache := map[]), b)
  {
    assert [a][..0] == [] && [a, Restart][..1] == [a] && [a, Restart, b][..2] == [a, Restart] && [a, b][..1] == [a];
    assert After([a, Restart]) == Next(After([a]), Restart);
  }

  /** A run in which a restart adds a pair: the times 10, restart, 5 store 5; without the restart
      they do not. */
  lemma FallBackAcrossRestart(key: string)
    ensures (5, key) in After([Report1(key, 10), Restart, Report1(key, 5)]).table
    ensures (5, key) !in After([Report1(key, 10), Report1(key, 5)]).table
  {
    var a, b := Report1(key, 10), Report1(key, 5);
    TwoSteps(a, b);
    OneReportTick(Recorder(map[], map[]), key, 10, map[]);
    OneReportTick(After([a]).(cache := map[]), key, 5, map[]);
    OneReportTick(After([a]), key, 5, map[]);
  }

  /** Re-emission is not idempotent on rows: with the same time reported before and after a restart,
      a manifest that cannot be read at the second tick loses the name stored at the first. */
  lemma NameLostAcrossRestart(key: string, name: string)
    requires name != key
    ensures var a, b := NamedTick(key, 10, map[key := name]), NamedTick(key, 10, map[]);
            && RowAt(After([a, Restart, b]), key, 10) == Some(key)
            && RowAt(After([a, b]), key, 10) == Some(name)
  {
    var a, b := NamedTick(key, 10, map[key := name]), NamedTick(key, 10, map[]);
    TwoSteps(a, b);
    OneReportTick(Recorder(map[], map[]), key, 10, map[key := name]);
    OneReportTick(After([a]).(cache := map[]), key, 10, map[]);
    OneReportTick(After([a]), key, 10, map[]);
  }
}
