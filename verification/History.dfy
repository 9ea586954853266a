/** Sessions derived from handshake times (history/history.go). */
module History {
  import opened Wrappers

  datatype Session = Session(start: int, end: int)

  /** Summary without its human-readable text. LastSeen is None for the zero time. */
  datatype Summary = Summary(sessions: seq<Session>, sessionCount: nat, connectedTime: int, online: bool,
                             lastSeen: Option<int>)

  predicate Rising(s: seq<nat>) { forall i, j :: 0 <= i < j < |s| ==> s[i] < s[j] }

  /** A cut of the indices 0..n into consecutive runs: where each run starts, and n at the end. */
  ghost predicate IsCut(cuts: seq<nat>, n: nat) {
    && |cuts| > 0 && cuts[0] == 0 && cuts[|cuts| - 1] == n
    && Rising(cuts)
  }

  /** The declarative meaning: every gap inside a run is at most the threshold, and every gap
      between two runs is strictly greater. */
  ghost predicate IsSplit(times: seq<int>, gap: int, cuts: seq<nat>) {
    && IsCut(cuts, |times|)
    && forall k :: 0 < k < |times| ==> (k in cuts <==> times[k] - times[k - 1] > gap)
  }

  ghost function RunSession(times: seq<int>, cuts: seq<nat>, i: nat): Session
    requires IsCut(cuts, |times|) && i < |cuts| - 1
  {
    Session(times[cuts[i]], times[cuts[i + 1] - 1])
  }

  /** The sessions a cut stands for: first and last handshake of each run. */
  ghost predicate SessionsOf(times: seq<int>, cuts: seq<nat>, sessions: seq<Session>)
    requires IsCut(cuts, |times|)
  {
    && |sessions| == |cuts| - 1
    && forall i :: 0 <= i < |sessions| ==> sessions[i] == RunSession(times, cuts, i)
  }

  /** The gaps that do not exceed the threshold, summed. */
  function SmallGaps(times: seq<int>, gap: int): int {
    if |times| < 2 then 0
    else
      var d := times[|times| - 1] - times[|times| - 2];
      SmallGaps(times[..|times| - 1], gap) + if d <= gap then d else 0
  }

  function TotalDuration(sessions: seq<Session>): int {
    if sessions == [] then 0
    else TotalDuration(sessions[..|sessions| - 1]) + sessions[|sessions| - 1].end - sessions[|sessions| - 1].start
  }

  /** The sessions of a history: the last handshake extends the last session or opens a new one. */
  function Sessions(times: seq<int>, gap: int): (r: seq<Session>)
    ensures r == [] <==> times == []
    ensures times != [] ==> r[|r| - 1].end == times[|times| - 1]
  {
    if times == [] then []
    else
      var before, t := Sessions(times[..|times| - 1], gap), times[|times| - 1];
      if before == [] || t - times[|times| - 2] > gap then before + [Session(t, t)]
      else before[|before| - 1 := before[|before| - 1].(end := t)]
  }

  predicate Increasing(s: seq<nat>, n: nat) {
    Rising(s) && forall i :: 0 <= i < |s| ==> s[i] < n
  }

  predicate GapBefore(times: seq<int>, gap: int, k: int)
    requires 0 <= k < |times|
  {
    k == 0 || times[k] - times[k - 1] > gap
  }

  /** Where the runs start. */
  function Starts(times: seq<int>, gap: int): seq<nat> {
    if times == [] then []
    else
      var n := |times| - 1;
      if GapBefore(times, gap, n) then Starts(times[..n], gap) + [n] else Starts(times[..n], gap)
  }

  /** The last index of run i, whose successor starts the next run or ends the history. */
  function RunEnd(s: seq<nat>, n: nat, i: nat): (e: nat)
    requires Increasing(s, n) && i < |s|
    ensures s[i] <= e < n
  {
    if i + 1 < |s| then
      assert s[i] < s[i + 1];
      s[i + 1] - 1
    else
      assert s[i] < n;
      n - 1
  }

  /** Session i of the matching. */
  ghost function RunAt(times: seq<int>, s: seq<nat>, i: nat): Session
    requires Increasing(s, |times|) && i < |s|
  {
    Session(times[s[i]], times[RunEnd(s, |times|, i)])
  }

  ghost predicate Matches(times: seq<int>, s: seq<nat>, r: seq<Session>)
    requires Increasing(s, |times|)
  {
    |r| == |s| && forall i :: 0 <= i < |s| ==> r[i] == RunAt(times, s, i)
  }

  ghost predicate StartsAreGaps(times: seq<int>, gap: int, s: seq<nat>) {
    && Increasing(s, |times|) && (times != [] <==> s != [])
    && forall k :: 0 <= k < |times| ==> (k in s <==> GapBefore(times, gap, k))
  }

  lemma StartsOneMore(times: seq<int>, gap: int, s: seq<nat>)
    requires times != [] && StartsAreGaps(times[..|times| - 1], gap, s)
    ensures var n := |times| - 1; StartsAreGaps(times, gap, if GapBefore(times, gap, n) then s + [n] else s)
  {
    var n := |times| - 1;
    var more := if GapBefore(times, gap, n) then s + [n] else s;
    forall k | 0 <= k < |times| ensures k in more <==> GapBefore(times, gap, k) {
      if k < n { assert GapBefore(times[..n], gap, k) <==> GapBefore(times, gap, k); }
    }
  }

  lemma {:induction false} StartsMeaning(times: seq<int>, gap: int)
    ensures StartsAreGaps(times, gap, Starts(times, gap))
    decreases |times|
  {
    if times != [] {
      StartsMeaning(times[..|times| - 1], gap);
      StartsOneMore(times, gap, Starts(times[..|times| - 1], gap));
    }
  }

  lemma OpensRun(times: seq<int>, s: seq<nat>, r: seq<Session>)
    requires times != [] && Increasing(s, |times| - 1) && Matches(times[..|times| - 1], s, r)
    ensures var n := |times| - 1; Matches(times, s + [n], r + [Session(times[n], times[n])])
  {
    var n := |times| - 1;
    var s', r' := s + [n], r + [Session(times[n], times[n])];
    forall i | 0 <= i < |s'| ensures r'[i] == RunAt(times, s', i) {
      if i < |s| { assert r[i] == RunAt(times[..n], s, i) && RunEnd(s', n + 1, i) == RunEnd(s, n, i); }
    }
  }

  lemma ExtendsRun(times: seq<int>, s: seq<nat>, r: seq<Session>)
    requires times != [] && Increasing(s, |times| - 1) && Matches(times[..|times| - 1], s, r) && r != []
    ensures Matches(times, s, r[|r| - 1 := r[|r| - 1].(end := times[|times| - 1])])
  {
    var n := |times| - 1;
    var r' := r[|r| - 1 := r[|r| - 1].(end := times[n])];
    forall i | 0 <= i < |s| ensures r'[i] == RunAt(times, s, i) {
      assert r[i] == RunAt(times[..n], s, i);
      if i < |s| - 1 { assert RunEnd(s, n + 1, i) == RunEnd(s, n, i); }
    }
  }

  lemma {:induction false} SessionsMatchStarts(times: seq<int>, gap: int)
    ensures Increasing(Starts(times, gap), |times|) && Matches(times, Starts(times, gap), Sessions(times, gap))
    decreases |times|
  {
    StartsMeaning(times, gap);
    if times != [] {
      var init := times[..|times| - 1];
      SessionsMatchStarts(init, gap);
      if GapBefore(times, gap, |init|) {
        OpensRun(times, Starts(init, gap), Sessions(init, gap));
      } else {
        ExtendsRun(times, Starts(init, gap), Sessions(init, gap));
      }
    }
  }

  lemma StartsSplit(times: seq<int>, gap: int, s: seq<nat>, r: seq<Session>)
    requires StartsAreGaps(times, gap, s) && Matches(times, s, r)
    ensures IsSplit(times, gap, s + [|times|]) && SessionsOf(times, s + [|times|], r)
  {
    var cuts := s + [|times|];
    if times != [] {
      assert 0 in s by { assert GapBefore(times, gap, 0); }
      var i :| 0 <= i < |s| && s[i] == 0;
      assert s[0] <= s[i];
    }
    assert IsCut(cuts, |times|);
    forall k | 0 < k < |times| ensures k in cuts <==> times[k] - times[k - 1] > gap { assert k in cuts <==> k in s; }
    forall i | 0 <= i < |r| ensures r[i] == RunSession(times, cuts, i) {
      assert RunEnd(s, |times|, i) == cuts[i + 1] - 1;
    }
  }

  /** Sessions computes the split: maximal runs, each reported by its first and last handshake. */
  lemma SessionsAreTheSplit(times: seq<int>, gap: int)
    ensures var cuts := Starts(times, gap) + [|times|];
            IsSplit(times, gap, cuts) && SessionsOf(times, cuts, Sessions(times, gap))
  {
    StartsMeaning(times, gap);
    SessionsMatchStarts(times, gap);
    StartsSplit(times, gap, Starts(times, gap), Sessions(times, gap));
  }

  lemma TotalOneMore(r: seq<Session>, s: Session)
    ensures TotalDuration(r + [s]) == TotalDuration(r) + s.end - s.start
  {
    assert (r + [s])[..|r|] == r;
  }

  lemma TotalExtends(r: seq<Session>, t: int)
    requires r != []
    ensures TotalDuration(r[|r| - 1 := r[|r| - 1].(end := t)]) == TotalDuration(r) + t - r[|r| - 1].end
  {
    var init, s := r[..|r| - 1], r[|r| - 1];
    assert r == init + [s] && r[|r| - 1 := s.(end := t)] == init + [s.(end := t)];
    TotalOneMore(init, s);
    TotalOneMore(init, s.(end := t));
  }

  lemma TotalGrows(times: seq<int>, gap: int)
    requires times != []
    ensures var n := |times| - 1;
            TotalDuration(Sessions(times, gap)) == TotalDuration(Sessions(times[..n], gap))
                                                   + if GapBefore(times, gap, n) then 0 else times[n] - times[n - 1]
  {
    var before, t := times[..|times| - 1], times[|times| - 1];
    var r := Sessions(before, gap);
    if GapBefore(times, gap, |before|) { TotalOneMore(r, Session(t, t)); } else { TotalExtends(r, t); }
  }

  lemma SmallGapsGrow(times: seq<int>, gap: int)
    requires times != []
    ensures var n := |times| - 1;
            SmallGaps(times, gap) == SmallGaps(times[..n], gap)
                                     + if GapBefore(times, gap, n) then 0 else times[n] - times[n - 1]
  {
  }

  /** Connected time is the sum of the gaps that do not exceed the threshold. */
  lemma {:induction false} ConnectedIsSmallGaps(times: seq<int>, gap: int)
    ensures TotalDuration(Sessions(times, gap)) == SmallGaps(times, gap)
    decreases |times|
  {
    if times != [] {
      TotalGrows(times, gap);
      SmallGapsGrow(times, gap);
      ConnectedIsSmallGaps(times[..|times| - 1], gap);
    }
  }

  lemma CutMember(cuts: seq<nat>, n: nat, k: nat)
    requires IsCut(cuts, n) && k in cuts
    ensures k == 0 || k == n || 0 < k < n
  {
    var i :| 0 <= i < |cuts| && cuts[i] == k;
    assert i == 0 || cuts[0] < cuts[i];
    assert i == |cuts| - 1 || cuts[i] < cuts[|cuts| - 1];
  }

  lemma SplitMember(times: seq<int>, gap: int, cuts: seq<nat>, k: int)
    requires IsSplit(times, gap, cuts)
    ensures k in cuts <==> k == 0 || k == |times| || (0 < k < |times| && times[k] - times[k - 1] > gap)
  {
    assert cuts[0] in cuts && cuts[|cuts| - 1] in cuts;
    if k in cuts { CutMember(cuts, |times|, k); }
  }

  lemma GreatestAgree(a: seq<nat>, b: seq<nat>)
    requires Rising(a) && Rising(b) && a != [] && forall k :: k in a <==> k in b
    ensures b != [] && a[|a| - 1] == b[|b| - 1]
  {
    var x := a[|a| - 1];
    assert x in a && x in b;
    var y := b[|b| - 1];
    assert y in b && y in a;
    var i :| 0 <= i < |a| && a[i] == y;
    var j :| 0 <= j < |b| && b[j] == x;
    assert y <= x && x <= y;
  }

  lemma GreatestIsLast(a: seq<nat>)
    requires Rising(a) && a != []
    ensures Rising(a[..|a| - 1])
    ensures forall k :: k in a[..|a| - 1] <==> k in a && k != a[|a| - 1]
  {
    var init, x := a[..|a| - 1], a[|a| - 1];
    assert a == init + [x];
    assert x !in init;
  }

  lemma {:induction false} RisingAgree(a: seq<nat>, b: seq<nat>)
    requires Rising(a) && Rising(b) && forall k :: k in a <==> k in b
    ensures a == b
    decreases |a|
  {
    if b != [] { GreatestAgree(b, a); }
    if a != [] {
      GreatestAgree(a, b);
      GreatestIsLast(a);
      GreatestIsLast(b);
      var a', b' := a[..|a| - 1], b[..|b| - 1];
      forall k ensures k in a' <==> k in b' { assert k in a <==> k in b; }
      RisingAgree(a', b');
      assert a == a' + [a[|a| - 1]] && b == b' + [b[|b| - 1]];
    }
  }

  /** There is only one such split. */
  lemma SplitIsUnique(times: seq<int>, gap: int, a: seq<nat>, b: seq<nat>)
    requires IsSplit(times, gap, a) && IsSplit(times, gap, b)
    ensures a == b
  {
    forall k ensures k in a <==> k in b {
      SplitMember(times, gap, a, k);
      SplitMember(times, gap, b, k);
    }
    RisingAgree(a, b);
  }

  ghost predicate InRun(cuts: seq<nat>, i: int, k: nat) { 0 <= i < |cuts| - 1 && cuts[i] <= k < cuts[i + 1] }

  lemma RunsDisjoint(cuts: seq<nat>, n: nat, i: int, j: int, k: nat)
    requires IsCut(cuts, n) && InRun(cuts, i, k) && InRun(cuts, j, k)
    ensures i == j
  {
    assert forall a, b :: 0 <= a <= b < |cuts| ==> cuts[a] <= cuts[b];
  }

  /** Every handshake lies in exactly one run. */
  lemma EveryHandshakeInOneRun(times: seq<int>, gap: int, cuts: seq<nat>, k: nat)
    requires IsSplit(times, gap, cuts) && k < |times|
    ensures exists i :: InRun(cuts, i, k)
    ensures forall i, j :: InRun(cuts, i, k) && InRun(cuts, j, k) ==> i == j
  {
    var i := 0;
    while cuts[i + 1] <= k
      invariant 0 <= i < |cuts| - 1 && cuts[i] <= k
      decreases |cuts| - i
    {
      i := i + 1;
    }
    assert InRun(cuts, i, k);
    forall i, j | InRun(cuts, i, k) && InRun(cuts, j, k) ensures i == j { RunsDisjoint(cuts, |times|, i, j, k); }
  }

  /** Connected time never exceeds the whole span. */
  lemma {:induction false} SmallGapsWithinSpan(times: seq<int>, gap: int)
    requires times != [] && forall i, j :: 0 <= i < j < |times| ==> times[i] <= times[j]
    ensures 0 <= SmallGaps(times, gap) <= times[|times| - 1] - times[0]
    decreases |times|
  {
    if |times| > 1 { SmallGapsWithinSpan(times[..|times| - 1], gap); }
  }

  method AddDurations(sessions: seq<Session>) returns (total: int)
    ensures total == TotalDuration(sessions)
  {
    total := 0;
    for i := 0 to |sessions|
      invariant total == TotalDuration(sessions[..i])
    {
      assert sessions[..i + 1][..i] == sessions[..i];
      total := total + (sessions[i].end - sessions[i].start);
    }
    assert sessions[..|sessions|] == sessions;
  }

  /** Derive: the sessions of the split, and what follows from them. */
  method Derive(handshakes: seq<int>, now: int, gapThreshold: int, onlineThreshold: int) returns (sum: Summary)
    ensures sum.sessions == Sessions(handshakes, gapThreshold) && sum.sessionCount == |sum.sessions|
    ensures sum.connectedTime == SmallGaps(handshakes, gapThreshold)
    ensures sum.lastSeen == if handshakes == [] then None else Some(handshakes[|handshakes| - 1])
    ensures sum.online <==> handshakes != [] && now - handshakes[|handshakes| - 1] <= onlineThreshold
  {
    if |handshakes| == 0 {
      return Summary([], 0, 0, false, None);
    }
    var sessions: seq<Session> := [];
    var start, prev := handshakes[0], handshakes[0];
    for i := 1 to |handshakes|
      invariant prev == handshakes[i - 1]
      invariant sessions + [Session(start, prev)] == Sessions(handshakes[..i], gapThreshold)
    {
      var ts := handshakes[i];
      assert handshakes[..i + 1][..i] == handshakes[..i];
      if ts - prev > gapThreshold {
        sessions := sessions + [Session(start, prev)];
        start := ts;
      }
      prev := ts;
    }
    assert handshakes[..|handshakes|] == handshakes;
    sessions := sessions + [Session(start, prev)];
    ConnectedIsSmallGaps(handshakes, gapThreshold);
    var connected := AddDurations(sessions);
    var last := handshakes[|handshakes| - 1];
    sum := Summary(sessions, |sessions|, connected, now - last <= onlineThreshold, Some(last));
  }
}
