/** Boot after a hard load error: what becomes of an empty table, whatever the poller does meanwhile. */
module BootHardError {
  import opened Wrappers
  import opened Alloc
  import opened Types
  import opened Validate
  import opened ClientTable
  import opened PeerService
  import opened BootMachine
  import BO = BootOutcome
  import BL = BootLatch

  /** The row of an entry: enabled, without a note and stamped `now`. */
  predicate SeededRow(e: Entry, now: int, r: Client) {
    r == Client(r.id, e.name, e.publicKey, e.address, true, None, now, now)
  }

  /** The table holds these entries' rows and nothing else. */
  ghost predicate Seeded(rows: Rows, es: seq<Entry>, now: int) {
    rows.Keys == Keys(es) && forall e :: e in es ==> SeededRow(e, now, rows[e.publicKey])
  }

  /** How many entries of the manifest an empty table takes: all of them, or those before the first
      that repeats a name, key or address or whose statement fails. */
  ghost predicate StopsAfter(seed: seq<Entry>, fault: Option<nat>, n: nat) {
    && n <= |seed| && DistinctEntries(seed[..n]) && (fault.Some? ==> n <= fault.value)
    && (n < |seed| ==> fault == Some(n) || !DistinctEntries(seed[..n + 1]))
  }

  lemma {:induction false} SeedStopsAt(t: Table, seed: seq<Entry>, now: int, fault: Option<nat>) returns (n: nat)
    ensures n <= |seed| && (SeedFrom(t, seed, now, fault).1 <==> n == |seed|)
    ensures SeedFrom(t, seed, now, fault).0 == SeedFrom(t, seed[..n], now, None).0
    ensures SeedFrom(t, seed[..n], now, None).1
    ensures fault.Some? ==> n <= fault.value
    ensures n < |seed| ==> fault == Some(n) || !SeedFrom(t, seed[..n + 1], now, None).1
    decreases |seed|
  {
    n := 0;
    if seed != [] && fault != Some(0) {
      var next := InsertRow(t, SeedRow(seed[0], now));
      if next.Some? {
        var m := SeedStopsAt(next.value, seed[1..], now, if fault.Some? then Some(fault.value - 1) else None);
        n := m + 1;
        assert seed[..n][0] == seed[0] && seed[..n][1..] == seed[1..][..m];
        assert SeedFrom(t, seed[..n], now, None) == SeedFrom(next.value, seed[1..][..m], now, None);
        if n < |seed| {
          assert seed[..n + 1][0] == seed[0] && seed[..n + 1][1..] == seed[1..][..m + 1];
          assert SeedFrom(t, seed[..n + 1], now, None) == SeedFrom(next.value, seed[1..][..m + 1], now, None);
        }
      }
    }
  }

  lemma {:induction false} SeedLeaves(t: Table, seed: seq<Entry>, now: int)
    requires SeedFrom(t, seed, now, None).1
    ensures var rows := SeedFrom(t, seed, now, None).0.rows;
            && rows.Keys == t.rows.Keys + Keys(seed)
            && (forall k :: k in t.rows ==> rows[k] == t.rows[k])
            && forall e :: e in seed ==> SeededRow(e, now, rows[e.publicKey])
    decreases |seed|
  {
    if seed != [] {
      var head, rest := seed[0], seed[1..];
      var next := InsertRow(t, SeedRow(head, now)).value;
      var rows := SeedFrom(next, rest, now, None).0.rows;
      SeedLeaves(next, rest, now);
      assert rows == SeedFrom(t, seed, now, None).0.rows;
      assert SeededRow(head, now, rows[head.publicKey]);
      assert forall e :: e in seed <==> e == head || e in rest;
      assert Keys(seed) == {head.publicKey} + Keys(rest);
    }
  }

  /** Seeding an empty table takes exactly the entries that StopsAfter says. */
  lemma SeedTakes(t: Table, seed: seq<Entry>, now: int, fault: Option<nat>) returns (n: nat)
    requires ValidTable(t) && t.rows == map[]
    ensures var (r, ok) := SeedFrom(t, seed, now, fault);
            StopsAfter(seed, fault, n) && Seeded(r.rows, seed[..n], now) && (ok <==> n == |seed|)
  {
    n := SeedStopsAt(t, seed, now, fault);
    SeedLeaves(t, seed[..n], now);
    assert forall e :: BL.FreeIn(t.rows, e);
    BL.SeedSucceedsIff(t, seed[..n], now, None);
    if n < |seed| { BL.SeedSucceedsIff(t, seed[..n + 1], now, None); }
  }

  /** The worlds that boot's own steps meet, in order; the first is the one of its Load. */
  function BootWorlds(actions: seq<Action>): seq<World> {
    if actions == [] then []
    else if actions[0].Boot? then [actions[0].w] + BootWorlds(actions[1..])
    else BootWorlds(actions[1..])
  }

  ghost predicate NothingSaved(trace: seq<Event>) { forall e :: e in trace ==> !e.DidSave? }

  /** All applies of a trace ended like this, and there was one. */
  ghost predicate AppliesEnd(trace: seq<Event>, ok: bool) {
    (exists e :: e in trace && e.DidApply?) && forall e :: e in trace && e.DidApply? ==> e.ok == ok
  }

  ghost predicate NothingApplied(trace: seq<Event>) { forall e :: e in trace ==> !e.DidApply? }

  /** The apply that ends it: nothing reaches the interface if the rows cannot be listed. */
  ghost predicate AppliedIn(live: string, s: State, w: World) {
    if ApplyList in w.faults then s.live == live && NothingApplied(s.trace)
    else
      && AppliesEnd(s.trace, w.apply.Applied?)
      && s.live == if w.apply.Applied? then Render(s.table.rows) else w.apply.liveAfter
  }

  /** Nothing was applied, and the table and the interface are as they were. */
  ghost predicate LeftAlone(before: State, s: State) {
    s.table == before.table && s.live == before.live && NothingApplied(s.trace)
  }

  /** What such a boot leaves of the table and the interface it found, by the worlds of its count, seed
      and apply. */
  ghost predicate Ends(before: State, seed: seq<Entry>, ws: seq<World>, s: State) {
    && |ws| >= 3
    && if CountRows in ws[2].faults then LeftAlone(before, s)
       else
         && |ws| >= 4
         && if SeedCount in ws[3].faults then LeftAlone(before, s)
            else exists n: nat :: && StopsAfter(seed, ws[3].seedFault, n) && Seeded(s.table.rows, seed[..n], ws[3].now)
                             && if n < |seed| then s.live == before.live && NothingApplied(s.trace)
                                else |ws| >= 5 && AppliedIn(before.live, s, ws[4])
  }

  /** Where such a boot can be once it has taken k of its steps. */
  ghost predicate Erring(before: State, seed: seq<Entry>, ws: seq<World>, k: nat, m: Machine) {
    && m.s.backend == before.backend && before.backend.S3? && NothingSaved(m.s.trace) && ValidTable(m.s.table)
    && before.table.rows == map[]
    && match m.pc
       case HardPending => k == 1 && LeftAlone(before, m.s)
       case HardCount => k == 2 && LeftAlone(before, m.s)
       case HardSeed => k == 3 <= |ws| && CountRows !in ws[2].faults && LeftAlone(before, m.s)
       case HardReconcile =>
         && k == 4 <= |ws| && CountRows !in ws[2].faults && SeedCount !in ws[3].faults
         && StopsAfter(seed, ws[3].seedFault, |seed|) && Seeded(m.s.table.rows, seed, ws[3].now)
         && m.s.live == before.live && NothingApplied(m.s.trace)
       case Booted(ok) => !ok && Ends(before, seed, ws, m.s)
       case _ => false
  }

  lemma SeedStepErrs(sn: ServerNet, before: State, seed: seq<Entry>, ws: seq<World>, k: nat, m: Machine)
    requires sn.Valid() && Erring(before, seed, ws, k, m) && m.pc == HardSeed && k < |ws|
    ensures Erring(before, seed, ws, k + 1, BootStep(sn, seed, m, ws[k]))
  {
    var w := ws[3];
    if SeedCount !in w.faults {
      var n := SeedTakes(m.s.table, seed, w.now, w.seedFault);
      SeedKeepsValid(m.s.table, seed, w.now, w.seedFault);
      assert seed[..|seed|] == seed;
    }
  }

  lemma ApplyEnds(s: State, w: World)
    requires NothingApplied(s.trace)
    ensures AppliedIn(s.live, Reconcile(s, w).0, w)
  {
    var t := Reconcile(s, w).0;
    if ApplyList !in w.faults {
      assert t.trace[|s.trace|].DidApply? && t.trace[|s.trace|] in t.trace;
      assert forall e :: e in t.trace ==> e in s.trace || e == t.trace[|s.trace|];
    }
  }

  lemma ReconcileStepErrs(sn: ServerNet, before: State, seed: seq<Entry>, ws: seq<World>, k: nat, m: Machine)
    requires sn.Valid() && Erring(before, seed, ws, k, m) && m.pc == HardReconcile && k < |ws|
    ensures Erring(before, seed, ws, k + 1, BootStep(sn, seed, m, ws[k]))
  {
    var t := BootStep(sn, seed, m, ws[4]).s;
    assert seed[..|seed|] == seed;
    ApplyEnds(m.s, ws[4]);
    assert StopsAfter(seed, ws[3].seedFault, |seed|) && Seeded(t.table.rows, seed[..|seed|], ws[3].now);
  }

  lemma BootStepErrs(sn: ServerNet, before: State, seed: seq<Entry>, ws: seq<World>, k: nat, m: Machine)
    requires sn.Valid() && Erring(before, seed, ws, k, m) && k < |ws|
    ensures Erring(before, seed, ws, k + 1, BootStep(sn, seed, m, ws[k]))
  {
    match m.pc
    case HardPending =>
    case HardCount =>
    case HardSeed => SeedStepErrs(sn, before, seed, ws, k, m);
    case HardReconcile => ReconcileStepErrs(sn, before, seed, ws, k, m);
    case Booted(_) =>
  }

  /** Two states that nobody but the store can tell apart. */
  ghost predicate Alike(s: State, t: State) {
    && t.table == s.table && t.live == s.live && t.backend == s.backend
    && (NothingSaved(t.trace) <==> NothingSaved(s.trace)) && (NothingApplied(t.trace) <==> NothingApplied(s.trace))
    && forall ok :: AppliesEnd(t.trace, ok) <==> AppliesEnd(s.trace, ok)
  }

  lemma RecheckIsQuiet(s: State, w: World)
    ensures Alike(s, RecheckStore(s, w).0)
  {
    var t := RecheckStore(s, w).0;
    if t.trace != s.trace {
      assert t.trace == s.trace + [DidLoad(w.load)];
      assert forall e :: e in t.trace <==> e in s.trace || e == DidLoad(w.load);
    }
  }

  lemma AlikeErr(before: State, seed: seq<Entry>, ws: seq<World>, k: nat, m: Machine, t: State)
    requires Erring(before, seed, ws, k, m) && Alike(m.s, t)
    ensures Erring(before, seed, ws, k, m.(s := t))
  {
  }

  lemma PollErrs(before: State, seed: seq<Entry>, ws: seq<World>, k: nat, m: Machine, w: World)
    requires Erring(before, seed, ws, k, m)
    ensures Erring(before, seed, ws, k, m.(s := RecheckStore(m.s, w).0))
  {
    RecheckIsQuiet(m.s, w);
    AlikeErr(before, seed, ws, k, m, RecheckStore(m.s, w).0);
  }

  lemma {:induction false} RunErrs(sn: ServerNet, before: State, seed: seq<Entry>, ws: seq<World>, k: nat, m: Machine,
                                   actions: seq<Action>)
    requires sn.Valid() && Erring(before, seed, ws, k, m) && BO.NoServe(actions)
    requires k <= |ws| && ws[k..] == BootWorlds(actions)
    ensures Erring(before, seed, ws, |ws|, Run(sn, seed, m, actions))
    decreases |actions|
  {
    if actions != [] {
      var act := actions[0];
      assert act in actions;
      if act.Boot? {
        assert ws[k..][0] == act.w && ws[k..][1..] == ws[k + 1..];
        BootStepErrs(sn, before, seed, ws, k, m);
        RunErrs(sn, before, seed, ws, k + 1, BootStep(sn, seed, m, act.w), actions[1..]);
      } else {
        PollErrs(before, seed, ws, k, m, act.w);
        RunErrs(sn, before, seed, ws, k, m.(s := RecheckStore(m.s, act.w).0), actions[1..]);
      }
    }
  }

  /** Boot on an empty table after a hard load error, in every interleaving with the poller: it returns
      an error, never writes the store, fills the table from the manifest as far as that goes, and
      applies it if it went all the way. Each part happens exactly when its own calls allow it. */
  lemma {:induction false} HardErrorSeedsEmptyTable(sn: ServerNet, seed: seq<Entry>, m: Machine, actions: seq<Action>)
    requires sn.Valid() && Fresh(m) && m.s.table.rows == map[] && BO.NoServe(actions)
    requires BO.FirstLoad(actions) == Some(LoadFailed) && Run(sn, seed, m, actions).pc.Booted?
    ensures var end := Run(sn, seed, m, actions);
            && end.pc == Booted(false) && end.s.backend == m.s.backend && NothingSaved(end.s.trace)
            && Ends(m.s, seed, BootWorlds(actions), end.s)
    decreases |actions|
  {
    var act := actions[0];
    assert act in actions;
    var next := Next(sn, seed, m, act);
    if act.Boot? {
      var ws := BootWorlds(actions);
      assert ws[1..] == BootWorlds(actions[1..]);
      RunErrs(sn, m.s, seed, ws, 1, next, actions[1..]);
    } else {
      HardErrorSeedsEmptyTable(sn, seed, next, actions[1..]);
    }
  }

  /** What such a boot needs to reach the interface. */
  ghost predicate GoesLive(seed: seq<Entry>, ws: seq<World>) {
    && |ws| >= 5 && CountRows !in ws[2].faults && SeedCount !in ws[3].faults
    && (ws[3].seedFault.None? || ws[3].seedFault.value >= |seed|) && DistinctEntries(seed)
    && ApplyList !in ws[4].faults && ws[4].apply.Applied?
  }

  lemma NothingEnds(trace: seq<Event>)
    requires NothingApplied(trace)
    ensures !AppliesEnd(trace, true)
  {
  }

  lemma StopsAtEndIff(seed: seq<Entry>, fault: Option<nat>, n: nat)
    requires StopsAfter(seed, fault, n)
    ensures n == |seed| <==> (fault.None? || fault.value >= |seed|) && DistinctEntries(seed)
  {
    assert seed[..|seed|] == seed;
    if n < |seed| && DistinctEntries(seed) { assert DistinctEntries(seed[..n + 1]); }
  }

  lemma AppliedEnds(live: string, s: State, w: World)
    requires AppliedIn(live, s, w)
    ensures AppliesEnd(s.trace, true) <==> ApplyList !in w.faults && w.apply.Applied?
    ensures AppliesEnd(s.trace, true) ==> s.live == Render(s.table.rows)
  {
    if ApplyList in w.faults { NothingEnds(s.trace); }
  }

  lemma EndsLiveIff(before: State, seed: seq<Entry>, ws: seq<World>, s: State)
    requires Ends(before, seed, ws, s)
    ensures AppliesEnd(s.trace, true) <==> GoesLive(seed, ws)
    ensures GoesLive(seed, ws) ==> Seeded(s.table.rows, seed, ws[3].now) && s.live == Render(s.table.rows)
  {
    if CountRows in ws[2].faults || SeedCount in ws[3].faults {
      NothingEnds(s.trace);
    } else {
      var n: nat :| && StopsAfter(seed, ws[3].seedFault, n) && Seeded(s.table.rows, seed[..n], ws[3].now)
                    && if n < |seed| then s.live == before.live && NothingApplied(s.trace)
                       else |ws| >= 5 && AppliedIn(before.live, s, ws[4]);
      StopsAtEndIff(seed, ws[3].seedFault, n);
      if n < |seed| {
        NothingEnds(s.trace);
      } else {
        assert seed[..n] == seed;
        AppliedEnds(before.live, s, ws[4]);
      }
    }
  }

  /** The manifest goes live exactly when every call on the way answers and the manifest repeats nothing;
      the table then holds exactly the manifest and the interface shows exactly the table. */
  lemma HardErrorGoesLiveIff(sn: ServerNet, seed: seq<Entry>, m: Machine, actions: seq<Action>)
    requires sn.Valid() && Fresh(m) && m.s.table.rows == map[] && BO.NoServe(actions)
    requires BO.FirstLoad(actions) == Some(LoadFailed) && Run(sn, seed, m, actions).pc.Booted?
    ensures var end, ws := Run(sn, seed, m, actions), BootWorlds(actions);
            && (AppliesEnd(end.s.trace, true) <==> GoesLive(seed, ws))
            && (GoesLive(seed, ws) ==>
                  Seeded(end.s.table.rows, seed, ws[3].now) && end.s.live == Render(end.s.table.rows))
  {
    HardErrorSeedsEmptyTable(sn, seed, m, actions);
    EndsLiveIff(m.s, seed, BootWorlds(actions), Run(sn, seed, m, actions).s);
  }
}
