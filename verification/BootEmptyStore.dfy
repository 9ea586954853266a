/** Boot with nothing in the store: what every such boot leaves, the failing ones included. */
module BootEmptyStore {
  import opened Wrappers
  import opened Alloc
  import opened Types
  import opened Validate
  import opened ClientTable
  import opened PeerService
  import opened BootMachine
  import opened BootHardError
  import opened BootHeals
  import BO = BootOutcome

  /** A Save of these entries ended like this: their canonical form, or whatever a failure leaves. */
  ghost predicate SavedInto(s: State, es: seq<Entry>, w: World) {
    s.backend == S3(if w.save.Saved? then Some(Canonical(es)) else w.save.objectAfter)
  }

  /** Boot left everything as it found it, the store included. */
  ghost predicate Untouched(before: State, s: State) { LeftAlone(before, s) && s.backend == before.backend }

  /** What the healing of the store from a table with rows leaves, by the worlds of its listing and save. */
  ghost predicate HealEnds(before: State, ws: seq<World>, s: State, ok: bool) {
    && |ws| >= 3 && LeftAlone(before, s)
    && if HealList in ws[2].faults then !ok && s.backend == before.backend
       else |ws| >= 4 && ok == ws[3].save.Saved? && SavedInto(s, Projection(before.table.rows), ws[3])
  }

  /** What the cold seed of store and table leaves, by the worlds of its save, seed and apply. */
  ghost predicate ColdEnds(before: State, seed: seq<Entry>, ws: seq<World>, s: State, ok: bool) {
    && |ws| >= 3 && SavedInto(s, seed, ws[2])
    && if ws[2].save.SaveFailed? then !ok && LeftAlone(before, s)
       else
         && |ws| >= 4
         && if SeedCount in ws[3].faults then !ok && LeftAlone(before, s)
            else exists n: nat :: && StopsAfter(seed, ws[3].seedFault, n)
                                  && Seeded(s.table.rows, seed[..n], ws[3].now)
                                  && if n < |seed| then !ok && s.live == before.live && NothingApplied(s.trace)
                                     else ReachesApply(before, ws, s, ok)
  }

  ghost predicate ReachesApply(before: State, ws: seq<World>, s: State, ok: bool) {
    && |ws| >= 5 && AppliedIn(before.live, s, ws[4])
    && ok == (ApplyList !in ws[4].faults && ws[4].apply.Applied?)
  }

  ghost predicate EmptyEnds(before: State, seed: seq<Entry>, ws: seq<World>, s: State, ok: bool) {
    && |ws| >= 2
    && if CountRows in ws[1].faults then !ok && Untouched(before, s)
       else if before.table.rows != map[] then HealEnds(before, ws, s, ok)
       else ColdEnds(before, seed, ws, s, ok)
  }

  /** Where such a boot can be once it has taken k of its steps. */
  ghost predicate Filling(before: State, seed: seq<Entry>, ws: seq<World>, k: nat, m: Machine) {
    && m.s.backend.S3? && ValidTable(m.s.table)
    && match m.pc
       case EmptyCount => k == 1 && m.s.ready && Untouched(before, m.s)
       case HealListing =>
         && k == 2 <= |ws| && m.s.ready && CountRows !in ws[1].faults && before.table.rows != map[]
         && Untouched(before, m.s)
       case HealSave(es) =>
         && k == 3 <= |ws| && m.s.ready && CountRows !in ws[1].faults && before.table.rows != map[]
         && Untouched(before, m.s) && HealList !in ws[2].faults && es == Projection(before.table.rows)
       case SeedSave =>
         && k == 2 <= |ws| && m.s.ready && CountRows !in ws[1].faults && before.table.rows == map[]
         && Untouched(before, m.s)
       case SeedDb =>
         && k == 3 <= |ws| && m.s.ready && CountRows !in ws[1].faults && before.table.rows == map[]
         && LeftAlone(before, m.s) && ws[2].save.Saved? && SavedInto(m.s, seed, ws[2])
       case SeedReconcile =>
         && k == 4 <= |ws| && m.s.ready && CountRows !in ws[1].faults && before.table.rows == map[]
         && ws[2].save.Saved? && SavedInto(m.s, seed, ws[2]) && SeedCount !in ws[3].faults
         && StopsAfter(seed, ws[3].seedFault, |seed|) && Seeded(m.s.table.rows, seed, ws[3].now)
         && m.s.live == before.live && NothingApplied(m.s.trace)
       case Latch(ok) => m.s.ready && EmptyEnds(before, seed, ws, m.s, ok)
       case Booted(ok) => EmptyEnds(before, seed, ws, m.s, ok)
       case _ => false
  }

  lemma SaveLeavesAlone(before: State, s: State, es: seq<Entry>, w: World)
    requires LeftAlone(before, s) && s.backend.S3?
    ensures var t := DoSave(s, es, w).0; LeftAlone(before, t) && SavedInto(t, es, w) && t.ready == s.ready
  {
    var t := DoSave(s, es, w).0;
    assert forall e :: e in t.trace <==> e in s.trace || e == DidSave(es, w.save.Saved?);
  }

  lemma SaveStepFills(sn: ServerNet, before: State, seed: seq<Entry>, ws: seq<World>, k: nat, m: Machine)
    requires sn.Valid() && Filling(before, seed, ws, k, m) && (m.pc.HealSave? || m.pc.SeedSave?) && k < |ws|
    ensures Filling(before, seed, ws, k + 1, BootStep(sn, seed, m, ws[k]))
  {
    SaveLeavesAlone(before, m.s, if m.pc.HealSave? then m.pc.heal else seed, ws[k]);
  }

  lemma SeedStepFills(sn: ServerNet, before: State, seed: seq<Entry>, ws: seq<World>, k: nat, m: Machine)
    requires sn.Valid() && Filling(before, seed, ws, k, m) && m.pc.SeedDb? && k < |ws|
    ensures Filling(before, seed, ws, k + 1, BootStep(sn, seed, m, ws[k]))
  {
    var w := ws[3];
    if SeedCount !in w.faults {
      var n := SeedTakes(m.s.table, seed, w.now, w.seedFault);
      SeedKeepsValid(m.s.table, seed, w.now, w.seedFault);
      assert seed[..|seed|] == seed;
    }
  }

  lemma ApplyStepFills(sn: ServerNet, before: State, seed: seq<Entry>, ws: seq<World>, k: nat, m: Machine)
    requires sn.Valid() && Filling(before, seed, ws, k, m) && m.pc.SeedReconcile? && k < |ws|
    ensures Filling(before, seed, ws, k + 1, BootStep(sn, seed, m, ws[k]))
  {
    var next := BootStep(sn, seed, m, ws[4]);
    ApplyEnds(m.s, ws[4]);
    assert seed[..|seed|] == seed;
    assert ReachesApply(before, ws, next.s, next.pc.arm);
    assert StopsAfter(seed, ws[3].seedFault, |seed|) && Seeded(next.s.table.rows, seed[..|seed|], ws[3].now);
  }

  lemma BootStepFills(sn: ServerNet, before: State, seed: seq<Entry>, ws: seq<World>, k: nat, m: Machine)
    requires sn.Valid() && Filling(before, seed, ws, k, m) && k < |ws|
    ensures Filling(before, seed, ws, k + 1, BootStep(sn, seed, m, ws[k]))
  {
    match m.pc
    case HealSave(_) | SeedSave => SaveStepFills(sn, before, seed, ws, k, m);
    case SeedDb => SeedStepFills(sn, before, seed, ws, k, m);
    case SeedReconcile => ApplyStepFills(sn, before, seed, ws, k, m);
    case EmptyCount | HealListing | Latch(_) | Booted(_) =>
  }

  lemma AlikeFills(before: State, seed: seq<Entry>, ws: seq<World>, s: State, t: State, ok: bool)
    requires EmptyEnds(before, seed, ws, s, ok) && Alike(s, t)
    ensures EmptyEnds(before, seed, ws, t, ok)
  {
  }

  lemma PollFills(before: State, seed: seq<Entry>, ws: seq<World>, k: nat, m: Machine, w: World)
    requires Filling(before, seed, ws, k, m)
    ensures Filling(before, seed, ws, k, m.(s := RecheckStore(m.s, w).0))
  {
    if m.pc.Booted? {
      RecheckIsQuiet(m.s, w);
      AlikeFills(before, seed, ws, m.s, RecheckStore(m.s, w).0, m.pc.ok);
    }
  }

  lemma {:induction false} RunFills(sn: ServerNet, before: State, seed: seq<Entry>, ws: seq<World>, k: nat, m: Machine,
                                    actions: seq<Action>)
    requires sn.Valid() && Filling(before, seed, ws, k, m) && BO.NoServe(actions)
    requires k <= |ws| && ws[k..] == BootWorlds(actions)
    ensures Filling(before, seed, ws, |ws|, Run(sn, seed, m, actions))
    decreases |actions|
  {
    if actions != [] {
      var act := actions[0];
      assert act in actions;
      if act.Boot? {
        assert ws[k..][0] == act.w && ws[k..][1..] == ws[k + 1..];
        BootStepFills(sn, before, seed, ws, k, m);
        RunFills(sn, before, seed, ws, k + 1, BootStep(sn, seed, m, act.w), actions[1..]);
      } else {
        PollFills(before, seed, ws, k, m, act.w);
        RunFills(sn, before, seed, ws, k, m.(s := RecheckStore(m.s, act.w).0), actions[1..]);
      }
    }
  }

  /** Boot on a missing or empty store, in every interleaving with the poller and whatever fails: its
      answer, table, interface and store object are exactly those that EmptyEnds gives. */
  lemma {:induction false} EmptyStoreBootOutcome(sn: ServerNet, seed: seq<Entry>, m: Machine, actions: seq<Action>)
    requires sn.Valid() && Fresh(m) && BO.NoServe(actions) && BO.FirstLoad(actions).Some?
    requires StoreEmpty(BO.FirstLoad(actions).value) && Run(sn, seed, m, actions).pc.Booted?
    ensures var end := Run(sn, seed, m, actions); EmptyEnds(m.s, seed, BootWorlds(actions), end.s, end.pc.ok)
    decreases |actions|
  {
    var act := actions[0];
    assert act in actions;
    var next := Next(sn, seed, m, act);
    if act.Boot? {
      var ws := BootWorlds(actions);
      assert ws[1..] == BootWorlds(actions[1..]);
      RunFills(sn, m.s, seed, ws, 1, next, actions[1..]);
    } else {
      EmptyStoreBootOutcome(sn, seed, next, actions[1..]);
    }
  }
}
