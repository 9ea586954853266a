/** The other half of boot: with nothing in the store, the box's own state heals it. */
module BootHeals {
  import opened Wrappers
  import opened Alloc
  import opened Types
  import opened ClientTable
  import opened PeerService
  import opened PeerConvergence
  import opened BootMachine
  import BO = BootOutcome

  ghost predicate StoreEmpty(o: LoadOutcome) { o.Missing? || o == Loaded([]) }

  lemma SeedOneRow(t: Table, e: Entry, now: int)
    requires ValidTable(t) && InsertRow(t, SeedRow(e, now)).Some?
    ensures var r := InsertRow(t, SeedRow(e, now)).value;
            EntrySet(r.rows) == EntrySet(t.rows) + {e} && e !in EntrySet(t.rows)
  {
    var r := InsertRow(t, SeedRow(e, now)).value;
    assert ToEntry(r.rows[e.publicKey]) == e;
    forall x ensures x in EntrySet(r.rows) <==> x in EntrySet(t.rows) + {e} {
      if x in EntrySet(t.rows) {
        var k :| k in t.rows && ToEntry(t.rows[k]) == x;
        assert k in r.rows && r.rows[k] == t.rows[k];
      }
    }
  }

  /** A seed loop that gets through adds exactly the seed's entries, each once. */
  lemma {:induction false} SeedAddsEntries(t: Table, seed: seq<Entry>, now: int, fault: Option<nat>)
    requires ValidTable(t)
    ensures var (r, ok) := SeedFrom(t, seed, now, fault);
            ok ==> multiset(EntrySet(r.rows)) == multiset(EntrySet(t.rows)) + multiset(seed)
    decreases |seed|
  {
    if seed != [] && fault != Some(0) {
      var next := InsertRow(t, SeedRow(seed[0], now));
      if next.Some? {
        InsertKeepsValid(t, SeedRow(seed[0], now));
        SeedOneRow(t, seed[0], now);
        SeedAddsEntries(next.value, seed[1..], now, if fault.Some? then Some(fault.value - 1) else None);
        assert seed == [seed[0]] + seed[1..];
      }
    }
  }

  lemma SeededTableAgrees(t: Table, seed: seq<Entry>)
    requires ValidTable(t) && multiset(EntrySet(t.rows)) == multiset(seed)
    ensures Canonical(Projection(t.rows)) == Canonical(seed)
  {
    ProjectionIsEntrySet(t.rows);
    forall x, y | x in multiset(seed) && y in multiset(seed) && x.address == y.address ensures x == y {
      assert x in EntrySet(t.rows) && y in EntrySet(t.rows);
    }
    CanonicalIsNormalForm(Projection(t.rows), seed);
  }

  /** Seeding an empty table next to a store that holds the seed brings the two into agreement. */
  lemma SeedAgrees(s: State, seed: seq<Entry>, w: World)
    requires ValidTable(s.table) && s.table.rows == map[] && s.backend == S3(Some(Canonical(seed)))
    ensures var (t, e) := Seed(s, seed, w); t.backend == s.backend && (e.None? ==> Agrees(t))
  {
    var (t, e) := Seed(s, seed, w);
    if e.None? {
      SeedAddsEntries(s.table, seed, w.now, w.seedFault);
      SeedKeepsValid(s.table, seed, w.now, w.seedFault);
      assert EntrySet(s.table.rows) == {};
      SeededTableAgrees(t.table, seed);
    }
  }

  /** Where a boot that found an empty store can be, and what each point knows. */
  ghost predicate Healing(m: Machine, seed: seq<Entry>) {
    && m.s.backend.S3? && ValidTable(m.s.table)
    && match m.pc
       case EmptyCount | HealListing => true
       case HealSave(es) => es == Projection(m.s.table.rows)
       case SeedSave => m.s.table.rows == map[]
       case SeedDb => m.s.table.rows == map[] && m.s.backend == S3(Some(Canonical(seed)))
       case SeedReconcile => Agrees(m.s)
       case Latch(ok) => ok ==> Agrees(m.s)
       case Booted(ok) => ok ==> Agrees(m.s)
       case _ => false
  }

  lemma HealingStep(sn: ServerNet, seed: seq<Entry>, m: Machine, act: Action)
    requires sn.Valid() && Healing(m, seed) && Enabled(m, act) && !act.Serve?
    ensures Healing(Next(sn, seed, m, act), seed)
  {
    NextKeepsValid(sn, seed, m, act);
    if act.Boot? && m.pc.SeedDb? { SeedAgrees(m.s, seed, act.w); }
  }

  lemma {:induction false} HealingStays(sn: ServerNet, seed: seq<Entry>, m: Machine, actions: seq<Action>)
    requires sn.Valid() && Healing(m, seed) && EnabledRun(sn, seed, m, actions) && BO.NoServe(actions)
    ensures Healing(Run(sn, seed, m, actions), seed)
    decreases |actions|
  {
    if actions != [] {
      assert actions[0] in actions;
      HealingStep(sn, seed, m, actions[0]);
      HealingStays(sn, seed, Next(sn, seed, m, actions[0]), actions[1..]);
    }
  }

  /** When the store was missing or empty and boot returns nil, the store holds the canonical
      table: the table's own rows if it had any, else the seed manifest that now fills both. */
  lemma {:induction false} EmptyStoreIsHealed(sn: ServerNet, seed: seq<Entry>, m: Machine, actions: seq<Action>)
    requires sn.Valid() && Fresh(m) && EnabledRun(sn, seed, m, actions) && BO.NoServe(actions)
    requires BO.FirstLoad(actions).Some? && StoreEmpty(BO.FirstLoad(actions).value)
    requires Run(sn, seed, m, actions).pc == Booted(true)
    ensures Agrees(Run(sn, seed, m, actions).s)
    decreases |actions|
  {
    assert actions[0] in actions;
    var next := Next(sn, seed, m, actions[0]);
    if actions[0].Boot? {
      HealingStays(sn, seed, next, actions[1..]);
    } else {
      EmptyStoreIsHealed(sn, seed, next, actions[1..]);
    }
  }
}
