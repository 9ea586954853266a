/** Booting a second time: exactly when no row changes. */
module BootAgain {
  import opened Wrappers
  import opened Ordering
  import opened Ipv4
  import opened Alloc
  import opened Types
  import opened Validate
  import opened ClientTable
  import opened PeerService
  import opened PeerConvergence
  import opened BootMachine
  import opened BootOutcome
  import opened BootHeals
  import opened BootConverges
  import opened OneClient
  import BL = BootLatch

  /** Nothing the store does not carry: every row enabled and without a note. */
  predicate Plain(rows: Rows) { forall k :: k in rows ==> rows[k].enabled && rows[k].note.None? }

  lemma InCanonical(rows: Rows)
    requires Keyed(rows) && Injective(rows)
    ensures forall e :: e in Canonical(Projection(rows)) <==> e in EntrySet(rows)
  {
    var c := Canonical(Projection(rows));
    ProjectionIsEntrySet(rows);
    SortPermutes(Projection(rows), EntryLeq);
    forall e ensures e in c <==> e in EntrySet(rows) { assert e in c <==> e in multiset(c); }
  }

  /** The store's own form of a table restores it as it is exactly when the table is plain. */
  lemma RestoredIffPlain(rows: Rows)
    requires Keyed(rows) && Injective(rows)
    ensures Restored(rows, Canonical(Projection(rows))) <==> Plain(rows)
  {
    var c := Canonical(Projection(rows));
    InCanonical(rows);
    forall k | k in rows ensures ToEntry(rows[k]) in c && k in Keys(c) { assert ToEntry(rows[k]) in EntrySet(rows); }
  }

  lemma CanonicalIsEmptyIff(rows: Rows)
    requires Keyed(rows) && Injective(rows)
    ensures Canonical(Projection(rows)) == [] <==> rows == map[]
  {
    InCanonical(rows);
    var c := Canonical(Projection(rows));
    if rows != map[] {
      var k :| k in rows;
      assert ToEntry(rows[k]) in EntrySet(rows) && ToEntry(rows[k]) in c;
    }
    assert c != [] ==> c[0] in c;
  }

  /** A boot that restores a list and returns nil changes no row exactly when the table was that list
      already, all enabled and without notes. */
  lemma RebootAltersNothingIff(sn: ServerNet, seed: seq<Entry>, m: Machine, es: seq<Entry>, actions: seq<Action>)
    requires sn.Valid() && Fresh(m) && EnabledRun(sn, seed, m, actions) && NoServe(actions)
    requires FirstLoad(actions) == Some(Loaded(es)) && es != []
    requires Run(sn, seed, m, actions).pc == Booted(true)
    ensures Run(sn, seed, m, actions).s.table.rows == m.s.table.rows <==> Restored(m.s.table.rows, es)
  {
    BootRestoresExactly(sn, seed, m, es, actions);
    if Restored(m.s.table.rows, es) { RebootAltersNothing(sn, seed, m, es, actions); }
  }

  /** Reading back what the store holds for a table with rows alters no row exactly when no row is
      disabled or annotated. */
  lemma RebootIsStableIff(sn: ServerNet, seed: seq<Entry>, m: Machine, actions: seq<Action>)
    requires sn.Valid() && Fresh(m) && EnabledRun(sn, seed, m, actions) && NoServe(actions) && m.s.table.rows != map[]
    requires FirstLoad(actions) == Some(Loaded(Canonical(Projection(m.s.table.rows))))
    requires Run(sn, seed, m, actions).pc == Booted(true)
    ensures Run(sn, seed, m, actions).s.table.rows == m.s.table.rows <==> Plain(m.s.table.rows)
  {
    var rows := m.s.table.rows;
    CanonicalIsEmptyIff(rows);
    RestoredIffPlain(rows);
    RebootAltersNothingIff(sn, seed, m, Canonical(Projection(rows)), actions);
  }

  lemma {:induction false} SeedFromPlain(t: Table, seed: seq<Entry>, now: int, fault: Option<nat>)
    requires Plain(t.rows)
    ensures Plain(SeedFrom(t, seed, now, fault).0.rows)
    decreases |seed|
  {
    if seed != [] && fault != Some(0) {
      var next := InsertRow(t, SeedRow(seed[0], now));
      if next.Some? {
        SeedFromPlain(next.value, seed[1..], now, if fault.Some? then Some(fault.value - 1) else None);
      }
    }
  }

  /** A table filled from the manifest: its entries, each once, all plain. */
  ghost predicate Seeded(rows: Rows, seed: seq<Entry>) {
    multiset(EntrySet(rows)) == multiset(seed) && Plain(rows)
  }

  /** A boot that found store and table empty. */
  ghost predicate Seeding(m: Machine, seed: seq<Entry>) {
    && ValidTable(m.s.table)
    && match m.pc
       case EmptyCount | SeedSave | SeedDb => m.s.table.rows == map[]
       case SeedReconcile => Seeded(m.s.table.rows, seed)
       case Latch(ok) => ok ==> Seeded(m.s.table.rows, seed)
       case Booted(ok) => ok ==> Seeded(m.s.table.rows, seed)
       case _ => false
  }

  lemma SeedFills(s: State, seed: seq<Entry>, w: World)
    requires ValidTable(s.table) && s.table.rows == map[]
    ensures var (t, e) := Seed(s, seed, w); e.None? ==> Seeded(t.table.rows, seed)
  {
    SeedAddsEntries(s.table, seed, w.now, w.seedFault);
    SeedFromPlain(s.table, seed, w.now, w.seedFault);
    assert EntrySet(s.table.rows) == {};
  }

  lemma SeedingStep(sn: ServerNet, seed: seq<Entry>, m: Machine, act: Action)
    requires sn.Valid() && Seeding(m, seed) && Enabled(m, act) && !act.Serve?
    ensures Seeding(Next(sn, seed, m, act), seed)
  {
    NextKeepsValid(sn, seed, m, act);
    if act.Poll? {
      RecheckKeepsTable(m.s, act.w);
    } else if m.pc.SeedDb? {
      SeedFills(m.s, seed, act.w);
    }
  }

  lemma {:induction false} SeedingStays(sn: ServerNet, seed: seq<Entry>, m: Machine, actions: seq<Action>)
    requires sn.Valid() && Seeding(m, seed) && EnabledRun(sn, seed, m, actions) && NoServe(actions)
    ensures Seeding(Run(sn, seed, m, actions), seed)
    decreases |actions|
  {
    if actions != [] {
      assert actions[0] in actions;
      SeedingStep(sn, seed, m, actions[0]);
      SeedingStays(sn, seed, Next(sn, seed, m, actions[0]), actions[1..]);
    }
  }

  lemma {:induction false} ColdBootSeeds(sn: ServerNet, seed: seq<Entry>, m: Machine, actions: seq<Action>)
    requires sn.Valid() && Fresh(m) && EnabledRun(sn, seed, m, actions) && NoServe(actions)
    requires FirstLoad(actions).Some? && StoreEmpty(FirstLoad(actions).value) && m.s.table.rows == map[]
    requires Run(sn, seed, m, actions).pc == Booted(true)
    ensures Seeded(Run(sn, seed, m, actions).s.table.rows, seed)
    decreases |actions|
  {
    assert actions[0] in actions;
    if actions[0].Boot? {
      SeedingStays(sn, seed, Next(sn, seed, m, actions[0]), actions[1..]);
    } else {
      PollBeforeBoot(sn, seed, m, actions[0].w);
      ColdBootSeeds(sn, seed, m, actions[1..]);
    }
  }

  lemma RestoredBootIsPlain(sn: ServerNet, seed: seq<Entry>, m: Machine, es: seq<Entry>, actions: seq<Action>)
    requires sn.Valid() && Fresh(m) && EnabledRun(sn, seed, m, actions) && NoServe(actions)
    requires FirstLoad(actions) == Some(Loaded(es)) && es != [] && Run(sn, seed, m, actions).pc == Booted(true)
    ensures Plain(Run(sn, seed, m, actions).s.table.rows) && Run(sn, seed, m, actions).s.table.rows != map[]
  {
    BootRestoresExactly(sn, seed, m, es, actions);
    var rows := Run(sn, seed, m, actions).s.table.rows;
    forall k | k in rows ensures rows[k].enabled && rows[k].note.None? {
      var e :| e in es && e.publicKey == k;
    }
    assert es[0] in es;
  }

  /** After a boot that returned nil the table is plain exactly when boot filled it, from the store
      or from the manifest, or it was plain before. */
  lemma PlainAfterBootIff(sn: ServerNet, seed: seq<Entry>, m: Machine, actions: seq<Action>)
    requires sn.Valid() && Fresh(m) && EnabledRun(sn, seed, m, actions) && NoServe(actions)
    requires Run(sn, seed, m, actions).pc == Booted(true)
    ensures FirstLoad(actions).Some?
    ensures Plain(Run(sn, seed, m, actions).s.table.rows) <==>
            Offers(FirstLoad(actions).value) || m.s.table.rows == map[] || Plain(m.s.table.rows)
  {
    NilBootLoaded(sn, seed, m, actions);
    var o := FirstLoad(actions).value;
    if Offers(o) {
      RestoredBootIsPlain(sn, seed, m, o.entries, actions);
    } else if m.s.table.rows == map[] {
      ColdBootSeeds(sn, seed, m, actions);
    } else {
      BootNeverLosesPeers(sn, seed, m, actions);
    }
  }

  /** A boot that leaves the table empty has an empty manifest. */
  lemma EmptyBootHasNoSeed(sn: ServerNet, seed: seq<Entry>, m: Machine, actions: seq<Action>)
    requires sn.Valid() && Fresh(m) && EnabledRun(sn, seed, m, actions) && NoServe(actions)
    requires Run(sn, seed, m, actions).pc == Booted(true) && Run(sn, seed, m, actions).s.table.rows == map[]
    ensures seed == []
  {
    NilBootLoaded(sn, seed, m, actions);
    var o := FirstLoad(actions).value;
    if Offers(o) {
      RestoredBootIsPlain(sn, seed, m, o.entries, actions);
    } else if m.s.table.rows == map[] {
      ColdBootSeeds(sn, seed, m, actions);
      assert EntrySet(map[]) == {};
      assert |multiset(seed)| == |seed|;
    } else {
      BootNeverLosesPeers(sn, seed, m, actions);
    }
  }

  lemma EmptyBootStep(sn: ServerNet, m: Machine, act: Action)
    requires sn.Valid() && m.s.table.rows == map[] && !m.pc.NotBooted? && !m.pc.ReplacePending? && !act.Serve?
    ensures var next := Next(sn, [], m, act);
            next.s.table.rows == map[] && !next.pc.NotBooted? && !next.pc.ReplacePending?
  {
    if act.Poll? { RecheckKeepsTable(m.s, act.w); } else { NeverBackToRestore(sn, [], m, act.w); }
  }

  lemma {:induction false} EmptyStays(sn: ServerNet, m: Machine, actions: seq<Action>)
    requires sn.Valid() && m.s.table.rows == map[] && !m.pc.NotBooted? && !m.pc.ReplacePending? && NoServe(actions)
    ensures Run(sn, [], m, actions).s.table.rows == map[]
    decreases |actions|
  {
    if actions != [] {
      assert actions[0] in actions;
      EmptyBootStep(sn, m, actions[0]);
      EmptyStays(sn, Next(sn, [], m, actions[0]), actions[1..]);
    }
  }

  lemma {:induction false} EmptyBootStays(sn: ServerNet, m: Machine, actions: seq<Action>)
    requires sn.Valid() && Fresh(m) && m.s.table.rows == map[] && NoServe(actions)
    requires FirstLoad(actions).Some? ==> FirstLoad(actions).value == Loaded([])
    ensures Run(sn, [], m, actions).s.table.rows == map[]
    decreases |actions|
  {
    if actions != [] {
      assert actions[0] in actions;
      if actions[0].Boot? {
        EmptyStays(sn, Next(sn, [], m, actions[0]), actions[1..]);
      } else {
        PollBeforeBoot(sn, [], m, actions[0].w);
        EmptyBootStays(sn, m, actions[1..]);
      }
    }
  }

  /** The second boot follows a first one that returned nil, and reads what write-through stores for
      the table the first one left. */
  ghost predicate Follows(sn: ServerNet, seed: seq<Entry>, m: Machine, first: seq<Action>, second: seq<Action>)
    requires sn.Valid()
  {
    var m1 := Run(sn, seed, m, first);
    && Fresh(m) && EnabledRun(sn, seed, m, first) && NoServe(first) && m1.pc == Booted(true)
    && EnabledRun(sn, seed, Restart(m1), second) && NoServe(second)
    && FirstLoad(second) == Some(Loaded(Canonical(Projection(m1.s.table.rows))))
  }

  /** A process restarted from a reachable state is a fresh one. */
  lemma RestartIsFresh(m: Machine)
    requires Guarded(m) && ValidTable(m.s.table)
    ensures Fresh(Restart(m))
  {
  }

  lemma FirstBootIsFresh(sn: ServerNet, seed: seq<Entry>, m: Machine, first: seq<Action>) returns (m1: Machine)
    requires sn.Valid() && Fresh(m) && EnabledRun(sn, seed, m, first)
    ensures m1 == Run(sn, seed, m, first) && Fresh(Restart(m1))
  {
    m1 := Run(sn, seed, m, first);
    RunKeepsValid(sn, seed, m, first);
    RunIsGuarded(sn, seed, m, first);
    RestartIsFresh(m1);
  }

  /** Boot is idempotent wherever the first boot leaves a plain table: no step of the second one
      alters a row, whatever fails. */
  lemma BootIsIdempotent(sn: ServerNet, seed: seq<Entry>, m: Machine, first: seq<Action>, second: seq<Action>)
    requires sn.Valid() && Follows(sn, seed, m, first, second) && Plain(Run(sn, seed, m, first).s.table.rows)
    ensures var m1 := Run(sn, seed, m, first); Run(sn, seed, Restart(m1), second).s.table.rows == m1.s.table.rows
  {
    var m1 := Run(sn, seed, m, first);
    var rows := m1.s.table.rows;
    var _ := FirstBootIsFresh(sn, seed, m, first);
    CanonicalIsEmptyIff(rows);
    if rows == map[] {
      EmptyBootHasNoSeed(sn, seed, m, first);
      EmptyBootStays(sn, Restart(m1), second);
    } else {
      RestoredIffPlain(rows);
      RebootAltersNothing(sn, seed, Restart(m1), Canonical(Projection(rows)), second);
    }
  }

  /** After any first boot that returned nil, a second one that returns nil alters no row if and only
      if the first filled the table (from the store or from the manifest), or the table held no
      disabled and no annotated row. */
  lemma BootIsIdempotentIff(sn: ServerNet, seed: seq<Entry>, m: Machine, first: seq<Action>, second: seq<Action>)
    requires sn.Valid() && Follows(sn, seed, m, first, second)
    requires Run(sn, seed, Restart(Run(sn, seed, m, first)), second).pc == Booted(true)
    ensures FirstLoad(first).Some?
    ensures var m1 := Run(sn, seed, m, first);
            Run(sn, seed, Restart(m1), second).s.table.rows == m1.s.table.rows <==>
              Offers(FirstLoad(first).value) || m.s.table.rows == map[] || Plain(m.s.table.rows)
  {
    var m1 := Run(sn, seed, m, first);
    var rows := m1.s.table.rows;
    PlainAfterBootIff(sn, seed, m, first);
    if Plain(rows) {
      BootIsIdempotent(sn, seed, m, first, second);
    } else {
      var _ := FirstBootIsFresh(sn, seed, m, first);
      RebootIsStableIff(sn, seed, Restart(m1), second);
    }
  }

  /** The same list offered twice: the second boot alters no row. */
  lemma SameListTwice(sn: ServerNet, seed: seq<Entry>, m: Machine, es: seq<Entry>, first: seq<Action>,
                      second: seq<Action>)
    requires sn.Valid() && Fresh(m) && EnabledRun(sn, seed, m, first) && NoServe(first)
    requires FirstLoad(first) == Some(Loaded(es)) && es != [] && Run(sn, seed, m, first).pc == Booted(true)
    requires var m1 := Run(sn, seed, m, first);
             EnabledRun(sn, seed, Restart(m1), second) && NoServe(second) && FirstLoad(second) == Some(Loaded(es))
    ensures var m1 := Run(sn, seed, m, first); Run(sn, seed, Restart(m1), second).s.table.rows == m1.s.table.rows
  {
    BootRestoresExactly(sn, seed, m, es, first);
    var _ := FirstBootIsFresh(sn, seed, m, first);
    RebootAltersNothing(sn, seed, Restart(Run(sn, seed, m, first)), es, second);
  }

  function OneKey(key: string): Orders { Orders([key], [key], [key]) }

  lemma AloneFits(c: Client, now: int)
    ensures ValidOrders(OneKey(c.publicKey), Alone(c).table.rows, WantByKey(Wanted([ToEntry(c)], now)))
  {
    WantHasEntries([ToEntry(c)], now);
    assert ToEntry(c) in [ToEntry(c)];
    assert Keys([ToEntry(c)]) == {c.publicKey};
  }

  lemma AloneRestores(sn: ServerNet, seed: seq<Entry>, s: State, c: Client, w: World)
    requires sn.Valid() && ValidEntry(sn, ToEntry(c)) && s.ready && s.backend.S3?
    requires s.table == Alone(c).table && w == Calm(Loaded([ToEntry(c)]), OneKey(c.publicKey))
    ensures ValidTable(s.table) && OrdersFit(s, [ToEntry(c)], w)
    ensures Complete(sn, seed, Machine(NotBooted, s), w).pc == Booted(true)
  {
    AloneIsListed(c);
    AloneFits(c, w.now);
    BL.BootLatchesIff(sn, seed, s, w);
  }

  lemma SecondBootEnables(sn: ServerNet, seed: seq<Entry>, m: Machine, c: Client) returns (actions: seq<Action>)
    requires sn.Valid() && ValidEntry(sn, ToEntry(c)) && Fresh(m) && m.s.table == Alone(c).table
    ensures EnabledRun(sn, seed, m, actions) && NoServe(actions) && FirstLoad(actions) == Some(Loaded([ToEntry(c)]))
    ensures var end := Run(sn, seed, m, actions);
            end.pc == Booted(true) && c.publicKey in end.s.table.rows && end.s.table.rows[c.publicKey].enabled
  {
    var w := Calm(Loaded([ToEntry(c)]), OneKey(c.publicKey));
    AloneRestores(sn, seed, m.s, c, w);
    actions := StraightBoot(sn, seed, m, w);
    BootRestoresExactly(sn, seed, m, [ToEntry(c)], actions);
    assert ToEntry(c) in [ToEntry(c)];
  }

  lemma AloneIsStored(c: Client)
    ensures Canonical(Projection(Alone(c).table.rows)) == [ToEntry(c)]
  {
    AloneIsListed(c);
    assert ToEntries([c]) == [ToEntry(c)];
    assert SortBy([ToEntry(c)], EntryLeq) == [ToEntry(c)];
  }

  lemma FirstBootKeepsAlone(sn: ServerNet, seed: seq<Entry>, c: Client) returns (actions: seq<Action>)
    requires sn.Valid()
    ensures var m := Machine(NotBooted, Alone(c));
            && Fresh(m) && EnabledRun(sn, seed, m, actions) && NoServe(actions)
            && Run(sn, seed, m, actions).pc == Booted(true) && Run(sn, seed, m, actions).s.table == Alone(c).table
  {
    var m, w := Machine(NotBooted, Alone(c)), Calm(Missing, OneKey(c.publicKey));
    AloneIsListed(c);
    HealedAlone(sn, seed, m.s, w);
    actions := StraightBoot(sn, seed, m, w);
    BootNeverLosesPeers(sn, seed, m, actions);
  }

  /** A disabled client, alone in the table, with a store never written: there is a first boot that
      saves it, changes no row and returns nil, and a second that reads it back and enables it. */
  lemma DisabledClientComesBack(sn: ServerNet, seed: seq<Entry>, c: Client)
    returns (first: seq<Action>, second: seq<Action>)
    requires sn.Valid() && ValidEntry(sn, ToEntry(c)) && !c.enabled
    ensures Follows(sn, seed, Machine(NotBooted, Alone(c)), first, second)
    ensures var m1 := Run(sn, seed, Machine(NotBooted, Alone(c)), first);
            var m2 := Run(sn, seed, Restart(m1), second);
            && m1.s.table == Alone(c).table && m2.pc == Booted(true)
            && c.publicKey in m2.s.table.rows && m2.s.table.rows[c.publicKey].enabled
  {
    first := FirstBootKeepsAlone(sn, seed, c);
    var m1 := FirstBootIsFresh(sn, seed, Machine(NotBooted, Alone(c)), first);
    second := SecondBootEnables(sn, seed, Restart(m1), c);
    AloneIsStored(c);
  }

  /** Such clients exist in every server net: any of its hosts will do. */
  lemma SuchClientsExist(sn: ServerNet, host: u32)
    requires sn.Valid() && sn.Contains(host)
    ensures ValidEntry(sn, Entry("a", HostCidr(host), "AAAAAAAAAAAAAAAAAAAAAAAAAAAAAAAAAAAAAAAAAAA="))
  {
    HostCidrIsValid(sn, host);
  }
}
