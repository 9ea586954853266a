/** Exactly when a restore, a seed and a whole boot go through, and what a boot that does not leaves
    behind: a latch that is down, and a store list that later writes replace. */
module BootLatch {
  import opened Wrappers
  import opened Alloc
  import opened Types
  import opened Validate
  import opened ClientTable
  import opened PeerService
  import opened PeerConvergence
  import opened BootMachine
  import opened WriteThrough
  import opened OneClient
  import BO = BootOutcome
  import RO = ReplaceOrder

  /** What a bulk replace needs of its input and of the world. */
  ghost predicate RestoreGoesThrough(sn: ServerNet, s: State, es: seq<Entry>, w: World)
    requires sn.Valid()
  {
    && ValidSet(sn, es) && RO.Respects(s.table.rows, WantByKey(Wanted(es, w.now)), w.orders.updates)
    && WriteRow !in w.faults && ApplyList !in w.faults && ReturnList !in w.faults && w.apply.Applied?
    && (StoreOpens(s, w) ==> SaveList !in w.faults)
  }

  lemma ValidSetIsInjective(sn: ServerNet, es: seq<Entry>, now: int)
    requires sn.Valid() && ValidSet(sn, es)
    ensures Keyed(WantByKey(Wanted(es, now))) && Injective(WantByKey(Wanted(es, now)))
  {
    var want := WantByKey(Wanted(es, now));
    WantIsKeyed(Wanted(es, now));
    BO.WantHasEntries(es, now);
    forall j, k | j in want && k in want && j != k
      ensures want[j].name != want[k].name && want[j].address != want[k].address
    {
      var a :| a in es && a.publicKey == j;
      var b :| b in es && b.publicKey == k;
    }
  }

  lemma CommitsIff(sn: ServerNet, s: State, es: seq<Entry>, w: World)
    requires sn.Valid() && ValidTable(s.table) && OrdersFit(s, es, w) && ValidSet(sn, es)
    ensures var want := WantByKey(Wanted(es, w.now));
            Replace(s.table, want, w.orders).Some? <==> RO.Respects(s.table.rows, want, w.orders.updates)
  {
    ValidSetIsInjective(sn, es, w.now);
    RO.ReplaceCommitsIff(s.table, WantByKey(Wanted(es, w.now)), w.orders);
  }

  /** ReplaceAll returns nil exactly when the list is valid, the update order respects its
      dependencies and nothing outside fails. */
  lemma RestoreSucceedsIff(sn: ServerNet, s: State, es: seq<Entry>, w: World)
    requires sn.Valid() && ValidTable(s.table) && OrdersFit(s, es, w)
    ensures ReplaceAll(sn, s, es, w).1.None? <==> RestoreGoesThrough(sn, s, es, w)
  {
    if ValidSet(sn, es) {
      CommitsIff(sn, s, es, w);
      WriteSucceedsIff(s, Replace(s.table, WantByKey(Wanted(es, w.now)), w.orders), w, true);
    }
  }

  /** The bulk replace commits: what fails after that undoes nothing. */
  ghost predicate Written(sn: ServerNet, s: State, es: seq<Entry>, w: World)
    requires sn.Valid()
  {
    && ValidSet(sn, es) && WriteRow !in w.faults
    && RO.Respects(s.table.rows, WantByKey(Wanted(es, w.now)), w.orders.updates)
  }

  lemma TableAfterWrite(s: State, t: Option<Table>, w: World)
    ensures WriteThenFinish(s, t, w, true).0.table == if WriteRow !in w.faults && t.Some? then t.value else s.table
  {
    if WriteRow !in w.faults && t.Some? { FinishKeepsTable(s.(table := t.value), w, true); }
  }

  lemma RestoreWrites(sn: ServerNet, s: State, es: seq<Entry>, w: World)
    requires sn.Valid() && ValidTable(s.table) && OrdersFit(s, es, w)
    ensures var rows := ReplaceAll(sn, s, es, w).0.table.rows;
            if Written(sn, s, es, w) then BO.Restored(rows, es) else rows == s.table.rows
  {
    if ValidSet(sn, es) {
      var r := Replace(s.table, WantByKey(Wanted(es, w.now)), w.orders);
      CommitsIff(sn, s, es, w);
      TableAfterWrite(s, r, w);
      BO.CommittedReplaceRestores(sn, s.table, es, w.now, w.orders);
    }
  }

  /** ReplaceAll leaves the list in the table exactly when it commits or the table was that list
      already, and alters no row exactly when it does not commit or the table was that list. */
  lemma RestoreLandsIff(sn: ServerNet, s: State, es: seq<Entry>, w: World)
    requires sn.Valid() && ValidTable(s.table) && OrdersFit(s, es, w)
    ensures var rows := ReplaceAll(sn, s, es, w).0.table.rows;
            && (BO.Restored(rows, es) <==> Written(sn, s, es, w) || BO.Restored(s.table.rows, es))
            && (rows == s.table.rows <==> !Written(sn, s, es, w) || BO.Restored(s.table.rows, es))
  {
    RestoreWrites(sn, s, es, w);
    if BO.Restored(s.table.rows, es) { BO.ReplaceByItselfKeepsRows(sn, s, es, w); }
  }

  /** An entry clashes with no row. */
  ghost predicate FreeIn(rows: Rows, e: Entry) {
    && e.publicKey !in rows
    && forall k :: k in rows ==> rows[k].name != e.name && rows[k].address != e.address
  }

  lemma FreeAfterInsert(t: Table, e: Entry, x: Entry, now: int)
    requires InsertRow(t, SeedRow(e, now)).Some?
    ensures FreeIn(InsertRow(t, SeedRow(e, now)).value.rows, x) <==>
            FreeIn(t.rows, x) && x.publicKey != e.publicKey && x.name != e.name && x.address != e.address
  {
    var r := InsertRow(t, SeedRow(e, now)).value.rows;
    assert r[e.publicKey].name == e.name && r[e.publicKey].address == e.address;
    assert forall k :: k in t.rows ==> k in r && r[k] == t.rows[k];
  }

  lemma DistinctTail(es: seq<Entry>)
    requires es != []
    ensures DistinctEntries(es) <==>
            && DistinctEntries(es[1..])
            && forall x :: x in es[1..] ==>
                 x.name != es[0].name && x.publicKey != es[0].publicKey && x.address != es[0].address
  {
    var rest := es[1..];
    assert forall i :: 0 <= i < |rest| ==> rest[i] == es[i + 1];
    forall i | 0 < i < |es| ensures es[i] in rest { assert rest[i - 1] == es[i]; }
    forall i, j | 0 < i < j < |es| && DistinctEntries(rest)
      ensures es[i].name != es[j].name && es[i].publicKey != es[j].publicKey && es[i].address != es[j].address
    {
      assert rest[i - 1] == es[i] && rest[j - 1] == es[j];
    }
  }

  /** The seed loop gets through exactly when no statement fails on its own, the manifest repeats no
      name, key or address, and none is held already. */
  lemma {:induction false} SeedSucceedsIff(t: Table, seed: seq<Entry>, now: int, fault: Option<nat>)
    requires ValidTable(t)
    ensures SeedFrom(t, seed, now, fault).1 <==>
            && (fault.None? || fault.value >= |seed|)
            && DistinctEntries(seed) && forall e :: e in seed ==> FreeIn(t.rows, e)
    decreases |seed|
  {
    if seed != [] && fault != Some(0) {
      var e := seed[0];
      var next := InsertRow(t, SeedRow(e, now));
      DistinctTail(seed);
      assert next.Some? <==> FreeIn(t.rows, e);
      if next.Some? {
        InsertKeepsValid(t, SeedRow(e, now));
        SeedSucceedsIff(next.value, seed[1..], now, if fault.Some? then Some(fault.value - 1) else None);
        forall x ensures FreeIn(next.value.rows, x) <==>
            FreeIn(t.rows, x) && x.publicKey != e.publicKey && x.name != e.name && x.address != e.address
        {
          FreeAfterInsert(t, e, x, now);
        }
        assert forall x :: x in seed <==> x == e || x in seed[1..];
      } else {
        assert e in seed;
      }
    }
  }

  /** What a boot needs when the store has nothing: a heal, or a cold seed. */
  ghost predicate HealGoesThrough(seed: seq<Entry>, s: State, w: World) {
    && CountRows !in w.faults && w.save.Saved?
    && if s.table.rows != map[] then HealList !in w.faults
       else && SeedCount !in w.faults && (w.seedFault.None? || w.seedFault.value >= |seed|) && DistinctEntries(seed)
            && ApplyList !in w.faults && w.apply.Applied?
  }

  /** What a boot needs, by what the store answers. */
  ghost predicate BootGoesThrough(sn: ServerNet, seed: seq<Entry>, s: State, w: World)
    requires sn.Valid()
  {
    match w.load
    case LoadFailed => false
    case Missing => HealGoesThrough(seed, s, w)
    case Loaded(es) => if es == [] then HealGoesThrough(seed, s, w) else RestoreGoesThrough(sn, s, es, w)
  }

  /** A boot that ends here has returned nil exactly if `ok`, and its latch is up exactly then. */
  ghost predicate EndsAs(m: Machine, ok: bool) { m.pc == Booted(ok) && m.s.ready == ok }

  lemma LatchEnds(sn: ServerNet, seed: seq<Entry>, s: State, ok: bool, w: World)
    requires sn.Valid()
    ensures EndsAs(Complete(sn, seed, Machine(Latch(ok), s), w), ok)
  {
    var m := Machine(Latch(ok), s);
    OneStep(sn, seed, m, Machine(Booted(ok), s.(ready := ok)), w);
  }

  lemma HealEnds(sn: ServerNet, seed: seq<Entry>, s: State, w: World)
    requires sn.Valid() && s.backend.S3? && s.table.rows != map[]
    ensures EndsAs(Complete(sn, seed, Machine(HealListing, s), w), HealList !in w.faults && w.save.Saved?)
  {
    var m := Machine(HealListing, s);
    var listed := BootStep(sn, seed, m, w);
    OneStep(sn, seed, m, listed, w);
    if HealList in w.faults {
      LatchEnds(sn, seed, s, false, w);
    } else {
      var saved := BootStep(sn, seed, listed, w);
      OneStep(sn, seed, listed, saved, w);
      LatchEnds(sn, seed, saved.s, w.save.Saved?, w);
    }
  }

  lemma ReconcileEnds(sn: ServerNet, seed: seq<Entry>, s: State, w: World)
    requires sn.Valid()
    ensures EndsAs(Complete(sn, seed, Machine(SeedReconcile, s), w), ApplyList !in w.faults && w.apply.Applied?)
  {
    var m := Machine(SeedReconcile, s);
    var done := BootStep(sn, seed, m, w);
    OneStep(sn, seed, m, done, w);
    LatchEnds(sn, seed, done.s, done.pc.arm, w);
  }

  lemma SeedEnds(sn: ServerNet, seed: seq<Entry>, s: State, w: World)
    requires sn.Valid() && s.backend.S3? && ValidTable(s.table) && s.table.rows == map[]
    ensures EndsAs(Complete(sn, seed, Machine(SeedDb, s), w),
                   && SeedCount !in w.faults && (w.seedFault.None? || w.seedFault.value >= |seed|)
                   && DistinctEntries(seed) && ApplyList !in w.faults && w.apply.Applied?)
  {
    var m := Machine(SeedDb, s);
    var seeded := BootStep(sn, seed, m, w);
    OneStep(sn, seed, m, seeded, w);
    SeedSucceedsIff(s.table, seed, w.now, w.seedFault);
    assert forall e :: FreeIn(s.table.rows, e);
    if seeded.pc.Latch? {
      LatchEnds(sn, seed, seeded.s, false, w);
    } else {
      ReconcileEnds(sn, seed, seeded.s, w);
    }
  }

  lemma EmptyStoreEnds(sn: ServerNet, seed: seq<Entry>, s: State, w: World)
    requires sn.Valid() && s.backend.S3? && ValidTable(s.table)
    ensures EndsAs(Complete(sn, seed, Machine(EmptyCount, s), w), HealGoesThrough(seed, s, w))
  {
    var m := Machine(EmptyCount, s);
    var counted := BootStep(sn, seed, m, w);
    OneStep(sn, seed, m, counted, w);
    if CountRows in w.faults {
      LatchEnds(sn, seed, s, false, w);
    } else if s.table.rows != map[] {
      HealEnds(sn, seed, s, w);
    } else {
      var saved := BootStep(sn, seed, counted, w);
      OneStep(sn, seed, counted, saved, w);
      if w.save.Saved? { SeedEnds(sn, seed, saved.s, w); } else { LatchEnds(sn, seed, saved.s, false, w); }
    }
  }

  lemma HardErrorEnds(sn: ServerNet, seed: seq<Entry>, s: State, w: World)
    requires sn.Valid()
    ensures EndsAs(Complete(sn, seed, Machine(HardPending, s), w), false)
  {
    var m := Machine(HardPending, s);
    var counting := BootStep(sn, seed, m, w);
    OneStep(sn, seed, m, counting, w);
    var counted := BootStep(sn, seed, counting, w);
    OneStep(sn, seed, counting, counted, w);
    if !counted.pc.Booted? {
      var seeded := BootStep(sn, seed, counted, w);
      OneStep(sn, seed, counted, seeded, w);
      if !seeded.pc.Booted? { OneStep(sn, seed, seeded, BootStep(sn, seed, seeded, w), w); }
    }
  }

  lemma RestoreEnds(sn: ServerNet, seed: seq<Entry>, s: State, es: seq<Entry>, w: World)
    requires sn.Valid() && ValidTable(s.table) && OrdersFit(s, es, w)
    ensures EndsAs(Complete(sn, seed, Machine(ReplacePending(es), s), w), RestoreGoesThrough(sn, s, es, w))
  {
    var (s1, e) := ReplaceAll(sn, s, es, w);
    OneStep(sn, seed, Machine(ReplacePending(es), s), Machine(Latch(e.None?), s1), w);
    RestoreSucceedsIff(sn, s, es, w);
    LatchEnds(sn, seed, s1, e.None?, w);
  }

  /** An uninterrupted boot returns nil, and leaves the latch up, exactly when BootGoesThrough: the
      latch goes down on a hard load error, and just as well on a fault of a count, listing, seed,
      save or apply, on a refused list and on a UNIQUE failure. */
  lemma BootLatchesIff(sn: ServerNet, seed: seq<Entry>, s: State, w: World)
    requires sn.Valid() && s.ready && s.backend.S3? && ValidTable(s.table)
    requires w.load.Loaded? ==> OrdersFit(s, w.load.entries, w)
    ensures EndsAs(Complete(sn, seed, Machine(NotBooted, s), w), BootGoesThrough(sn, seed, s, w))
  {
    var m := Machine(NotBooted, s);
    var loaded := BootStep(sn, seed, m, w);
    OneStep(sn, seed, m, loaded, w);
    match loaded.pc {
      case HardPending => HardErrorEnds(sn, seed, loaded.s, w);
      case EmptyCount => EmptyStoreEnds(sn, seed, loaded.s, w);
      case ReplacePending(es) => RestoreEnds(sn, seed, loaded.s, es, w);
    }
  }

  /** The source's comment on StoreReady, of one boot: down only after a hard load error. It holds
      exactly of the boots that had one or went through. */
  lemma DownOnlyOnHardErrorIff(sn: ServerNet, seed: seq<Entry>, s: State, w: World)
    requires sn.Valid() && s.ready && s.backend.S3? && ValidTable(s.table)
    requires w.load.Loaded? ==> OrdersFit(s, w.load.entries, w)
    ensures var down := !Complete(sn, seed, Machine(NotBooted, s), w).s.ready;
            (down ==> w.load.LoadFailed?) <==> w.load.LoadFailed? || BootGoesThrough(sn, seed, s, w)
  {
    BootLatchesIff(sn, seed, s, w);
  }

  /** An input at which it fails: one client in the table, nothing in the store, and a save that does
      not go through. */
  lemma FailedHealDropsLatch(sn: ServerNet, seed: seq<Entry>, c: Client, orders: Orders)
    requires sn.Valid()
    ensures var w := Calm(Missing, orders).(save := SaveFailed(None));
            var end := Complete(sn, seed, Machine(NotBooted, Alone(c)), w);
            !w.load.LoadFailed? && end.pc == Booted(false) && !end.s.ready
  {
    AloneIsListed(c);
    BootLatchesIff(sn, seed, Alone(c), Calm(Missing, orders).(save := SaveFailed(None)));
  }

  /** Any non-empty list that boot could not restore, valid or not: the latch drops, one answered
      recheck arms it again, and the next canonical mutation replaces the list by the table. The
      table holds the list by then exactly if the restore failed after its commit, or held it before. */
  lemma UnrestoredListIsOverwritten(sn: ServerNet, seed: seq<Entry>, m: Machine, es: seq<Entry>,
                                    w1: World, w2: World, poll: World, op: Op, w: World)
    requires sn.Valid() && Guarded(m) && ValidTable(m.s.table)
    requires m.pc == ReplacePending(es) && OrdersFit(m.s, es, w1) && !RestoreGoesThrough(sn, m.s, es, w1)
    requires !poll.load.LoadFailed? && Canonically(op) && w.save.Saved? && SaveList !in w.faults
    ensures var refused := Next(sn, seed, Next(sn, seed, m, Boot(w1)), Boot(w2));
            var armed := Next(sn, seed, refused, Poll(poll));
            && refused.pc == Booted(false) && !refused.s.ready
            && refused.s.table == ReplaceAll(sn, m.s, es, w1).0.table
            && (BO.Restored(refused.s.table.rows, es) <==>
                Written(sn, m.s, es, w1) || BO.Restored(m.s.table.rows, es))
            && (refused.s.table.rows == m.s.table.rows <==>
                !Written(sn, m.s, es, w1) || BO.Restored(m.s.table.rows, es))
            && armed.s.ready && armed.s.table == refused.s.table
            && (Step(sn, armed.s, op, w).1 ==> Agrees(Next(sn, seed, armed, Serve(op, w)).s))
  {
    RestoreSucceedsIff(sn, m.s, es, w1);
    RestoreLandsIff(sn, m.s, es, w1);
    NextIsGuarded(sn, seed, m, Boot(w1));
    var latch := Next(sn, seed, m, Boot(w1));
    assert latch == Machine(Latch(false), ReplaceAll(sn, m.s, es, w1).0);
    NextIsGuarded(sn, seed, latch, Boot(w2));
    LatchRecovers(sn, seed, Next(sn, seed, latch, Boot(w2)), poll, op, w);
  }

  /** Entry a gives key j the address that key k holds now, and b the other way round. */
  ghost predicate Trades(rows: Rows, es: seq<Entry>, a: Entry, b: Entry) {
    && a in es && b in es && a.publicKey in rows && b.publicKey in rows && a.publicKey != b.publicKey
    && a.address == rows[b.publicKey].address && b.address == rows[a.publicKey].address
  }

  /** A valid list is lost in the same way: when two surviving peers trade addresses, boot fails in
      every order without touching the table, and the list is overwritten. */
  lemma SwappedListIsOverwritten(sn: ServerNet, seed: seq<Entry>, m: Machine, es: seq<Entry>, a: Entry, b: Entry,
                                 w1: World, w2: World, poll: World, op: Op, w: World)
    requires sn.Valid() && Guarded(m) && ValidTable(m.s.table) && m.pc == ReplacePending(es)
    requires ValidSet(sn, es) && Trades(m.s.table.rows, es, a, b) && OrdersFit(m.s, es, w1)
    requires !poll.load.LoadFailed? && Canonically(op) && w.save.Saved? && SaveList !in w.faults
    ensures var refused := Next(sn, seed, Next(sn, seed, m, Boot(w1)), Boot(w2));
            var armed := Next(sn, seed, refused, Poll(poll));
            && refused.pc == Booted(false) && refused.s.table == m.s.table && armed.s.ready
            && (Step(sn, armed.s, op, w).1 ==> Agrees(Next(sn, seed, armed, Serve(op, w)).s))
  {
    var want := WantByKey(Wanted(es, w1.now));
    WantIsKeyed(Wanted(es, w1.now));
    BO.WantHasEntries(es, w1.now);
    RO.SwapNeverCommits(m.s.table, want, a.publicKey, b.publicKey, w1.orders);
    assert ReplaceAll(sn, m.s, es, w1).0 == m.s && ReplaceAll(sn, m.s, es, w1).1.Some?;
    RestoreSucceedsIff(sn, m.s, es, w1);
    UnrestoredListIsOverwritten(sn, seed, m, es, w1, w2, poll, op, w);
  }
}
