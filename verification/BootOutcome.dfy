/** What boot does to the table: it never loses peers, it restores the store's set exactly,
    and doing it again alters no row. */
module BootOutcome {
  import opened Wrappers
  import opened Alloc
  import opened Types
  import opened Validate
  import opened ClientTable
  import opened PeerService
  import opened PeerConvergence
  import opened PeerOutcomes
  import opened BootMachine
  import RO = ReplaceOrder

  /** The outcome of the Load that boot's first step performs. */
  ghost function FirstLoad(actions: seq<Action>): Option<LoadOutcome> {
    if actions == [] then None
    else if actions[0].Boot? then Some(actions[0].w.load)
    else FirstLoad(actions[1..])
  }

  ghost predicate NoServe(actions: seq<Action>) {
    forall act :: act in actions ==> !act.Serve?
  }

  /** Missing, unreadable, empty, or a list that fails validation: nothing to restore from. */
  ghost predicate NothingToRestore(sn: ServerNet, o: LoadOutcome)
    requires sn.Valid()
  {
    !o.Loaded? || o.entries == [] || !ValidSet(sn, o.entries)
  }

  ghost predicate Kept(sn: ServerNet, m: Machine, t: Table, live: string)
    requires sn.Valid()
  {
    && m.s.table == t && m.s.live == live
    && match m.pc
       case HardPending | HardCount | EmptyCount | HealListing | HealSave(_) | Latch(_) | Booted(_) => true
       case ReplacePending(es) => !ValidSet(sn, es)
       case _ => false
  }

  lemma {:induction false} KeptStays(sn: ServerNet, seed: seq<Entry>, m: Machine, t: Table, live: string,
                                     actions: seq<Action>)
    requires sn.Valid() && Kept(sn, m, t, live) && t.rows != map[] && NoServe(actions)
    ensures Run(sn, seed, m, actions).s.table == t && Run(sn, seed, m, actions).s.live == live
    decreases |actions|
  {
    if actions != [] {
      assert actions[0] in actions;
      KeptStays(sn, seed, Next(sn, seed, m, actions[0]), t, live, actions[1..]);
    }
  }

  /** Boot never loses peers: when the store has nothing to offer (missing, empty, invalid, or a
      hard error), a table with rows is left exactly as it was, whatever the poller does meanwhile
      and whatever fails. Nor is it applied: the live interface stays what it was, converged or not. */
  lemma {:induction false} BootNeverLosesPeers(sn: ServerNet, seed: seq<Entry>, m: Machine, actions: seq<Action>)
    requires sn.Valid() && m.pc.NotBooted? && m.s.table.rows != map[] && NoServe(actions)
    requires FirstLoad(actions).Some? ==> NothingToRestore(sn, FirstLoad(actions).value)
    ensures Run(sn, seed, m, actions).s.table == m.s.table && Run(sn, seed, m, actions).s.live == m.s.live
    decreases |actions|
  {
    if actions != [] {
      assert actions[0] in actions;
      var next := Next(sn, seed, m, actions[0]);
      if actions[0].Boot? {
        KeptStays(sn, seed, next, m.s.table, m.s.live, actions[1..]);
      } else {
        BootNeverLosesPeers(sn, seed, next, actions[1..]);
      }
    }
  }

  /** The table holds exactly these entries, each enabled and without a note. */
  ghost predicate Restored(rows: Rows, es: seq<Entry>) {
    && (forall k :: k in rows <==> k in Keys(es))
    && forall e :: e in es ==>
         && e.publicKey in rows && ToEntry(rows[e.publicKey]) == e
         && rows[e.publicKey].enabled && rows[e.publicKey].note.None?
  }

  lemma {:induction false} WantHasEntries(es: seq<Entry>, now: int)
    requires DistinctEntries(es)
    ensures var want := WantByKey(Wanted(es, now));
            && want.Keys == Keys(es)
            && forall e :: e in es ==>
                 want[e.publicKey] == Client(0, e.name, e.publicKey, e.address, true, None, now, now)
    decreases |es|
  {
    if es != [] {
      var init, e := es[..|es| - 1], es[|es| - 1];
      assert es == init + [e];
      assert Wanted(es, now)[..|es| - 1] == Wanted(init, now);
      DistinctOneMore(init, e);
      SeenOneMore(init, e);
      WantHasEntries(init, now);
    }
  }

  lemma CommittedReplaceRestores(sn: ServerNet, t: Table, es: seq<Entry>, now: int, o: Orders)
    requires sn.Valid() && ValidTable(t) && ValidSet(sn, es)
    requires ValidOrders(o, t.rows, WantByKey(Wanted(es, now)))
    ensures var r := Replace(t, WantByKey(Wanted(es, now)), o); r.Some? ==> Restored(r.value.rows, es)
  {
    var want := WantByKey(Wanted(es, now));
    WantIsKeyed(Wanted(es, now));
    WantHasEntries(es, now);
    RO.ReplaceIsExact(t, want, o);
    var r := Replace(t, want, o);
    if r.Some? {
      forall e | e in es
        ensures e.publicKey in r.value.rows && ToEntry(r.value.rows[e.publicKey]) == e
        ensures r.value.rows[e.publicKey].enabled && r.value.rows[e.publicKey].note.None?
      {
        RO.RowExactHolds(t, want, e.publicKey, r.value.rows[e.publicKey]);
      }
    }
  }

  /** The row a committed bulk replace leaves for an entry: an old row keeps its id and created_at, and
      its updated_at too unless the replace changed something; a new one is stamped now. */
  ghost predicate ReplacedRow(t: Table, e: Entry, now: int, r: Client) {
    && r.name == e.name && r.publicKey == e.publicKey && r.address == e.address && r.enabled && r.note.None?
    && if e.publicKey in t.rows then
         var was := t.rows[e.publicKey];
         && r.id == was.id && r.createdAt == was.createdAt
         && r.updatedAt == if was.name == e.name && was.address == e.address && was.enabled && was.note.None?
                           then was.updatedAt else now
       else r.id >= t.nextId && r.createdAt == now && r.updatedAt == now
  }

  /** A committed bulk replace leaves exactly the entries' keys, and each row as ReplacedRow says. */
  lemma CommittedReplaceRows(sn: ServerNet, t: Table, es: seq<Entry>, now: int, o: Orders)
    requires sn.Valid() && ValidTable(t) && ValidSet(sn, es)
    requires ValidOrders(o, t.rows, WantByKey(Wanted(es, now)))
    ensures var r := Replace(t, WantByKey(Wanted(es, now)), o);
            r.Some? ==> r.value.rows.Keys == Keys(es)
                        && forall e :: e in es ==> ReplacedRow(t, e, now, r.value.rows[e.publicKey])
  {
    var want := WantByKey(Wanted(es, now));
    WantIsKeyed(Wanted(es, now));
    WantHasEntries(es, now);
    RO.ReplaceIsExact(t, want, o);
    var r := Replace(t, want, o);
    if r.Some? {
      forall e | e in es ensures ReplacedRow(t, e, now, r.value.rows[e.publicKey]) {
        assert RO.RowExact(t, want, e.publicKey, r.value.rows[e.publicKey]);
      }
    }
  }

  /** Where a boot that loaded `es` can be, and what the table is once it has succeeded. */
  ghost predicate Restoring(m: Machine, es: seq<Entry>, sn: ServerNet)
    requires sn.Valid()
  {
    && ValidTable(m.s.table)
    && (m.pc == ReplacePending(es) || m.pc.Latch? || m.pc.Booted?)
    && (m.pc == Latch(true) || m.pc == Booted(true) ==> Restored(m.s.table.rows, es) && ValidSet(sn, es))
  }

  lemma NilReplaceRestores(sn: ServerNet, s: State, es: seq<Entry>, w: World)
    requires sn.Valid() && ValidTable(s.table) && OrdersFit(s, es, w)
    ensures ReplaceAll(sn, s, es, w).1.None? ==>
              ValidSet(sn, es) && Restored(ReplaceAll(sn, s, es, w).0.table.rows, es)
  {
    ReplaceShape(sn, s, es, w);
    if ReplaceAll(sn, s, es, w).1.None? {
      CommittedReplaceRestores(sn, s.table, es, w.now, w.orders);
    }
  }

  /** The table a bulk replace has committed: the entries' keys, and each row as ReplacedRow says. */
  ghost predicate Replaced(before: Table, es: seq<Entry>, now: int, after: Table) {
    && after.rows.Keys == Keys(es)
    && forall e :: e in es ==> ReplacedRow(before, e, now, after.rows[e.publicKey])
  }

  /** A ReplaceAll that returns nil has committed and is live; a failed one changed nothing, or committed
      and then failed as FailedAfterWrite says, or only could not list the rows it returns. */
  lemma ReplaceAllOutcome(sn: ServerNet, s: State, es: seq<Entry>, w: World)
    requires sn.Valid() && ValidTable(s.table) && OrdersFit(s, es, w)
    ensures var (t, e) := ReplaceAll(sn, s, es, w);
            && (e.None? ==> Replaced(s.table, es, w.now, t.table) && t.live == Render(t.table.rows))
            && (e.Some? ==> t == s || (&& Replaced(s.table, es, w.now, t.table)
                                       && (|| FailedAfterWrite(s, t, w, true, e.value)
                                           || (ReturnList in w.faults && t.live == Render(t.table.rows)))))
  {
    if ValidSet(sn, es) {
      var r := Replace(s.table, WantByKey(Wanted(es, w.now)), w.orders);
      var (t, e) := WriteThenFinish(s, r, w, true);
      assert r.Some? ==> Replaced(s.table, es, w.now, r.value) by {
        CommittedReplaceRows(sn, s.table, es, w.now, w.orders);
      }
      WrittenTable(s, r, w, true);
      assert ReplaceAll(sn, s, es, w) ==
             (t, if e.Some? then e else if ReturnList in w.faults then Some(DbFault) else None);
    }
  }

  lemma PendingStep(sn: ServerNet, seed: seq<Entry>, m: Machine, es: seq<Entry>, w: World)
    requires sn.Valid() && m.pc == ReplacePending(es)
    ensures var (s1, e) := ReplaceAll(sn, m.s, es, w); BootStep(sn, seed, m, w) == Machine(Latch(e.None?), s1)
  {
  }

  lemma LateStep(sn: ServerNet, seed: seq<Entry>, m: Machine, w: World)
    requires sn.Valid() && (m.pc.Latch? || m.pc.Booted?)
    ensures var next := BootStep(sn, seed, m, w);
            next.s.table == m.s.table && next.pc == Booted(if m.pc.Latch? then m.pc.arm else m.pc.ok)
  {
  }

  lemma RestoringBoot(sn: ServerNet, seed: seq<Entry>, m: Machine, es: seq<Entry>, w: World)
    requires sn.Valid() && Restoring(m, es, sn) && (m.pc.ReplacePending? ==> OrdersFit(m.s, es, w))
    requires ValidTable(BootStep(sn, seed, m, w).s.table)
    ensures Restoring(BootStep(sn, seed, m, w), es, sn)
  {
    if m.pc.ReplacePending? {
      PendingStep(sn, seed, m, es, w);
      NilReplaceRestores(sn, m.s, es, w);
    } else {
      LateStep(sn, seed, m, w);
    }
  }

  lemma RecheckKeepsTable(s: State, w: World)
    ensures RecheckStore(s, w).0.table == s.table
  {
  }

  lemma RestoringStep(sn: ServerNet, seed: seq<Entry>, m: Machine, es: seq<Entry>, act: Action)
    requires sn.Valid() && Restoring(m, es, sn) && Enabled(m, act) && !act.Serve?
    ensures Restoring(Next(sn, seed, m, act), es, sn)
  {
    if act.Boot? {
      NextKeepsValid(sn, seed, m, act);
      RestoringBoot(sn, seed, m, es, act.w);
    } else {
      RecheckKeepsTable(m.s, act.w);
      assert Next(sn, seed, m, act).pc == m.pc && Next(sn, seed, m, act).s.table == m.s.table;
    }
  }

  lemma {:induction false} RestoringStays(sn: ServerNet, seed: seq<Entry>, m: Machine, es: seq<Entry>,
                                          actions: seq<Action>)
    requires sn.Valid() && Restoring(m, es, sn) && EnabledRun(sn, seed, m, actions) && NoServe(actions)
    ensures Restoring(Run(sn, seed, m, actions), es, sn)
    decreases |actions|
  {
    if actions != [] {
      assert actions[0] in actions;
      RestoringStep(sn, seed, m, es, actions[0]);
      RestoringStays(sn, seed, Next(sn, seed, m, actions[0]), es, actions[1..]);
    }
  }

  /** When the store holds a non-empty list and boot returns nil, the list was valid and the
      table is exactly that list, every row enabled and its note cleared. */
  lemma {:induction false} BootRestoresExactly(sn: ServerNet, seed: seq<Entry>, m: Machine, es: seq<Entry>,
                                               actions: seq<Action>)
    requires sn.Valid() && Fresh(m) && EnabledRun(sn, seed, m, actions) && NoServe(actions)
    requires FirstLoad(actions) == Some(Loaded(es)) && es != []
    requires Run(sn, seed, m, actions).pc == Booted(true)
    ensures Restored(Run(sn, seed, m, actions).s.table.rows, es) && ValidSet(sn, es)
    decreases |actions|
  {
    assert actions[0] in actions;
    var next := Next(sn, seed, m, actions[0]);
    if actions[0].Boot? {
      RestoringStays(sn, seed, next, es, actions[1..]);
    } else {
      BootRestoresExactly(sn, seed, next, es, actions[1..]);
    }
  }

  lemma RestoredIsSame(t: Table, es: seq<Entry>, now: int)
    requires DistinctEntries(es) && Restored(t.rows, es)
    ensures var want := WantByKey(Wanted(es, now));
            want.Keys == t.rows.Keys && forall k :: k in want ==> Same(t.rows[k], want[k])
  {
    var want := WantByKey(Wanted(es, now));
    WantHasEntries(es, now);
    forall k | k in want ensures k in t.rows && Same(t.rows[k], want[k]) {
      var e :| e in es && e.publicKey == k;
    }
  }

  lemma SameDependsOnNothing(rows: Rows, want: Rows)
    requires Injective(rows) && want.Keys == rows.Keys && forall k :: k in want ==> Same(rows[k], want[k])
    ensures Injective(want) && forall j, k :: !RO.DependsOn(rows, want, k, j)
  {
    forall j, k | j in want && k in want && j != k
      ensures want[j].name != want[k].name && want[j].address != want[k].address
    {
      assert Same(rows[j], want[j]) && Same(rows[k], want[k]);
    }
  }

  lemma SameIsIdentity(t: Table, want: Rows, o: Orders)
    requires ValidTable(t) && Keyed(want) && ValidOrders(o, t.rows, want)
    requires want.Keys == t.rows.Keys && forall k :: k in want ==> Same(t.rows[k], want[k])
    ensures var r := Replace(t, want, o); r.Some? && r.value.rows == t.rows
  {
    SameDependsOnNothing(t.rows, want);
    RO.ReplaceCommitsIff(t, want, o);
    RO.ReplaceIsExact(t, want, o);
    var r := Replace(t, want, o).value.rows;
    assert forall k :: k in want ==> r[k] == t.rows[k];
  }

  /** Replacing a table by the set it already holds commits in every order and alters no row,
      not even an updated_at. */
  lemma ReplaceByItselfIsIdentity(t: Table, es: seq<Entry>, now: int, o: Orders)
    requires ValidTable(t) && DistinctEntries(es) && Restored(t.rows, es)
    requires ValidOrders(o, t.rows, WantByKey(Wanted(es, now)))
    ensures var r := Replace(t, WantByKey(Wanted(es, now)), o); r.Some? && r.value.rows == t.rows
  {
    WantIsKeyed(Wanted(es, now));
    RestoredIsSame(t, es, now);
    SameIsIdentity(t, WantByKey(Wanted(es, now)), o);
  }

  ghost predicate Unaltered(m: Machine, rows: Rows, es: seq<Entry>) {
    && ValidTable(m.s.table) && m.s.table.rows == rows
    && (m.pc == ReplacePending(es) || m.pc.Latch? || m.pc.Booted?)
  }

  lemma ReplaceByItselfKeepsRows(sn: ServerNet, s: State, es: seq<Entry>, w: World)
    requires sn.Valid() && ValidTable(s.table) && OrdersFit(s, es, w) && Restored(s.table.rows, es)
    ensures ReplaceAll(sn, s, es, w).0.table.rows == s.table.rows
  {
    if ValidSet(sn, es) {
      ReplaceByItselfIsIdentity(s.table, es, w.now, w.orders);
      ReplaceShape(sn, s, es, w);
    }
  }

  lemma UnalteredBoot(sn: ServerNet, seed: seq<Entry>, m: Machine, rows: Rows, es: seq<Entry>, w: World)
    requires sn.Valid() && Unaltered(m, rows, es) && Restored(rows, es)
    requires m.pc.ReplacePending? ==> OrdersFit(m.s, es, w)
    ensures var next := BootStep(sn, seed, m, w); next.s.table.rows == rows && (next.pc.Latch? || next.pc.Booted?)
  {
    if m.pc.ReplacePending? {
      PendingStep(sn, seed, m, es, w);
      ReplaceByItselfKeepsRows(sn, m.s, es, w);
    } else {
      LateStep(sn, seed, m, w);
    }
  }

  lemma UnalteredStep(sn: ServerNet, seed: seq<Entry>, m: Machine, rows: Rows, es: seq<Entry>, act: Action)
    requires sn.Valid() && Unaltered(m, rows, es) && Restored(rows, es) && Enabled(m, act) && !act.Serve?
    ensures Unaltered(Next(sn, seed, m, act), rows, es)
  {
    NextKeepsValid(sn, seed, m, act);
    if act.Boot? {
      UnalteredBoot(sn, seed, m, rows, es, act.w);
    } else {
      RecheckKeepsTable(m.s, act.w);
    }
  }

  lemma {:induction false} UnalteredStays(sn: ServerNet, seed: seq<Entry>, m: Machine, rows: Rows, es: seq<Entry>,
                                          actions: seq<Action>)
    requires sn.Valid() && Unaltered(m, rows, es) && Restored(rows, es)
    requires EnabledRun(sn, seed, m, actions) && NoServe(actions)
    ensures Run(sn, seed, m, actions).s.table.rows == rows
    decreases |actions|
  {
    if actions != [] {
      assert actions[0] in actions;
      UnalteredStep(sn, seed, m, rows, es, actions[0]);
      UnalteredStays(sn, seed, Next(sn, seed, m, actions[0]), rows, es, actions[1..]);
    }
  }

  /** A boot that loads what the table already holds alters no row at any of its steps. */
  lemma {:induction false} RebootAltersNothing(sn: ServerNet, seed: seq<Entry>, m: Machine, es: seq<Entry>,
                                               actions: seq<Action>)
    requires sn.Valid() && Fresh(m) && EnabledRun(sn, seed, m, actions) && NoServe(actions)
    requires FirstLoad(actions) == Some(Loaded(es)) && es != [] && Restored(m.s.table.rows, es)
    ensures Run(sn, seed, m, actions).s.table.rows == m.s.table.rows
    decreases |actions|
  {
    assert actions[0] in actions;
    var next := Next(sn, seed, m, actions[0]);
    if actions[0].Boot? {
      UnalteredStays(sn, seed, next, m.s.table.rows, es, actions[1..]);
    } else {
      RebootAltersNothing(sn, seed, next, es, actions[1..]);
    }
  }

  /** The same process restarted: latch re-armed, nothing done yet. */
  ghost function Restart(m: Machine): Machine {
    Machine(NotBooted, m.s.(ready := true, trace := []))
  }
}
