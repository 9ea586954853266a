/** Convergence of the live interface and the store with the table, over arbitrary runs. */
module PeerConvergence {
  import opened Wrappers
  import opened Ordering
  import opened Alloc
  import opened Types
  import opened Validate
  import opened ClientTable
  import opened Listing
  import opened PeerService
  import RO = ReplaceOrder

  datatype Op =
    | AddOp(add: AddParams)
    | UpdateOp(name: string, update: UpdateParams)
    | ReplaceOp(entries: seq<Entry>)
    | DeleteOp(name: string)
    | ReconcileOp
    | RecheckOp

  /** The world offers iteration orders that fit the maps of a bulk replace. */
  ghost predicate Fits(s: State, op: Op, w: World) {
    op.ReplaceOp? ==> OrdersFit(s, op.entries, w)
  }

  /** One operation; the flag says whether it returned nil. */
  ghost function Step(sn: ServerNet, s: State, op: Op, w: World): (State, bool)
    requires sn.Valid()
  {
    match op
    case AddOp(p) => var (t, r) := Add(sn, s, p, w); (t, r.Success?)
    case UpdateOp(n, p) => var (t, r) := Update(sn, s, n, p, w); (t, r.Success?)
    case ReplaceOp(es) => var (t, e) := ReplaceAll(sn, s, es, w); (t, e.None?)
    case DeleteOp(n) => var (t, e) := Delete(s, n, w); (t, e.None?)
    case ReconcileOp => var (t, e) := Reconcile(s, w); (t, e.None?)
    case RecheckOp => var (t, e) := RecheckStore(s, w); (t, e.None?)
  }

  /** Nothing but the table differs. */
  ghost predicate OnlyTable(s: State, t: State) { t == s.(table := t.table) }

  /** Every operation but the recheck is: change the table, then Finish (or stop before that). */
  ghost predicate IsTableThenFinish(s: State, t: State, ok: bool, w: World) {
    || (t == s && !ok)
    || exists mid: State, wt: bool ::
         OnlyTable(s, mid) && t == Finish(mid, w, wt).0 && (ok ==> Finish(mid, w, wt).1.None?)
  }

  lemma FinishKeepsTable(s: State, w: World, wt: bool)
    ensures Finish(s, w, wt).0.table == s.table
  {
  }

  lemma WriteShape(s: State, t: Option<Table>, w: World, wt: bool)
    ensures var (r, e) := WriteThenFinish(s, t, w, wt);
            && IsTableThenFinish(s, r, e.None?, w)
            && (r == s || (t.Some? && r.table == t.value && r == Finish(s.(table := t.value), w, wt).0))
            && (e.None? ==> t.Some? && r.table == t.value)
  {
    var (r, e) := WriteThenFinish(s, t, w, wt);
    if WriteRow !in w.faults && t.Some? {
      var mid := s.(table := t.value);
      FinishKeepsTable(mid, w, wt);
      assert OnlyTable(s, mid) && r == Finish(mid, w, wt).0;
    }
  }

  /** The write-through would reach Save: armed, local mode, or the probe gets an answer. */
  ghost predicate StoreOpens(s: State, w: World) { s.ready || s.backend.Noop? || !w.load.LoadFailed? }

  /** What a write and its tail need to go through. A Save that fails is not among it. */
  ghost predicate TailGoesThrough(s: State, w: World, writeThrough: bool) {
    && WriteRow !in w.faults && ApplyList !in w.faults && w.apply.Applied?
    && (writeThrough && StoreOpens(s, w) ==> SaveList !in w.faults)
  }

  lemma WriteSucceedsIff(s: State, t: Option<Table>, w: World, writeThrough: bool)
    ensures WriteThenFinish(s, t, w, writeThrough).1.None? <==> t.Some? && TailGoesThrough(s, w, writeThrough)
  {
  }

  lemma AddPlannedShape(s: State, plan: Result<Client, Error>, w: World)
    ensures var (t, r) := AddPlanned(s, plan, w);
            && IsTableThenFinish(s, t, r.Success?, w)
            && (t == s || (plan.Success? && InsertRow(s.table, plan.value) == Some(t.table)))
  {
    if plan.Success? { WriteShape(s, InsertRow(s.table, plan.value), w, true); }
  }

  lemma AddShape(sn: ServerNet, s: State, p: AddParams, w: World)
    requires sn.Valid()
    ensures var (t, r) := Add(sn, s, p, w); IsTableThenFinish(s, t, r.Success?, w)
    ensures var t := Add(sn, s, p, w).0;
            t == s || exists c :: InsertRow(s.table, c) == Some(t.table)
  {
    AddPlannedShape(s, AdmitAdd(sn, List(s.table.rows), p, w), w);
  }

  lemma ReplaceShape(sn: ServerNet, s: State, es: seq<Entry>, w: World)
    requires sn.Valid()
    ensures var (t, e) := ReplaceAll(sn, s, es, w);
            && IsTableThenFinish(s, t, e.None?, w)
            && (t == s || Replace(s.table, WantByKey(Wanted(es, w.now)), w.orders) == Some(t.table))
            && (e.None? ==>
                  ValidSet(sn, es) && Replace(s.table, WantByKey(Wanted(es, w.now)), w.orders) == Some(t.table))
  {
    var r := Replace(s.table, WantByKey(Wanted(es, w.now)), w.orders);
    var (t, e) := WriteThenFinish(s, r, w, true);
    WriteShape(s, r, w, true);
    if ValidSet(sn, es) {
      assert ReplaceAll(sn, s, es, w).0 == t;
    }
  }

  /** Update changed nothing, or wrote one planned row. */
  ghost predicate WroteRow(sn: ServerNet, s: State, t: State, k: string, c: Client, p: UpdateParams, w: World)
    requires sn.Valid()
  {
    && k in s.table.rows
    && PlanUpdate(sn, List(s.table.rows), s.table.rows[k], p, w.now) == Success(c)
    && UpdateTable(s.table, k, c) == Some(t.table)
    && t == Finish(s.(table := t.table), w, p.Canonical()).0
  }

  lemma UpdateAtShape(sn: ServerNet, s: State, k: string, p: UpdateParams, w: World)
    requires sn.Valid() && k in s.table.rows
    ensures var (t, r) := UpdateAt(sn, s, k, p, w);
            && IsTableThenFinish(s, t, r.Success?, w)
            && (t == s || exists c :: WroteRow(sn, s, t, k, c, p, w))
  {
    var plan := PlanUpdate(sn, List(s.table.rows), s.table.rows[k], p, w.now);
    if plan.Success? {
      WriteShape(s, UpdateTable(s.table, k, plan.value), w, p.Canonical());
      var t := UpdateAt(sn, s, k, p, w).0;
      assert t == s || WroteRow(sn, s, t, k, plan.value, p, w);
    }
  }

  lemma UpdateShape(sn: ServerNet, s: State, name: string, p: UpdateParams, w: World)
    requires sn.Valid()
    ensures var (t, r) := Update(sn, s, name, p, w); IsTableThenFinish(s, t, r.Success?, w)
    ensures var (t, r) := Update(sn, s, name, p, w);
            t == s || exists k, c :: WroteRow(sn, s, t, k, c, p, w)
  {
    forall k | HasName(s.table.rows, k, name) {
      UpdateAtShape(sn, s, k, p, w);
    }
  }

  /** Every operation but the recheck stops early or writes the table and finishes. */
  lemma Shape(sn: ServerNet, s: State, op: Op, w: World)
    requires sn.Valid() && !op.RecheckOp?
    ensures var (t, ok) := Step(sn, s, op, w); IsTableThenFinish(s, t, ok, w)
  {
    match op
    case AddOp(p) => AddShape(sn, s, p, w);
    case UpdateOp(n, p) => UpdateShape(sn, s, n, p, w);
    case ReplaceOp(es) => ReplaceShape(sn, s, es, w);
    case DeleteOp(n) => WriteShape(s, Some(s.table.(rows := DeleteByName(s.table.rows, n))), w, true);
    case ReconcileOp => assert OnlyTable(s, s) && Finish(s, w, false) == Reconcile(s, w);
  }

  lemma FinishNil(s: State, w: World, wt: bool)
    ensures Finish(s, w, wt).1.None? ==> Finish(s, w, wt).0.live == Render(Finish(s, w, wt).0.table.rows)
  {
  }

  /** Whatever failed before, an operation that returns nil leaves the live interface equal to
      the rendering of the table. */
  lemma NilMeansLiveConverged(sn: ServerNet, s: State, op: Op, w: World)
    requires sn.Valid() && !op.RecheckOp?
    ensures var (t, ok) := Step(sn, s, op, w); ok ==> t.live == Render(t.table.rows)
  {
    Shape(sn, s, op, w);
    forall mid: State, wt: bool { FinishNil(mid, w, wt); }
  }

  /** The events an operation adds. */
  ghost function Delta(s: State, t: State): seq<Event> {
    if |s.trace| <= |t.trace| then t.trace[|s.trace|..] else []
  }

  /** The calls of one mutation: apply the listed rows; if that worked, perhaps probe the store,
      and save the projection of the very list just applied. */
  ghost predicate MutationCalls(d: seq<Event>, list: seq<Client>) {
    || d == []
    || d == [DidApply(list, false)]
    || d == [DidApply(list, true)]
    || d == [DidApply(list, true), DidLoad(LoadFailed)]
    || (exists o: LoadOutcome :: !o.LoadFailed? && d == [DidApply(list, true), DidLoad(o)])
    || (exists saved :: d == [DidApply(list, true), DidSave(ToEntries(list), saved)])
    || (exists o: LoadOutcome, saved ::
          !o.LoadFailed? && d == [DidApply(list, true), DidLoad(o), DidSave(ToEntries(list), saved)])
  }

  lemma ApplyCalls(s: State, w: World)
    ensures var (t, e) := ApplyLocked(s, w);
            && t == s.(live := t.live, trace := t.trace)
            && (if e.None? then t.trace == s.trace + [DidApply(List(s.table.rows), true)]
                else t.trace == s.trace || t.trace == s.trace + [DidApply(List(s.table.rows), false)])
  {
  }

  /** saveStoreLocked adds nothing, a probe, a save, or a good probe and a save. */
  ghost predicate StoreCalls(d: seq<Event>, es: seq<Entry>) {
    || d == []
    || d == [DidLoad(LoadFailed)]
    || (exists o: LoadOutcome :: !o.LoadFailed? && d == [DidLoad(o)])
    || (exists saved :: d == [DidSave(es, saved)])
    || (exists o: LoadOutcome, saved :: !o.LoadFailed? && d == [DidLoad(o), DidSave(es, saved)])
  }

  /** The store holds the canonical form of the table. */
  ghost predicate Agrees(s: State) {
    s.backend.S3? && s.backend.stored == Some(Canonical(Projection(s.table.rows)))
  }

  /** The calls end with a successful Save. */
  ghost predicate SavedLast(d: seq<Event>) { d != [] && d[|d| - 1].DidSave? && d[|d| - 1].ok }

  lemma ProbeCalls(s: State, w: World)
    ensures var t := Heal(s, w).0;
            t.trace == s.trace + (if s.backend.Noop? then [] else [DidLoad(w.load)]) && t.table == s.table
  {
  }

  lemma SaveCalls(s: State, es: seq<Entry>, w: World)
    ensures var t := DoSave(s, es, w).0;
            && t.trace == s.trace + (if s.backend.Noop? then [] else [DidSave(es, w.save.Saved?)])
            && t.table == s.table
            && (w.save.Saved? && s.backend.S3? ==> t.backend == S3(Some(Canonical(es))))
  {
  }

  lemma DeltaIs(s: State, t: State, d: seq<Event>)
    requires t.trace == s.trace + d
    ensures Delta(s, t) == d
  {
  }

  /** One call, then those of the rest. */
  lemma TailDelta(s: State, s1: State, t: State, a: Event)
    requires s1.trace == s.trace + [a] && t.trace == s1.trace + Delta(s1, t)
    ensures t.trace == s.trace + Delta(s, t) && Delta(s, t) == [a] + Delta(s1, t)
  {
    assert t.trace == s.trace + ([a] + Delta(s1, t));
    DeltaIs(s, t, [a] + Delta(s1, t));
  }

  lemma StoreCallsOf(s: State, w: World)
    ensures var t := SaveStoreLocked(s, w).0;
            && t.trace == s.trace + Delta(s, t) && t.table == s.table
            && StoreCalls(Delta(s, t), Projection(s.table.rows))
            && (SavedLast(Delta(s, t)) ==> Agrees(t))
  {
    var es, t := Projection(s.table.rows), SaveStoreLocked(s, w).0;
    var probe := if s.ready || s.backend.Noop? then [] else [DidLoad(w.load)];
    var s1 := if s.ready then s else Heal(s, w).0;
    ProbeCalls(s, w);
    assert s1.trace == s.trace + probe && s1.table == s.table && s1.backend == s.backend;
    if s1.ready && SaveList !in w.faults {
      SaveCalls(s1, es, w);
      var save := if s.backend.Noop? then [] else [DidSave(es, w.save.Saved?)];
      assert t.trace == s.trace + (probe + save);
      DeltaIs(s, t, probe + save);
      assert StoreCalls(probe + save, es);
    } else {
      assert t == s1;
      DeltaIs(s, t, probe);
    }
  }

  lemma StoreCallsMakeMutationCalls(d: seq<Event>, list: seq<Client>)
    requires StoreCalls(d, ToEntries(list))
    ensures MutationCalls([DidApply(list, true)] + d, list)
  {
    var a := DidApply(list, true);
    if o: LoadOutcome :| !o.LoadFailed? && d == [DidLoad(o)] {
      assert [a] + d == [a, DidLoad(o)];
    } else if saved :| d == [DidSave(ToEntries(list), saved)] {
      assert [a] + d == [a, DidSave(ToEntries(list), saved)];
    } else if o: LoadOutcome, saved :| !o.LoadFailed? && d == [DidLoad(o), DidSave(ToEntries(list), saved)] {
      assert [a] + d == [a, DidLoad(o), DidSave(ToEntries(list), saved)];
    } else if d == [] {
      assert [a] + d == [a];
    } else {
      assert [a] + d == [a, DidLoad(LoadFailed)];
    }
  }

  lemma FinishCalls(s: State, w: World, wt: bool)
    ensures var t := Finish(s, w, wt).0;
            t.trace == s.trace + Delta(s, t) && MutationCalls(Delta(s, t), List(t.table.rows))
  {
    var t := Finish(s, w, wt).0;
    var list := List(s.table.rows);
    ApplyCalls(s, w);
    var (s1, e) := ApplyLocked(s, w);
    if e.None? && wt {
      StoreCallsOf(s1, w);
      TailDelta(s, s1, t, DidApply(list, true));
      StoreCallsMakeMutationCalls(Delta(s1, t), list);
    } else {
      assert t == s1;
    }
  }

  /** The saved set is always the set just applied, over every mutation and failure pattern. */
  lemma SavedSetWasApplied(sn: ServerNet, s: State, op: Op, w: World)
    requires sn.Valid() && !op.RecheckOp?
    ensures var t := Step(sn, s, op, w).0;
            t.trace == s.trace + Delta(s, t) && MutationCalls(Delta(s, t), List(t.table.rows))
  {
    Shape(sn, s, op, w);
    var (t, ok) := Step(sn, s, op, w);
    if t != s {
      var mid: State, wt: bool :| OnlyTable(s, mid) && t == Finish(mid, w, wt).0;
      FinishCalls(mid, w, wt);
    }
  }

  lemma LastOfTail(a: Event, d: seq<Event>)
    requires a.DidApply?
    ensures SavedLast([a] + d) <==> SavedLast(d)
  {
    if d != [] { assert ([a] + d)[|d|] == d[|d| - 1]; }
  }

  lemma FinishSaves(s: State, w: World, wt: bool)
    ensures var t := Finish(s, w, wt).0; SavedLast(Delta(s, t)) ==> Agrees(t)
  {
    var t := Finish(s, w, wt).0;
    ApplyCalls(s, w);
    var (s1, e) := ApplyLocked(s, w);
    if e.None? && wt {
      StoreCallsOf(s1, w);
      var a := DidApply(List(s.table.rows), true);
      TailDelta(s, s1, t, a);
      LastOfTail(a, Delta(s1, t));
    } else {
      assert t == s1;
    }
  }

  /** A mutation whose Save succeeds leaves the store equal to the canonical table. */
  lemma SuccessfulSaveAgrees(sn: ServerNet, s: State, op: Op, w: World)
    requires sn.Valid() && !op.RecheckOp?
    ensures var t := Step(sn, s, op, w).0; SavedLast(Delta(s, t)) ==> Agrees(t)
  {
    Shape(sn, s, op, w);
    var (t, ok) := Step(sn, s, op, w);
    if t != s {
      var mid: State, wt: bool :| OnlyTable(s, mid) && t == Finish(mid, w, wt).0;
      FinishSaves(mid, w, wt);
    }
  }

  ghost predicate SameEntries(a: Rows, b: Rows) {
    a.Keys == b.Keys && forall k :: k in a ==> ToEntry(a[k]) == ToEntry(b[k])
  }

  ghost function EntrySet(rows: Rows): set<Entry> { set k | k in rows :: ToEntry(rows[k]) }

  lemma ListHasNoRepeats(rows: Rows)
    requires Keyed(rows)
    ensures forall i, j :: 0 <= i < j < |List(rows)| ==> List(rows)[i] != List(rows)[j]
  {
    ListHasRows(rows);
    forall i, j | 0 <= i < j < |List(rows)| ensures List(rows)[i] != List(rows)[j] {
      if List(rows)[i] == List(rows)[j] { RepeatCountsTwice(List(rows), i, j); }
    }
  }

  lemma ProjectionIsEntrySet(rows: Rows)
    requires Keyed(rows) && Injective(rows)
    ensures multiset(Projection(rows)) == multiset(EntrySet(rows))
  {
    var list, es := List(rows), Projection(rows);
    ListHasRows(rows);
    ListHasNoRepeats(rows);
    forall i, j | 0 <= i < j < |es| ensures es[i] != es[j] {
      assert list[i] in list && list[j] in list;
    }
    NoRepeatMultiset(es);
    forall e ensures e in es <==> e in EntrySet(rows) {
      if e in es {
        var i :| 0 <= i < |es| && es[i] == e;
        assert list[i] in list;
      }
      if e in EntrySet(rows) {
        var k :| k in rows && ToEntry(rows[k]) == e;
        assert rows[k] in list;
        var i :| 0 <= i < |list| && list[i] == rows[k];
        assert es[i] == e;
      }
    }
    assert (set e | e in es) == EntrySet(rows);
  }

  lemma EntryLeqIsTotal()
    ensures TotalPreorder(EntryLeq)
  {
    forall x, y ensures EntryLeq(x, y) || EntryLeq(y, x) { LessTrichotomy(x.address, y.address); }
    forall x, y, z | EntryLeq(x, y) && EntryLeq(y, z) ensures EntryLeq(x, z) {
      LessTrichotomy(x.address, y.address);
      LessTrichotomy(y.address, z.address);
      LessTrichotomy(x.address, z.address);
      if Less(x.address, y.address) && Less(y.address, z.address) { LessTransitive(x.address, y.address, z.address); }
    }
  }

  /** The stored form holds the given entries in ascending byte order of their address text. */
  lemma CanonicalAscends(es: seq<Entry>)
    ensures multiset(Canonical(es)) == multiset(es)
    ensures forall i, j :: 0 <= i < j < |Canonical(es)| ==>
              var a, b := Canonical(es)[i].address, Canonical(es)[j].address; a == b || BytesBefore(a, b)
  {
    EntryLeqIsTotal();
    SortPermutes(es, EntryLeq);
    SortIsSorted(es, EntryLeq);
    forall i, j | 0 <= i < j < |Canonical(es)|
      ensures var a, b := Canonical(es)[i].address, Canonical(es)[j].address; a == b || BytesBefore(a, b)
    {
      var a, b := Canonical(es)[i].address, Canonical(es)[j].address;
      assert EntryLeq(Canonical(es)[i], Canonical(es)[j]);
      LessTrichotomy(a, b);
      LessIsByteOrder(a, b);
    }
  }

  /** Canonical is a normal form: any two arrangements of address-distinct entries agree. */
  lemma CanonicalIsNormalForm(a: seq<Entry>, b: seq<Entry>)
    requires multiset(a) == multiset(b)
    requires forall x, y :: x in multiset(a) && y in multiset(a) && x.address == y.address ==> x == y
    ensures Canonical(a) == Canonical(b)
  {
    EntryLeqIsTotal();
    SortPermutes(a, EntryLeq);
    SortPermutes(b, EntryLeq);
    SortIsSorted(a, EntryLeq);
    SortIsSorted(b, EntryLeq);
    forall x, y | x in multiset(Canonical(a)) && y in multiset(Canonical(a)) && EntryLeq(x, y) && EntryLeq(y, x)
      ensures x == y
    {
      LessTrichotomy(x.address, y.address);
    }
    SortedUnique(Canonical(a), Canonical(b), EntryLeq);
  }

  lemma SameEntriesSameCanonical(a: Rows, b: Rows)
    requires Keyed(a) && Injective(a) && Keyed(b) && Injective(b) && SameEntries(a, b)
    ensures Canonical(Projection(a)) == Canonical(Projection(b))
  {
    ProjectionIsEntrySet(a);
    ProjectionIsEntrySet(b);
    assert EntrySet(a) == EntrySet(b);
    forall x, y | x in multiset(Projection(a)) && y in multiset(Projection(a)) && x.address == y.address
      ensures x == y
    {
      assert x in EntrySet(a) && y in EntrySet(a);
    }
    CanonicalIsNormalForm(Projection(a), Projection(b));
  }

  lemma NonCanonicalPlanKeepsEntry(sn: ServerNet, existing: seq<Client>, c: Client, p: UpdateParams, now: int)
    requires sn.Valid() && !p.Canonical()
    ensures var plan := PlanUpdate(sn, existing, c, p, now); plan.Success? && ToEntry(plan.value) == ToEntry(c)
  {
  }

  lemma FinishWithoutStore(s: State, w: World)
    ensures var t := Finish(s, w, false).0;
            && t.backend == s.backend && t.ready == s.ready && t.table == s.table
            && forall e :: e in Delta(s, t) ==> e.DidApply?
  {
    var t := Finish(s, w, false).0;
    assert t.trace == s.trace + Delta(s, t);
  }

  lemma NonCanonicalWriteKeepsEntries(sn: ServerNet, s: State, t: State, k: string, c: Client, p: UpdateParams,
                                      w: World)
    requires sn.Valid() && ValidTable(s.table) && !p.Canonical() && WroteRow(sn, s, t, k, c, p, w)
    ensures Canonical(Projection(s.table.rows)) == Canonical(Projection(t.table.rows))
  {
    NonCanonicalPlanKeepsEntry(sn, List(s.table.rows), s.table.rows[k], p, w.now);
    UpdateKeepsValid(s.table, k, c);
    SameEntriesSameCanonical(s.table.rows, t.table.rows);
  }

  /** Enabling, disabling or annotating a client calls no store at all and keeps agreement. */
  lemma EnableOrNoteKeepsAgreement(sn: ServerNet, s: State, name: string, p: UpdateParams, w: World)
    requires sn.Valid() && ValidTable(s.table) && !p.Canonical()
    ensures var t := Update(sn, s, name, p, w).0;
            && t.backend == s.backend && t.ready == s.ready
            && (forall e :: e in Delta(s, t) ==> e.DidApply?)
            && (Agrees(s) ==> Agrees(t))
  {
    var t := Update(sn, s, name, p, w).0;
    UpdateShape(sn, s, name, p, w);
    if t != s {
      var k, c :| WroteRow(sn, s, t, k, c, p, w);
      FinishWithoutStore(s.(table := t.table), w);
      NonCanonicalWriteKeepsEntries(sn, s, t, k, c, p, w);
    }
  }

  lemma UpdateKeepsTableValid(sn: ServerNet, s: State, name: string, p: UpdateParams, w: World)
    requires sn.Valid() && ValidTable(s.table)
    ensures ValidTable(Update(sn, s, name, p, w).0.table)
  {
    var t := Update(sn, s, name, p, w).0;
    UpdateShape(sn, s, name, p, w);
    if t != s {
      var k, c :| WroteRow(sn, s, t, k, c, p, w);
      UpdateKeepsValid(s.table, k, c);
    }
  }

  lemma ReplaceKeepsValid(sn: ServerNet, s: State, es: seq<Entry>, w: World)
    requires sn.Valid() && ValidTable(s.table) && OrdersFit(s, es, w)
    ensures ValidTable(ReplaceAll(sn, s, es, w).0.table)
  {
    var want := WantByKey(Wanted(es, w.now));
    WantIsKeyed(Wanted(es, w.now));
    RO.ReplaceIsExact(s.table, want, w.orders);
    ReplaceShape(sn, s, es, w);
  }

  /** Every operation keeps the table valid. */
  lemma StepKeepsValid(sn: ServerNet, s: State, op: Op, w: World)
    requires sn.Valid() && ValidTable(s.table) && Fits(s, op, w)
    ensures ValidTable(Step(sn, s, op, w).0.table)
  {
    match op
    case AddOp(p) =>
      AddShape(sn, s, p, w);
      forall c { InsertKeepsValid(s.table, c); }
    case UpdateOp(n, p) => UpdateKeepsTableValid(sn, s, n, p, w);
    case ReplaceOp(es) => ReplaceKeepsValid(sn, s, es, w);
    case DeleteOp(n) =>
      WriteShape(s, Some(s.table.(rows := DeleteByName(s.table.rows, n))), w, true);
    case ReconcileOp =>
    case RecheckOp =>
  }
}
