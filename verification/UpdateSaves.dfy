/** When Update writes through: not exactly when a stored field changed (clients/service.go). */
module UpdateSaves {
  import opened Wrappers
  import opened Alloc
  import opened Types
  import opened ClientTable
  import opened Listing
  import opened PeerService
  import opened PeerConvergence
  import opened PeerOutcomes
  import opened WriteThrough

  /** The calls between two states include a successful Save. */
  ghost predicate Saved(s: State, t: State) { exists es :: DidSave(es, true) in Delta(s, t) }

  /** With a store that answers, the shared tail saves exactly when it is asked to write through. */
  lemma TailSavesIff(s: State, w: World, wt: bool)
    requires StoreAnswers(s, w)
    ensures var (t, e) := Finish(s, w, wt); e.None? ==> (Saved(s, t) <==> wt)
  {
    var (t, e) := Finish(s, w, wt);
    if e.None? {
      FinishWithoutStore(s, w);
      FinishCalls(s, w, wt);
      if wt {
        assert t.trace[|t.trace| - 1] == DidSave(Projection(s.table.rows), true);
        assert Delta(s, t)[|Delta(s, t)| - 1] == DidSave(Projection(s.table.rows), true);
      }
    }
  }

  lemma WriteSavesIff(s: State, t: Option<Table>, w: World, wt: bool)
    requires StoreAnswers(s, w)
    ensures var (r, e) := WriteThenFinish(s, t, w, wt); e.None? ==> (Saved(s, r) <==> wt)
  {
    if t.Some? {
      TailSavesIff(s.(table := t.value), w, wt);
      assert forall r :: Delta(s, r) == Delta(s.(table := t.value), r);
    }
  }

  lemma UpdateAtSavesIff(sn: ServerNet, s: State, k: string, p: UpdateParams, w: World)
    requires sn.Valid() && k in s.table.rows && StoreAnswers(s, w)
    ensures var (t, r) := UpdateAt(sn, s, k, p, w); r.Success? ==> (Saved(s, t) <==> p.Canonical())
  {
    var plan := PlanUpdate(sn, List(s.table.rows), s.table.rows[k], p, w.now);
    if plan.Success? { WriteSavesIff(s, UpdateTable(s.table, k, plan.value), w, p.Canonical()); }
  }

  /** A successful Update writes through exactly when a stored field is supplied. */
  lemma UpdateSavesIff(sn: ServerNet, s: State, name: string, p: UpdateParams, w: World)
    requires sn.Valid() && StoreAnswers(s, w)
    ensures var (t, r) := Update(sn, s, name, p, w); r.Success? ==> (Saved(s, t) <==> SuppliesStored(p))
  {
    forall k | HasName(s.table.rows, k, name) { UpdateAtSavesIff(sn, s, k, p, w); }
  }

  /** Some stored field is supplied with a value other than its present one. */
  predicate Changes(c: Client, p: UpdateParams) {
    || (p.name.Some? && p.name.value != c.name)
    || (p.publicKey.Some? && p.publicKey.value != c.publicKey)
    || (p.address.Some? && p.address.value != c.address)
  }

  /** The source's comment, of one successful Update: it wrote through exactly when the stored
      entry changed. */
  ghost predicate SavesOnChange(s: State, t: State, was: Client, c: Client) {
    Saved(s, t) <==> ToEntry(was) != ToEntry(c)
  }

  /** The comment holds exactly when it is not the case that stored fields are supplied and all of
      them at their present values. */
  lemma SavesOnChangeIff(sn: ServerNet, s: State, k: string, name: string, p: UpdateParams, w: World)
    requires sn.Valid() && ValidTable(s.table) && HasName(s.table.rows, k, name) && StoreAnswers(s, w)
    ensures var (t, r) := Update(sn, s, name, p, w);
            r.Success? ==>
              (SavesOnChange(s, t, s.table.rows[k], r.value) <==> !(SuppliesStored(p) && !Changes(s.table.rows[k], p)))
  {
    UpdateSavesIff(sn, s, name, p, w);
    UpdateOutcome(sn, s, name, p, w);
    assert forall j :: HasName(s.table.rows, j, name) ==> j == k;
  }

  function SameName(name: string): UpdateParams { UpdateParams(Some(name), None, None, None, None) }

  lemma RenamedPlan(sn: ServerNet, existing: seq<Client>, c: Client, now: int)
    requires sn.Valid()
    ensures PlanUpdate(sn, existing, c, SameName(c.name), now) == Success(c.(updatedAt := now))
  {
  }

  lemma TouchedRowUpdates(t: Table, k: string, now: int)
    requires ValidTable(t) && k in t.rows
    ensures var r := UpdateTable(t, k, t.rows[k].(updatedAt := now));
            r.Some? && ValidTable(r.value) && SameEntries(r.value.rows, t.rows)
  {
    var c := t.rows[k].(updatedAt := now);
    assert c.publicKey == k && Overwrite(t.rows[k], c) == c;
    UpdateKeepsValid(t, k, c);
  }

  lemma CalmWrite(s: State, t: Option<Table>, w: World)
    requires t.Some? && w.faults == {} && w.apply.Applied?
    ensures WriteThenFinish(s, t, w, true).1.None?
  {
  }

  lemma TouchedRowIsWritten(s: State, k: string, w: World)
    requires ValidTable(s.table) && k in s.table.rows && w.faults == {} && w.apply.Applied?
    ensures var (t, e) := WriteThenFinish(s, UpdateTable(s.table, k, s.table.rows[k].(updatedAt := w.now)), w, true);
            e.None? && ValidTable(t.table) && SameEntries(t.table.rows, s.table.rows)
  {
    var t := UpdateTable(s.table, k, s.table.rows[k].(updatedAt := w.now));
    TouchedRowUpdates(s.table, k, w.now);
    WrittenTable(s, t, w, true);
    CalmWrite(s, t, w);
  }

  lemma RenamedRowFits(sn: ServerNet, s: State, k: string, name: string, w: World)
    requires sn.Valid() && ValidTable(s.table) && HasName(s.table.rows, k, name)
    requires StoreAnswers(s, w) && w.faults == {} && w.apply.Applied?
    ensures var (t, r) := UpdateAt(sn, s, k, SameName(name), w);
            r.Success? && ValidTable(t.table) && SameEntries(t.table.rows, s.table.rows)
  {
    RenamedPlan(sn, List(s.table.rows), s.table.rows[k], w.now);
    TouchedRowIsWritten(s, k, w);
  }

  /** Renaming a client to its present name goes through, and saves what the store was to hold anyway. */
  lemma RenameToSelfSaves(sn: ServerNet, s: State, k: string, name: string, w: World)
    requires sn.Valid() && ValidTable(s.table) && HasName(s.table.rows, k, name)
    requires StoreAnswers(s, w) && w.faults == {} && w.apply.Applied?
    ensures var (t, r) := Update(sn, s, name, SameName(name), w);
            r.Success? && Saved(s, t) && Canonical(Projection(t.table.rows)) == Canonical(Projection(s.table.rows))
  {
    var p := SameName(name);
    forall j | HasName(s.table.rows, j, name) ensures j == k { }
    RenamedRowFits(sn, s, k, name, w);
    UpdateSavesIff(sn, s, name, p, w);
    var (t, r) := UpdateAt(sn, s, k, p, w);
    assert Update(sn, s, name, p, w) == (t, r);
    SameEntriesSameCanonical(t.table.rows, s.table.rows);
  }
}
