/** What a caller gets from Add, Update and Delete, in terms of the rows before and after. */
module PeerOutcomes {
  import opened Wrappers
  import opened Ipv4
  import opened Alloc
  import opened Types
  import opened Validate
  import opened ClientTable
  import opened Listing
  import opened PeerService
  import opened PeerConvergence

  ghost predicate NameOrKeyHeld(rows: Rows, name: string, key: string) {
    key in rows || exists k :: HasName(rows, k, name)
  }

  /** The row an Add asks for: enabled, stamped now, at the requested address or the one handed out. */
  ghost predicate AskedFor(sn: ServerNet, rows: Rows, p: AddParams, now: int, c: Client)
    requires sn.Valid()
  {
    && c.name == p.name && c.publicKey == p.publicKey && c.enabled && c.createdAt == now && c.updatedAt == now
    && c.note == (if p.note == "" then None else Some(p.note))
    && (p.address != "" ==> c.address == p.address && ValidAddress(sn, p.address))
    && (p.address == "" ==> exists h: u32 :: HandsOut(sn, AddressesOf(List(rows)), h) && c.address == HostCidr(h))
  }

  lemma PlannedAddIsAskedFor(sn: ServerNet, rows: Rows, p: AddParams, now: int)
    requires sn.Valid()
    ensures var plan := PlanAdd(sn, List(rows), p, now); plan.Success? ==> AskedFor(sn, rows, p, now, plan.value)
  {
    var used := AddressesOf(List(rows));
    OverrideMeaning(sn, p.address, used);
    ScanHandsOut(sn, used);
  }

  lemma ListedNames(t: Table, name: string, key: string)
    requires ValidTable(t)
    ensures (exists c :: c in List(t.rows) && (c.name == name || c.publicKey == key)) <==>
            NameOrKeyHeld(t.rows, name, key)
  {
    ListHasRows(t.rows);
    if NameOrKeyHeld(t.rows, name, key) {
      var k :| k in t.rows && (k == key || t.rows[k].name == name);
      assert t.rows[k] in List(t.rows) && t.rows[k].publicKey == k;
    }
    if c :| c in List(t.rows) && (c.name == name || c.publicKey == key) {
      assert c.name == name ==> HasName(t.rows, c.publicKey, name);
    }
  }

  /** Add reports "in use" exactly when the table holds the name or the key. */
  lemma AddRejectsHeld(sn: ServerNet, s: State, p: AddParams, w: World)
    requires sn.Valid() && ValidTable(s.table) && ListRows !in w.faults
    ensures Add(sn, s, p, w).1 == Failure(InUse) <==>
            ValidName(p.name) && ValidPublicKey(p.publicKey) && NameOrKeyHeld(s.table.rows, p.name, p.publicKey)
  {
    ListedNames(s.table, p.name, p.publicKey);
  }

  /** The table gained exactly this row, under a fresh id. */
  ghost predicate Gained(before: Table, after: Table, c: Client) {
    && c.publicKey !in before.rows
    && after == Table(before.rows[c.publicKey := c.(id := before.nextId)], before.nextId + 1)
  }

  /** How an operation fails after its row is written, and what it leaves: not applied at all,
      applied with an error, or live and only the listing for the store missing. The store object
      stays as it was in every case. */
  ghost predicate FailedAfterWrite(s: State, t: State, w: World, wt: bool, e: Error) {
    && t.backend == s.backend
    && if ApplyList in w.faults then e == DbFault && t.live == s.live
       else if w.apply.ApplyFailed? then e == ApplyError && t.live == w.apply.liveAfter
       else wt && SaveList in w.faults && e == DbFault && t.live == Render(t.table.rows)
  }

  lemma TailOutcome(s: State, w: World, wt: bool)
    ensures var (r, e) := Finish(s, w, wt);
            && r.table == s.table
            && (e.None? ==> r.live == Render(s.table.rows))
            && (e.Some? ==> FailedAfterWrite(s, r, w, wt, e.value))
  {
  }

  /** The write and the shared tail: an error before the write changes nothing at all. */
  lemma WrittenTable(s: State, t: Option<Table>, w: World, wt: bool)
    ensures var (r, e) := WriteThenFinish(s, t, w, wt);
            && (e.None? ==> t.Some? && r.table == t.value && r.live == Render(t.value.rows))
            && (e.Some? ==> r == s || (t.Some? && r.table == t.value && FailedAfterWrite(s, r, w, wt, e.value)))
  {
    if WriteRow !in w.faults && t.Some? { TailOutcome(s.(table := t.value), w, wt); }
  }

  lemma PlannedAddGains(s: State, plan: Result<Client, Error>, w: World)
    ensures var (t, r) := AddPlanned(s, plan, w);
            && (r.Success? ==> r == plan && Gained(s.table, t.table, r.value) && t.live == Render(t.table.rows))
            && (r.Failure? ==> t == s || (&& plan.Success? && Gained(s.table, t.table, plan.value)
                                          && FailedAfterWrite(s, t, w, true, r.error)))
  {
    if plan.Success? { WrittenTable(s, InsertRow(s.table, plan.value), w, true); }
  }

  /** A successful Add returns the row asked for, the table gained exactly it, and it is live; a
      failed one changed nothing, or inserted that very row and then failed as FailedAfterWrite says. */
  lemma AddOutcome(sn: ServerNet, s: State, p: AddParams, w: World)
    requires sn.Valid()
    ensures var (t, r) := Add(sn, s, p, w);
            && (r.Success? ==> && AskedFor(sn, s.table.rows, p, w.now, r.value)
                               && Gained(s.table, t.table, r.value) && t.live == Render(t.table.rows))
            && (r.Failure? ==> t == s || exists c :: && AskedFor(sn, s.table.rows, p, w.now, c)
                                                     && Gained(s.table, t.table, c)
                                                     && FailedAfterWrite(s, t, w, true, r.error))
  {
    var plan := AdmitAdd(sn, List(s.table.rows), p, w);
    PlannedAddIsAskedFor(sn, s.table.rows, p, w.now);
    PlannedAddGains(s, plan, w);
    assert plan.Success? ==> AskedFor(sn, s.table.rows, p, w.now, plan.value);
  }

  /** A field that the store carries is supplied. */
  predicate SuppliesStored(p: UpdateParams) { p.name.Some? || p.publicKey.Some? || p.address.Some? }

  /** PATCH semantics: supplied fields take their new value, the others keep theirs. */
  predicate Patched(was: Client, p: UpdateParams, now: int, c: Client) {
    && c.id == was.id && c.createdAt == was.createdAt && c.updatedAt == now
    && c.name == (if p.name.Some? then p.name.value else was.name)
    && c.publicKey == (if p.publicKey.Some? then p.publicKey.value else was.publicKey)
    && c.address == (if p.address.Some? then p.address.value else was.address)
    && c.note == (if p.note.None? then was.note else if p.note.value == "" then None else p.note)
    && c.enabled == (if p.enabled.Some? then p.enabled.value else was.enabled)
  }

  lemma AddressIsPatched(sn: ServerNet, existing: seq<Client>, c: Client, p: UpdateParams)
    requires sn.Valid()
    ensures var plan := PlanAddress(sn, existing, c, p);
            plan.Success? ==> plan.value == if p.address.Some? then c.(address := p.address.value) else c
  {
    if p.address.Some? { OverrideMeaning(sn, p.address.value, AddressesExcluding(existing, c.id)); }
  }

  lemma PlannedUpdateIsPatched(sn: ServerNet, existing: seq<Client>, c: Client, p: UpdateParams, now: int)
    requires sn.Valid()
    ensures var plan := PlanUpdate(sn, existing, c, p, now); plan.Success? ==> Patched(c, p, now, plan.value)
  {
    var a := PlanName(existing, c, p);
    if a.Success? {
      var b := PlanKey(existing, a.value, p);
      if b.Success? { AddressIsPatched(sn, existing, b.value, p); }
    }
  }

  /** The row under k became c, possibly under another key; every other row is as it was. */
  ghost predicate Became(before: Table, after: Table, k: string, c: Client) {
    && k in before.rows && after.nextId == before.nextId
    && after.rows == (before.rows - {k})[c.publicKey := c]
    && (c.publicKey == k || c.publicKey !in before.rows)
  }

  lemma UpdateBecomes(t: Table, k: string, c: Client)
    requires k in t.rows && c.id == t.rows[k].id && c.createdAt == t.rows[k].createdAt
    ensures var r := UpdateTable(t, k, c); r.Some? ==> Became(t, r.value, k, c)
  {
    assert Overwrite(t.rows[k], c) == c;
  }

  lemma PlannedUpdatePatches(s: State, k: string, c: Client, p: UpdateParams, w: World)
    requires k in s.table.rows && Patched(s.table.rows[k], p, w.now, c)
    ensures var (t, e) := WriteThenFinish(s, UpdateTable(s.table, k, c), w, p.Canonical());
            && (e.None? ==> Became(s.table, t.table, k, c))
            && (e.Some? ==> t == s || (&& Became(s.table, t.table, k, c)
                                       && FailedAfterWrite(s, t, w, p.Canonical(), e.value)))
  {
    UpdateBecomes(s.table, k, c);
    WrittenTable(s, UpdateTable(s.table, k, c), w, p.Canonical());
  }

  lemma UpdateAtOutcome(sn: ServerNet, s: State, k: string, p: UpdateParams, w: World)
    requires sn.Valid() && k in s.table.rows
    ensures var (t, r) := UpdateAt(sn, s, k, p, w);
            && (r.Success? ==> Patched(s.table.rows[k], p, w.now, r.value) && Became(s.table, t.table, k, r.value))
            && (r.Failure? ==> t == s || exists c :: && Patched(s.table.rows[k], p, w.now, c)
                                                     && Became(s.table, t.table, k, c)
                                                     && FailedAfterWrite(s, t, w, p.Canonical(), r.error))
  {
    var plan := PlanUpdate(sn, List(s.table.rows), s.table.rows[k], p, w.now);
    PlannedUpdateIsPatched(sn, List(s.table.rows), s.table.rows[k], p, w.now);
    if plan.Success? {
      var (t, e) := WriteThenFinish(s, UpdateTable(s.table, k, plan.value), w, p.Canonical());
      assert UpdateAt(sn, s, k, p, w) == (t, if e.Some? then Failure(e.value) else plan);
      PlannedUpdatePatches(s, k, plan.value, p, w);
    }
  }

  /** A successful Update patched the one row of that name and touched no other; a failed one changed
      nothing, or patched that row and then failed as FailedAfterWrite says. */
  lemma UpdateOutcome(sn: ServerNet, s: State, name: string, p: UpdateParams, w: World)
    requires sn.Valid() && ValidTable(s.table)
    ensures var (t, r) := Update(sn, s, name, p, w);
            && (r.Success? ==> exists k :: HasName(s.table.rows, k, name)
                                           && Patched(s.table.rows[k], p, w.now, r.value)
                                           && Became(s.table, t.table, k, r.value))
            && (r.Failure? ==> t == s || exists k, c :: && HasName(s.table.rows, k, name)
                                                        && Patched(s.table.rows[k], p, w.now, c)
                                                        && Became(s.table, t.table, k, c)
                                                        && FailedAfterWrite(s, t, w, p.Canonical(), r.error))
  {
    forall k | HasName(s.table.rows, k, name) { UpdateAtOutcome(sn, s, k, p, w); }
  }

  /** Names are unique, so Delete removes one row at most. */
  lemma DeleteRemovesAtMostOne(t: Table, name: string)
    requires ValidTable(t)
    ensures (exists k :: HasName(t.rows, k, name) && DeleteByName(t.rows, name) == t.rows - {k})
         || ((forall k :: !HasName(t.rows, k, name)) && DeleteByName(t.rows, name) == t.rows)
  {
    if k :| HasName(t.rows, k, name) {
      assert DeleteByName(t.rows, name) == t.rows - {k};
    } else {
      assert forall k :: k in t.rows ==> !HasName(t.rows, k, name);
      assert DeleteByName(t.rows, name) == t.rows;
    }
  }

  /** Every row but those of this name, as it was. */
  ghost predicate Without(before: Table, name: string, after: Table) {
    && after.nextId == before.nextId
    && (forall k :: k in after.rows <==> k in before.rows && before.rows[k].name != name)
    && forall k :: k in after.rows ==> after.rows[k] == before.rows[k]
  }

  /** A successful Delete leaves exactly the other rows, live; a failed one changed nothing, or deleted and
      then failed as FailedAfterWrite says. A name that no row has is no error. */
  lemma DeleteOutcome(s: State, name: string, w: World)
    ensures var (t, e) := Delete(s, name, w);
            && (e.None? ==> Without(s.table, name, t.table) && t.live == Render(t.table.rows))
            && (e.Some? ==> t == s || (Without(s.table, name, t.table) && FailedAfterWrite(s, t, w, true, e.value)))
            && (e.None? <==> TailGoesThrough(s, w, true))
  {
    var after := Some(s.table.(rows := DeleteByName(s.table.rows, name)));
    WrittenTable(s, after, w, true);
    WriteSucceedsIff(s, after, w, true);
    assert Without(s.table, name, after.value);
  }

  lemma GainedThenDeleted(before: Table, after: Table, c: Client)
    requires Gained(before, after, c) && forall k :: !HasName(before.rows, k, c.name)
    ensures DeleteByName(after.rows, c.name) == before.rows
  {
    assert forall k :: k in before.rows ==> !HasName(before.rows, k, c.name);
  }

  lemma AddedNameIsNew(sn: ServerNet, s: State, p: AddParams, w: World)
    requires sn.Valid() && ValidTable(s.table) && Add(sn, s, p, w).1.Success?
    ensures forall k :: !HasName(s.table.rows, k, p.name)
  {
    ListedNames(s.table, p.name, p.publicKey);
    assert PlanAdd(sn, List(s.table.rows), p, w.now).Success?;
  }

  /** Deleting what was just added gives every row back as it was, live as well. */
  lemma DeleteUndoesAdd(sn: ServerNet, s: State, p: AddParams, w1: World, w2: World)
    requires sn.Valid() && ValidTable(s.table)
    ensures var (t, r) := Add(sn, s, p, w1);
            var (u, e) := Delete(t, p.name, w2);
            r.Success? && e.None? ==> u.table.rows == s.table.rows && u.live == Render(s.table.rows)
  {
    var (t, r) := Add(sn, s, p, w1);
    if r.Success? {
      AddOutcome(sn, s, p, w1);
      AddedNameIsNew(sn, s, p, w1);
      GainedThenDeleted(s.table, t.table, r.value);
      WrittenTable(t, Some(t.table.(rows := DeleteByName(t.table.rows, p.name))), w2, true);
    }
  }
}
