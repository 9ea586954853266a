/** Exactly when an Add and an Update go through, in terms of the request, the rows and the world. */
module Admission {
  import opened Wrappers
  import opened Ipv4
  import opened Alloc
  import opened Types
  import opened Validate
  import opened ClientTable
  import opened Listing
  import opened PeerService
  import opened PeerConvergence
  import opened PeerOutcomes
  import opened PeerUniqueness

  /** No row but `self` holds this host, whatever the text of its address. */
  ghost predicate HostFree(sn: ServerNet, rows: Rows, self: string, h: u32) {
    h != sn.serverIP && forall k :: k in rows && k != self ==> ParseHost(rows[k].address) != Some(h)
  }

  /** The text is the canonical form of a free host of the subnet. */
  ghost predicate Grantable(sn: ServerNet, rows: Rows, self: string, address: string)
    requires sn.Valid()
  {
    exists h: u32 :: sn.network <= h < sn.network + sn.Size() && address == HostCidr(h) && HostFree(sn, rows, self, h)
  }

  /** There is a host to hand out; on the wrapping prefix any address below the top one will do. */
  ghost predicate RoomLeft(sn: ServerNet, rows: Rows, self: string)
    requires sn.Valid()
  {
    if Wraps(sn) then exists h: u32 :: h < TWO32 - 1 && HostFree(sn, rows, self, h)
    else exists h: u32 :: sn.network < h < sn.network + sn.Size() - 1 && HostFree(sn, rows, self, h)
  }

  /** `used` are the addresses of the rows but for `self`. */
  ghost predicate UsedBy(rows: Rows, self: string, used: seq<string>) {
    forall u :: u in used <==> exists k :: k in rows && k != self && rows[k].address == u
  }

  lemma FreeIsUnreserved(sn: ServerNet, rows: Rows, self: string, used: seq<string>, h: u32)
    requires UsedBy(rows, self, used)
    ensures HostFree(sn, rows, self, h) <==> h !in Reserved(sn, used)
  {
    if h in ParsedSet(used) {
      var u :| u in used && ParseHost(u) == Some(h);
      assert exists k :: k in rows && k != self && rows[k].address == u;
    }
    if k :| k in rows && k != self && ParseHost(rows[k].address) == Some(h) { assert rows[k].address in used; }
  }

  lemma OverrideGrantable(sn: ServerNet, rows: Rows, self: string, used: seq<string>, address: string)
    requires sn.Valid() && UsedBy(rows, self, used)
    ensures Override(sn, address, used).Some? <==> Grantable(sn, rows, self, address)
  {
    if ValidAddress(sn, address) {
      var v := ParseHost(address).value;
      ValidAddressIff(sn, address);
      ValidAddressIsCanonical(sn, address);
      ContainsIff(sn, v);
      FreeIsUnreserved(sn, rows, self, used, v);
    }
    if h: u32 :| sn.network <= h < sn.network + sn.Size() && address == HostCidr(h) && HostFree(sn, rows, self, h) {
      ValidAddressIff(sn, address);
      ParseHostCidr(h);
      FreeIsUnreserved(sn, rows, self, used, h);
    }
  }

  lemma AllocateRoom(sn: ServerNet, rows: Rows, self: string, used: seq<string>)
    requires sn.Valid() && UsedBy(rows, self, used)
    ensures Allocate(sn, used).Some? <==> RoomLeft(sn, rows, self)
  {
    forall h: u32 ensures HostFree(sn, rows, self, h) <==> h !in Reserved(sn, used) {
      FreeIsUnreserved(sn, rows, self, used, h);
    }
    if Wraps(sn) {
      ScanOnWrappingPrefix(sn, used);
      FirstFreeIsLowest(0, TWO32 - 2, Reserved(sn, used));
    } else {
      ScanFindsLowest(sn, used);
    }
  }

  lemma ListedIsUsed(rows: Rows)
    requires Keyed(rows)
    ensures forall self :: self !in rows ==> UsedBy(rows, self, AddressesOf(List(rows)))
  {
    var list := List(rows);
    var used := AddressesOf(list);
    AddressesAreListed(rows);
    ListHasRows(rows);
    forall u ensures u in used <==> exists k :: k in rows && rows[k].address == u {
      if u in used {
        var i :| 0 <= i < |used| && used[i] == u;
        assert list[i] in list;
      }
    }
  }

  /** What the address of an Add needs: a free host at all, or the requested one free. */
  ghost predicate AddressLeft(sn: ServerNet, rows: Rows, self: string, address: string)
    requires sn.Valid()
  {
    if address == "" then RoomLeft(sn, rows, self) else Grantable(sn, rows, self, address)
  }

  lemma PlanAddIff(sn: ServerNet, t: Table, p: AddParams, now: int)
    requires sn.Valid() && ValidTable(t)
    ensures var plan := PlanAdd(sn, List(t.rows), p, now);
            && (plan == Failure(InUse) <==> NameOrKeyHeld(t.rows, p.name, p.publicKey))
            && (plan.Success? <==>
                !NameOrKeyHeld(t.rows, p.name, p.publicKey) && AddressLeft(sn, t.rows, p.publicKey, p.address))
            && (plan.Failure? ==> plan.error == InUse || plan.error == NoAddress)
  {
    ListedNames(t, p.name, p.publicKey);
    if !NameOrKeyHeld(t.rows, p.name, p.publicKey) {
      var used := AddressesOf(List(t.rows));
      ListedIsUsed(t.rows);
      if p.address == "" {
        AllocateRoom(sn, t.rows, p.publicKey, used);
      } else {
        OverrideGrantable(sn, t.rows, p.publicKey, used, p.address);
      }
    }
  }

  /** Add succeeds exactly when the name and key are well-formed and not held, an address is left, and
      no call on the way fails (a Save may). */
  lemma AddSucceedsIff(sn: ServerNet, s: State, p: AddParams, w: World)
    requires sn.Valid() && ValidTable(s.table)
    ensures Add(sn, s, p, w).1.Success? <==>
            && ValidName(p.name) && ValidPublicKey(p.publicKey) && ListRows !in w.faults
            && !NameOrKeyHeld(s.table.rows, p.name, p.publicKey)
            && AddressLeft(sn, s.table.rows, p.publicKey, p.address) && TailGoesThrough(s, w, true)
  {
    var plan := PlanAdd(sn, List(s.table.rows), p, w.now);
    PlanAddIff(sn, s.table, p, w.now);
    if plan.Success? {
      PlannedAddFits(sn, s.table, p, w.now);
      WriteSucceedsIff(s, InsertRow(s.table, plan.value), w, true);
    }
  }

  /** Which refusal an Add gets for its input: the first that applies, in this order. */
  lemma AddRefusals(sn: ServerNet, s: State, p: AddParams, w: World)
    requires sn.Valid() && ValidTable(s.table) && ListRows !in w.faults
    ensures var e := Add(sn, s, p, w).1;
            && (e == Failure(InvalidName) <==> !ValidName(p.name))
            && (e == Failure(InvalidKey) <==> ValidName(p.name) && !ValidPublicKey(p.publicKey))
            && (e == Failure(NoAddress) <==>
                && ValidName(p.name) && ValidPublicKey(p.publicKey)
                && !NameOrKeyHeld(s.table.rows, p.name, p.publicKey)
                && !AddressLeft(sn, s.table.rows, p.publicKey, p.address))
  {
    PlanAddIff(sn, s.table, p, w.now);
  }

  lemma {:induction false} ExcludedAddresses(cs: seq<Client>, id: nat, u: string)
    ensures u in AddressesExcluding(cs, id) <==> exists c :: c in cs && c.id != id && c.address == u
  {
    if cs != [] {
      ExcludedAddresses(cs[1..], id, u);
      assert forall c :: c in cs <==> c == cs[0] || c in cs[1..];
    }
  }

  lemma OthersAreUsed(t: Table, k: string)
    requires ValidTable(t) && k in t.rows
    ensures UsedBy(t.rows, k, AddressesExcluding(List(t.rows), t.rows[k].id))
  {
    var list, id := List(t.rows), t.rows[k].id;
    ListHasRows(t.rows);
    forall u
      ensures u in AddressesExcluding(list, id) <==> exists j :: j in t.rows && j != k && t.rows[j].address == u
    {
      ExcludedAddresses(list, id, u);
      if c :| c in list && c.id != id && c.address == u { assert t.rows[c.publicKey] == c && c.publicKey != k; }
      if j :| j in t.rows && j != k && t.rows[j].address == u { assert t.rows[j] in list && t.rows[j].id != id; }
    }
  }

  /** A new name is supplied: not the one the row has. */
  predicate Renames(c: Client, p: UpdateParams) { p.name.Some? && p.name.value != c.name }

  predicate Rekeys(c: Client, p: UpdateParams) { p.publicKey.Some? && p.publicKey.value != c.publicKey }

  ghost predicate NameHeld(rows: Rows, k: string, name: string) {
    exists j :: j in rows && j != k && rows[j].name == name
  }

  /** The supplied name is the row's own, or well-formed and held by no other row. */
  ghost predicate NameAdmitted(rows: Rows, k: string, p: UpdateParams)
    requires k in rows
  {
    Renames(rows[k], p) ==> ValidName(p.name.value) && !NameHeld(rows, k, p.name.value)
  }

  ghost predicate KeyAdmitted(rows: Rows, k: string, p: UpdateParams)
    requires k in rows
  {
    Rekeys(rows[k], p) ==> ValidPublicKey(p.publicKey.value) && p.publicKey.value !in rows
  }

  /** A supplied address is a free one; the row's own counts as free. */
  ghost predicate AddressAdmitted(sn: ServerNet, rows: Rows, k: string, p: UpdateParams)
    requires sn.Valid()
  {
    p.address.Some? ==> Grantable(sn, rows, k, p.address.value)
  }

  lemma NameHeldIsListed(t: Table, k: string, name: string)
    requires ValidTable(t) && k in t.rows
    ensures NameHeld(t.rows, k, name) <==> exists d :: d in List(t.rows) && d.id != t.rows[k].id && d.name == name
  {
    var list := List(t.rows);
    ListHasRows(t.rows);
    if j :| j in t.rows && j != k && t.rows[j].name == name {
      assert t.rows[j] in list && t.rows[j].id != t.rows[k].id;
    }
    if d :| d in list && d.id != t.rows[k].id && d.name == name { assert d.publicKey in t.rows && d.publicKey != k; }
  }

  lemma KeyHeldIsListed(t: Table, k: string, key: string)
    requires ValidTable(t) && k in t.rows
    ensures key in t.rows && key != k <==>
            exists d :: d in List(t.rows) && d.id != t.rows[k].id && d.publicKey == key
  {
    var list := List(t.rows);
    ListHasRows(t.rows);
    if key in t.rows && key != k { assert t.rows[key] in list && t.rows[key].id != t.rows[k].id; }
    if d :| d in list && d.id != t.rows[k].id && d.publicKey == key { assert key in t.rows; }
  }

  lemma PlanNameIff(t: Table, k: string, p: UpdateParams)
    requires ValidTable(t) && k in t.rows
    ensures var c, r := t.rows[k], PlanName(List(t.rows), t.rows[k], p);
            && (r.Success? <==> NameAdmitted(t.rows, k, p))
            && (r.Success? ==> r.value == c.(name := if Renames(c, p) then p.name.value else c.name))
            && (r == Failure(InvalidName) <==> Renames(c, p) && !ValidName(p.name.value))
            && (r == Failure(InUse) <==>
                Renames(c, p) && ValidName(p.name.value) && NameHeld(t.rows, k, p.name.value))
  {
    if p.name.Some? { NameHeldIsListed(t, k, p.name.value); }
  }

  lemma PlanKeyIff(t: Table, k: string, c: Client, p: UpdateParams)
    requires ValidTable(t) && k in t.rows && c.id == t.rows[k].id && c.publicKey == k
    ensures var r := PlanKey(List(t.rows), c, p);
            && (r.Success? <==> KeyAdmitted(t.rows, k, p))
            && (r.Success? ==> r.value.id == c.id)
            && (r == Failure(InvalidKey) <==> Rekeys(t.rows[k], p) && !ValidPublicKey(p.publicKey.value))
            && (r == Failure(InUse) <==>
                Rekeys(t.rows[k], p) && ValidPublicKey(p.publicKey.value) && p.publicKey.value in t.rows)
  {
    if p.publicKey.Some? { KeyHeldIsListed(t, k, p.publicKey.value); }
  }

  /** Which plans of an update go through, and which refusal the others get: the first that applies. */
  lemma PlanUpdateIff(sn: ServerNet, t: Table, k: string, p: UpdateParams, now: int)
    requires sn.Valid() && ValidTable(t) && k in t.rows
    ensures var c, plan := t.rows[k], PlanUpdate(sn, List(t.rows), t.rows[k], p, now);
            && (plan.Success? <==>
                NameAdmitted(t.rows, k, p) && KeyAdmitted(t.rows, k, p) && AddressAdmitted(sn, t.rows, k, p))
            && (plan == Failure(InvalidName) <==> Renames(c, p) && !ValidName(p.name.value))
            && (plan == Failure(InvalidKey) <==>
                NameAdmitted(t.rows, k, p) && Rekeys(c, p) && !ValidPublicKey(p.publicKey.value))
            && (plan == Failure(NoAddress) <==>
                NameAdmitted(t.rows, k, p) && KeyAdmitted(t.rows, k, p) && !AddressAdmitted(sn, t.rows, k, p))
  {
    var c, list := t.rows[k], List(t.rows);
    PlanNameIff(t, k, p);
    var a := PlanName(list, c, p);
    if a.Success? {
      PlanKeyIff(t, k, a.value, p);
      var b := PlanKey(list, a.value, p);
      if b.Success? && p.address.Some? {
        OthersAreUsed(t, k);
        OverrideGrantable(sn, t.rows, k, AddressesExcluding(list, c.id), p.address.value);
      }
    }
  }

  /** Update of the row under k succeeds exactly when what is supplied is admitted and no call on the
      way fails; a Save is on the way only if a stored field is supplied. */
  lemma UpdateSucceedsIff(sn: ServerNet, s: State, k: string, name: string, p: UpdateParams, w: World)
    requires sn.Valid() && ValidTable(s.table) && HasName(s.table.rows, k, name)
    ensures Update(sn, s, name, p, w).1.Success? <==>
            && ListRows !in w.faults
            && NameAdmitted(s.table.rows, k, p) && KeyAdmitted(s.table.rows, k, p)
            && AddressAdmitted(sn, s.table.rows, k, p) && TailGoesThrough(s, w, SuppliesStored(p))
  {
    forall j | HasName(s.table.rows, j, name) ensures j == k { }
    var plan := PlanUpdate(sn, List(s.table.rows), s.table.rows[k], p, w.now);
    PlanUpdateIff(sn, s.table, k, p, w.now);
    if plan.Success? {
      PlannedUpdateFits(sn, s.table, k, p, w.now);
      WriteSucceedsIff(s, UpdateTable(s.table, k, plan.value), w, p.Canonical());
    }
  }

  lemma PlanUpdateNeverMissing(sn: ServerNet, existing: seq<Client>, c: Client, p: UpdateParams, now: int)
    requires sn.Valid()
    ensures PlanUpdate(sn, existing, c, p, now) != Failure(NotFound)
  {
  }

  /** "Not found" is reported exactly when no row has the name. */
  lemma UpdateNotFoundIff(sn: ServerNet, s: State, name: string, p: UpdateParams, w: World)
    requires sn.Valid() && ValidTable(s.table) && ListRows !in w.faults
    ensures Update(sn, s, name, p, w).1 == Failure(NotFound) <==> forall k :: !HasName(s.table.rows, k, name)
  {
    forall k | HasName(s.table.rows, k, name) ensures UpdateAt(sn, s, k, p, w).1 != Failure(NotFound) {
      PlanUpdateNeverMissing(sn, List(s.table.rows), s.table.rows[k], p, w.now);
    }
  }
}
