/** An Add or Update that passes its own checks cannot trip a UNIQUE column, and never
    hands out the server's address. */
module PeerUniqueness {
  import opened Wrappers
  import opened Ipv4
  import opened Alloc
  import opened Types
  import opened Validate
  import opened ClientTable
  import opened Listing
  import opened PeerService

  lemma {:induction false} ExcludingKeepsOthers(cs: seq<Client>, id: nat)
    ensures forall c :: c in cs && c.id != id ==> c.address in AddressesExcluding(cs, id)
  {
    if cs != [] {
      ExcludingKeepsOthers(cs[1..], id);
      forall c | c in cs && c.id != id ensures c.address in AddressesExcluding(cs, id) {
        assert c == cs[0] || c in cs[1..];
      }
    }
  }

  /** Allocated or validated, an address is new as a number, hence new as text, and not the server's. */
  lemma GrantedAddressIsFresh(sn: ServerNet, requested: string, used: seq<string>)
    requires sn.Valid()
    ensures var r := if requested == "" then Allocate(sn, used) else Override(sn, requested, used);
            r.Some? ==> r.value !in used && ParseHost(r.value).Some? && ParseHost(r.value).value != sn.serverIP
  {
    var r := if requested == "" then Allocate(sn, used) else Override(sn, requested, used);
    if r.Some? {
      var v: u32;
      if requested == "" {
        var (network, broadcast) := Bounds(sn);
        FirstFreeIsLowest(Add32(network, 1), Sub32(broadcast, 1), Reserved(sn, used));
        v := AllocateHost(sn, used).value;
      } else {
        v := ParseHost(requested).value;
      }
      assert r.value == HostCidr(v) && v !in Reserved(sn, used);
      FreshHostIsFreshText(used, v);
      ParseHostCidr(v);
    }
  }

  lemma AddressesAreListed(rows: Rows)
    requires Keyed(rows)
    ensures forall k :: k in rows ==> rows[k] in List(rows) && rows[k].address in AddressesOf(List(rows))
  {
    ListHasRows(rows);
    forall k | k in rows ensures rows[k].address in AddressesOf(List(rows)) {
      var i :| 0 <= i < |List(rows)| && List(rows)[i] == rows[k];
      assert AddressesOf(List(rows))[i] == rows[k].address;
    }
  }

  lemma PlannedAddFits(sn: ServerNet, t: Table, p: AddParams, now: int)
    requires sn.Valid() && ValidTable(t)
    ensures var plan := PlanAdd(sn, List(t.rows), p, now);
            plan.Success? ==>
              && InsertRow(t, plan.value).Some?
              && ParseHost(plan.value.address).Some? && ParseHost(plan.value.address).value != sn.serverIP
  {
    AddressesAreListed(t.rows);
    GrantedAddressIsFresh(sn, p.address, AddressesOf(List(t.rows)));
    assert p.publicKey in t.rows ==> t.rows[p.publicKey].publicKey == p.publicKey;
  }

  /** Add reports "in use" itself or succeeds at the INSERT: a UNIQUE violation is impossible,
      from every valid table, whatever its addresses look like. */
  lemma AddNeverViolatesUnique(sn: ServerNet, s: State, p: AddParams, w: World)
    requires sn.Valid() && ValidTable(s.table)
    ensures Add(sn, s, p, w).1 != Failure(UniqueViolation)
    ensures Add(sn, s, p, w).1.Success? ==>
              ParseHost(Add(sn, s, p, w).1.value.address).Some?
              && ParseHost(Add(sn, s, p, w).1.value.address).value != sn.serverIP
  {
    PlannedAddFits(sn, s.table, p, w.now);
  }

  /** The facts about the planned row that rule out a collision. */
  ghost predicate FitsAt(rows: Rows, k: string, c: Client) {
    && k in rows && c.id == rows[k].id
    && forall j :: j in rows && j != k ==> rows[j].name != c.name && j != c.publicKey && rows[j].address != c.address
  }

  lemma PlanNameFits(t: Table, k: string, c: Client, p: UpdateParams)
    requires ValidTable(t) && FitsAt(t.rows, k, c)
    ensures var r := PlanName(List(t.rows), c, p);
            r.Success? ==> FitsAt(t.rows, k, r.value) && r.value.address == c.address
  {
    ListHasRows(t.rows);
    assert forall j :: j in t.rows ==> t.rows[j] in List(t.rows);
  }

  lemma PlanKeyFits(t: Table, k: string, c: Client, p: UpdateParams)
    requires ValidTable(t) && FitsAt(t.rows, k, c)
    ensures var r := PlanKey(List(t.rows), c, p);
            r.Success? ==> FitsAt(t.rows, k, r.value) && r.value.address == c.address
  {
    ListHasRows(t.rows);
    assert forall j :: j in t.rows ==> t.rows[j] in List(t.rows) && t.rows[j].publicKey == j;
  }

  lemma PlanAddressFits(sn: ServerNet, t: Table, k: string, c: Client, p: UpdateParams)
    requires sn.Valid() && ValidTable(t) && FitsAt(t.rows, k, c)
    ensures var r := PlanAddress(sn, List(t.rows), c, p);
            r.Success? ==>
              && FitsAt(t.rows, k, r.value)
              && (p.address.Some? ==>
                    ParseHost(r.value.address).Some? && ParseHost(r.value.address).value != sn.serverIP)
  {
    ListHasRows(t.rows);
    ExcludingKeepsOthers(List(t.rows), c.id);
    assert forall j :: j in t.rows ==> t.rows[j] in List(t.rows);
    if p.address.Some? && PlanAddress(sn, List(t.rows), c, p).Success? {
      var used := AddressesExcluding(List(t.rows), c.id);
      assert !ValidAddress(sn, "");
      GrantedAddressIsFresh(sn, p.address.value, used);
    }
  }

  lemma FittingRowUpdates(t: Table, k: string, c: Client, p: UpdateParams, now: int)
    requires ValidTable(t) && FitsAt(t.rows, k, c)
    ensures var r := Stamped(c, p, now);
            FitsAt(t.rows, k, r) && r.address == c.address && UpdateRow(t.rows, k, r).Some?
  {
  }

  lemma PlannedUpdateFits(sn: ServerNet, t: Table, k: string, p: UpdateParams, now: int)
    requires sn.Valid() && ValidTable(t) && k in t.rows
    ensures var plan := PlanUpdate(sn, List(t.rows), t.rows[k], p, now);
            plan.Success? ==>
              && FitsAt(t.rows, k, plan.value) && UpdateRow(t.rows, k, plan.value).Some?
              && (p.address.Some? ==>
                    ParseHost(plan.value.address).Some? && ParseHost(plan.value.address).value != sn.serverIP)
  {
    var c, existing := t.rows[k], List(t.rows);
    assert FitsAt(t.rows, k, c);
    PlanNameFits(t, k, c, p);
    var a := PlanName(existing, c, p);
    if a.Success? {
      PlanKeyFits(t, k, a.value, p);
      var b := PlanKey(existing, a.value, p);
      if b.Success? {
        PlanAddressFits(sn, t, k, b.value, p);
        var d := PlanAddress(sn, existing, b.value, p);
        if d.Success? { FittingRowUpdates(t, k, d.value, p, now); }
      }
    }
  }

  /** An accepted outcome: no collision, and any supplied address is not the server's. */
  predicate Granted(sn: ServerNet, p: UpdateParams, r: Result<Client, Error>) {
    && r != Failure(UniqueViolation)
    && (r.Success? && p.address.Some? ==>
          ParseHost(r.value.address).Some? && ParseHost(r.value.address).value != sn.serverIP)
  }

  lemma PlanIsNoCollision(sn: ServerNet, existing: seq<Client>, c: Client, p: UpdateParams, now: int)
    requires sn.Valid()
    ensures PlanUpdate(sn, existing, c, p, now) != Failure(UniqueViolation)
  {
  }

  lemma UpdateAtIsGranted(sn: ServerNet, s: State, k: string, p: UpdateParams, w: World)
    requires sn.Valid() && ValidTable(s.table) && k in s.table.rows
    ensures Granted(sn, p, UpdateAt(sn, s, k, p, w).1)
  {
    var plan := PlanUpdate(sn, List(s.table.rows), s.table.rows[k], p, w.now);
    PlanIsNoCollision(sn, List(s.table.rows), s.table.rows[k], p, w.now);
    PlannedUpdateFits(sn, s.table, k, p, w.now);
  }

  /** Update likewise: its own checks leave nothing for the UNIQUE columns to reject, and an
      address it is given is never the server's. */
  lemma UpdateNeverViolatesUnique(sn: ServerNet, s: State, name: string, p: UpdateParams, w: World)
    requires sn.Valid() && ValidTable(s.table)
    ensures Granted(sn, p, Update(sn, s, name, p, w).1)
  {
    forall k | HasName(s.table.rows, k, name) {
      UpdateAtIsGranted(sn, s, k, p, w);
    }
  }
}
