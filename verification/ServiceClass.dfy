/** clients.Service itself: fields updated in place, every method proved against PeerService. */
module ServiceClass {
  import opened Wrappers
  import opened Alloc
  import opened Types
  import opened Validate
  import opened ClientTable
  import opened Listing
  import opened Rendering
  import opened ClientsDb
  import opened PeerService
  import opened BootMachine
  import U = PeerUniqueness

  lemma NameNotListed(s: State, name: string)
    requires ValidTable(s.table)
    requires forall j :: 0 <= j < |List(s.table.rows)| ==> List(s.table.rows)[j].name != name
    ensures !exists k :: HasName(s.table.rows, k, name)
  {
    ListHasRows(s.table.rows);
    forall k | k in s.table.rows ensures s.table.rows[k].name != name {
      assert s.table.rows[k] in List(s.table.rows);
    }
  }

  /** Names are unique, so the row the scan finds is the row the update is about. */
  lemma NameListed(sn: ServerNet, s: State, name: string, i: nat, p: UpdateParams, w: World)
    requires sn.Valid() && ValidTable(s.table) && ListRows !in w.faults
    requires i < |List(s.table.rows)| && List(s.table.rows)[i].name == name
    ensures var c := List(s.table.rows)[i];
            && c.publicKey in s.table.rows && s.table.rows[c.publicKey] == c
            && PeerService.Update(sn, s, name, p, w) == UpdateAt(sn, s, c.publicKey, p, w)
  {
    ListHasRows(s.table.rows);
    var c := List(s.table.rows)[i];
    assert c in List(s.table.rows);
    assert HasName(s.table.rows, c.publicKey, name);
    assert forall k :: HasName(s.table.rows, k, name) ==> k == c.publicKey;
  }

  class Service {
    const db: DB
    const sn: ServerNet
    var live: string
    var backend: Backend
    var ready: bool
    ghost var trace: seq<Event>

    ghost predicate Valid()
      reads this, db
    {
      db.Valid() && sn.Valid()
    }

    ghost function View(): State
      reads this, db
    {
      State(db.Contents(), live, backend, ready, trace)
    }

    /** NewService: the store starts trusted. */
    constructor (db: DB, sn: ServerNet, backend: Backend)
      requires db.Valid() && sn.Valid()
      ensures Valid() && this.db == db && this.sn == sn
      ensures View() == State(db.Contents(), "", backend, true, [])
    {
      this.db, this.sn, this.backend := db, sn, backend;
      live, ready, trace := "", true, [];
    }

    method Load(w: World) returns (outcome: LoadOutcome)
      requires Valid()
      modifies this`trace
      ensures Valid() && (View(), outcome) == DoLoad(old(View()), w)
    {
      if backend.Noop? {
        return Missing;
      }
      trace := trace + [DidLoad(w.load)];
      return w.load;
    }

    method Save(es: seq<Entry>, w: World) returns (ok: bool)
      requires Valid()
      modifies this`trace, this`backend
      ensures Valid() && (View(), ok) == DoSave(old(View()), es, w)
    {
      if backend.Noop? {
        return true;
      }
      backend := S3(if w.save.Saved? then Some(Canonical(es)) else w.save.objectAfter);
      trace := trace + [DidSave(es, w.save.Saved?)];
      return w.save.Saved?;
    }

    method AttemptStoreHeal(w: World) returns (ok: bool)
      requires Valid()
      modifies this`trace, this`ready
      ensures Valid() && (View(), ok) == Heal(old(View()), w)
    {
      var outcome := Load(w);
      if outcome.LoadFailed? {
        return false;
      }
      ready := true;
      return true;
    }

    method Apply(w: World) returns (e: Option<Error>)
      requires Valid()
      modifies this`trace, this`live
      ensures Valid() && (View(), e) == ApplyLocked(old(View()), w)
    {
      if ApplyList in w.faults {
        return Some(DbFault);
      }
      var all := db.ListClients();
      var text := BuildServerPeers(ToPeers(all));
      trace := trace + [DidApply(all, w.apply.Applied?)];
      if w.apply.ApplyFailed? {
        live := w.apply.liveAfter;
        return Some(ApplyError);
      }
      live := text;
      return None;
    }

    method SaveStore(w: World) returns (e: Option<Error>)
      requires Valid()
      modifies this`trace, this`ready, this`backend
      ensures Valid() && (View(), e) == SaveStoreLocked(old(View()), w)
    {
      if !ready {
        var ok := AttemptStoreHeal(w);
        if !ok {
          return None;
        }
      }
      if SaveList in w.faults {
        return Some(DbFault);
      }
      var all := db.ListClients();
      var _ := Save(ToEntries(all), w);
      return None;
    }

    method ApplyAndSave(w: World, writeThrough: bool) returns (e: Option<Error>)
      requires Valid()
      modifies this
      ensures Valid() && (View(), e) == Finish(old(View()), w, writeThrough)
    {
      e := Apply(w);
      if e.None? && writeThrough {
        e := SaveStore(w);
      }
    }

    /** The uniqueness scan and the address decision of Add. */
    method CheckNew(existing: seq<Client>, p: AddParams, now: int) returns (r: Result<Client, Error>)
      requires sn.Valid()
      ensures r == PlanAdd(sn, existing, p, now)
    {
      for i := 0 to |existing|
        invariant forall j :: 0 <= j < i ==> existing[j].name != p.name && existing[j].publicKey != p.publicKey
      {
        if existing[i].name == p.name || existing[i].publicKey == p.publicKey {
          assert existing[i] in existing;
          return Failure(InUse);
        }
      }
      var used, addr := AddressesOf(existing), None;
      if p.address == "" {
        addr := AllocateAddress(sn, used);
      } else {
        addr := ValidateOverride(sn, p.address, used);
      }
      if addr.None? {
        return Failure(NoAddress);
      }
      return Success(Client(0, p.name, p.publicKey, addr.value, true, NoteToNull(p.note), now, now));
    }

    method Add(p: AddParams, w: World) returns (r: Result<Client, Error>)
      requires Valid()
      modifies this, db
      ensures Valid() && (View(), r) == PeerService.Add(sn, old(View()), p, w)
    {
      if !ValidName(p.name) {
        return Failure(InvalidName);
      }
      if !ValidPublicKey(p.publicKey) {
        return Failure(InvalidKey);
      }
      if ListRows in w.faults {
        return Failure(DbFault);
      }
      var existing := db.ListClients();
      r := CheckNew(existing, p, w.now);
      if r.Failure? {
        return;
      }
      if WriteRow in w.faults {
        return Failure(DbFault);
      }
      var ok := db.InsertClient(r.value);
      if !ok {
        return Failure(UniqueViolation);
      }
      var e := ApplyAndSave(w, true);
      if e.Some? {
        return Failure(e.value);
      }
    }

    method CheckName(existing: seq<Client>, c: Client, p: UpdateParams) returns (r: Result<Client, Error>)
      ensures r == PlanName(existing, c, p)
    {
      if p.name.None? || p.name.value == c.name {
        return Success(c);
      }
      if !ValidName(p.name.value) {
        return Failure(InvalidName);
      }
      for i := 0 to |existing|
        invariant forall j :: 0 <= j < i ==> existing[j].id == c.id || existing[j].name != p.name.value
      {
        if existing[i].id != c.id && existing[i].name == p.name.value {
          assert existing[i] in existing;
          return Failure(InUse);
        }
      }
      return Success(c.(name := p.name.value));
    }

    method CheckKey(existing: seq<Client>, c: Client, p: UpdateParams) returns (r: Result<Client, Error>)
      ensures r == PlanKey(existing, c, p)
    {
      if p.publicKey.None? || p.publicKey.value == c.publicKey {
        return Success(c);
      }
      if !ValidPublicKey(p.publicKey.value) {
        return Failure(InvalidKey);
      }
      for i := 0 to |existing|
        invariant forall j :: 0 <= j < i ==> existing[j].id == c.id || existing[j].publicKey != p.publicKey.value
      {
        if existing[i].id != c.id && existing[i].publicKey == p.publicKey.value {
          assert existing[i] in existing;
          return Failure(InUse);
        }
      }
      return Success(c.(publicKey := p.publicKey.value));
    }

    /** The field checks of Update, in order, on a copy of the row. */
    method CheckFields(existing: seq<Client>, c: Client, p: UpdateParams, now: int) returns (r: Result<Client, Error>)
      requires sn.Valid()
      ensures r == PlanUpdate(sn, existing, c, p, now)
    {
      r := CheckName(existing, c, p);
      if r.Failure? {
        return;
      }
      r := CheckKey(existing, r.value, p);
      if r.Failure? {
        return;
      }
      var updated := r.value;
      if p.address.Some? {
        var addr := ValidateOverride(sn, p.address.value, AddressesExcluding(existing, updated.id));
        if addr.None? {
          return Failure(NoAddress);
        }
        updated := updated.(address := addr.value);
      }
      if p.note.Some? {
        updated := updated.(note := NoteToNull(p.note.value));
      }
      if p.enabled.Some? {
        updated := updated.(enabled := p.enabled.value);
      }
      return Success(updated.(updatedAt := now));
    }

    /** The row index of the first client with this name, or the length. */
    method FindByName(existing: seq<Client>, name: string) returns (idx: nat)
      ensures idx <= |existing|
      ensures idx < |existing| ==> existing[idx].name == name
      ensures forall j :: 0 <= j < idx ==> existing[j].name != name
    {
      idx := 0;
      while idx < |existing| && existing[idx].name != name
        invariant 0 <= idx <= |existing|
        invariant forall j :: 0 <= j < idx ==> existing[j].name != name
      {
        idx := idx + 1;
      }
    }

    method UpdateFound(ghost k: string, existing: seq<Client>, c: Client, p: UpdateParams, w: World)
      returns (r: Result<Client, Error>)
      requires Valid() && k in db.rows && db.rows[k] == c && existing == List(db.rows)
      modifies this, db
      ensures Valid() && (View(), r) == UpdateAt(sn, old(View()), k, p, w)
    {
      r := CheckFields(existing, c, p, w.now);
      if r.Failure? {
        return;
      }
      if WriteRow in w.faults {
        return Failure(DbFault);
      }
      U.PlannedUpdateFits(sn, db.Contents(), k, p, w.now);
      var ok := db.UpdateClient(r.value);
      if !ok {
        return Failure(UniqueViolation);
      }
      var e := ApplyAndSave(w, p.Canonical());
      if e.Some? {
        return Failure(e.value);
      }
    }

    method Update(name: string, p: UpdateParams, w: World) returns (r: Result<Client, Error>)
      requires Valid()
      modifies this, db
      ensures Valid() && (View(), r) == PeerService.Update(sn, old(View()), name, p, w)
    {
      if ListRows in w.faults {
        return Failure(DbFault);
      }
      var existing := db.ListClients();
      var idx := FindByName(existing, name);
      if idx == |existing| {
        NameNotListed(View(), name);
        return Failure(NotFound);
      }
      NameListed(sn, View(), name, idx, p, w);
      r := UpdateFound(existing[idx].publicKey, existing, existing[idx], p, w);
    }

    method ReplaceAll(es: seq<Entry>, w: World) returns (e: Option<Error>)
      requires Valid() && OrdersFit(View(), es, w)
      modifies this, db
      ensures Valid() && (View(), e) == PeerService.ReplaceAll(sn, old(View()), es, w)
    {
      var valid := ValidateSet(sn, es);
      if !valid {
        return Some(InvalidSet);
      }
      var want := [];
      for i := 0 to |es|
        invariant want == Wanted(es[..i], w.now)
      {
        want := want + [Client(0, es[i].name, es[i].publicKey, es[i].address, true, None, w.now, w.now)];
      }
      assert es[..|es|] == es;
      if WriteRow in w.faults {
        return Some(DbFault);
      }
      var ok := db.ReplaceClients(want, w.orders);
      if !ok {
        return Some(UniqueViolation);
      }
      e := ApplyAndSave(w, true);
      if e.None? && ReturnList in w.faults {
        return Some(DbFault);
      }
    }

    method Delete(name: string, w: World) returns (e: Option<Error>)
      requires Valid()
      modifies this, db
      ensures Valid() && (View(), e) == PeerService.Delete(old(View()), name, w)
    {
      if WriteRow in w.faults {
        return Some(DbFault);
      }
      db.DeleteClient(name);
      e := ApplyAndSave(w, true);
    }

    method Reconcile(w: World) returns (e: Option<Error>)
      requires Valid()
      modifies this
      ensures Valid() && (View(), e) == PeerService.Reconcile(old(View()), w)
    {
      e := Apply(w);
    }

    /** The insert loop of Seed; rows inserted before a failure stay. */
    method SeedRows(seed: seq<Entry>, now: int, fault: Option<nat>) returns (ok: bool)
      requires Valid()
      modifies db
      ensures Valid() && (db.Contents(), ok) == SeedFrom(old(db.Contents()), seed, now, fault)
    {
      for i := 0 to |seed|
        invariant Valid()
        invariant fault.Some? ==> fault.value >= i
        invariant SeedFrom(old(db.Contents()), seed, now, fault)
               == SeedFrom(db.Contents(), seed[i..], now, if fault.Some? then Some(fault.value - i) else None)
      {
        assert seed[i..][1..] == seed[i + 1..];
        if fault == Some(i) {
          return false;
        }
        ok := db.InsertClient(SeedRow(seed[i], now));
        if !ok {
          return false;
        }
      }
      return true;
    }

    method Seed(seed: seq<Entry>, w: World) returns (e: Option<Error>)
      requires Valid()
      modifies db
      ensures Valid() && (View(), e) == PeerService.Seed(old(View()), seed, w)
    {
      if SeedCount in w.faults {
        return Some(DbFault);
      }
      var n := db.CountClients();
      if n > 0 {
        assert db.rows != map[];
        return None;
      }
      assert db.rows == map[];
      var ok := SeedRows(seed, w.now, w.seedFault);
      return if ok then None else Some(DbFault);
    }

    method RecheckStore(w: World) returns (e: Option<Error>)
      requires Valid()
      modifies this`trace, this`ready
      ensures Valid() && (View(), e) == PeerService.RecheckStore(old(View()), w)
    {
      if ready || backend.Noop? {
        return None;
      }
      var ok := AttemptStoreHeal(w);
      return if ok then None else Some(StoreError);
    }

    /** The store has a list: it is authoritative. */
    method RestoreFromStore(es: seq<Entry>, ghost seed: seq<Entry>, w: World) returns (ok: bool)
      requires Valid() && OrdersFit(View(), es, w)
      modifies this, db
      ensures Valid()
      ensures Machine(Booted(ok), View()) == Complete(sn, seed, Machine(ReplacePending(es), old(View())), w)
    {
      ghost var pending := Machine(ReplacePending(es), View());
      var e := ReplaceAll(es, w);
      ok := e.None?;
      ghost var latch := Machine(Latch(ok), View());
      OneStep(sn, seed, pending, latch, w);
      ready := ok;
      OneStep(sn, seed, latch, Machine(Booted(ok), View()), w);
    }

    method SeedAfterHardError(seed: seq<Entry>, w: World)
      requires Valid()
      modifies this, db
      ensures Valid()
      ensures Machine(Booted(false), View()) == Complete(sn, seed, Machine(HardSeed, old(View())), w)
    {
      ghost var start := Machine(HardSeed, View());
      var e := Seed(seed, w);
      if e.None? {
        ghost var seeded := Machine(HardReconcile, View());
        OneStep(sn, seed, start, seeded, w);
        var _ := Reconcile(w);
        OneStep(sn, seed, seeded, Machine(Booted(false), View()), w);
      } else {
        OneStep(sn, seed, start, Machine(Booted(false), View()), w);
      }
    }

    method ReconcileFromHardStoreError(seed: seq<Entry>, w: World) returns (ok: bool)
      requires Valid()
      modifies this, db
      ensures Valid()
      ensures Machine(Booted(ok), View()) == Complete(sn, seed, Machine(HardPending, old(View())), w)
    {
      ghost var start := Machine(HardPending, View());
      ready := false;
      ghost var counting := Machine(HardCount, View());
      OneStep(sn, seed, start, counting, w);
      ok := false;
      if CountRows in w.faults {
        OneStep(sn, seed, counting, Machine(Booted(false), View()), w);
        return;
      }
      var n := db.CountClients();
      if n == 0 {
        assert db.rows == map[];
        OneStep(sn, seed, counting, Machine(HardSeed, View()), w);
        SeedAfterHardError(seed, w);
      } else {
        assert db.rows != map[];
        OneStep(sn, seed, counting, Machine(Booted(false), View()), w);
      }
    }

    /** The table has rows: it heals the store. */
    method HealStore(ghost seed: seq<Entry>, w: World) returns (ok: bool)
      requires Valid()
      modifies this
      ensures Valid()
      ensures Complete(sn, seed, Machine(Latch(ok), View()), w) ==
              Complete(sn, seed, Machine(HealListing, old(View())), w)
    {
      ghost var start := Machine(HealListing, View());
      if HealList in w.faults {
        OneStep(sn, seed, start, Machine(Latch(false), View()), w);
        return false;
      }
      var all := db.ListClients();
      ghost var listed := Machine(HealSave(ToEntries(all)), View());
      OneStep(sn, seed, start, listed, w);
      ok := Save(ToEntries(all), w);
      OneStep(sn, seed, listed, Machine(Latch(ok), View()), w);
    }

    /** The table is empty: the boot manifest seeds the store, then the table and the interface. */
    method SeedStore(seed: seq<Entry>, w: World) returns (ok: bool)
      requires Valid()
      modifies this, db
      ensures Valid()
      ensures Complete(sn, seed, Machine(Latch(ok), View()), w) == Complete(sn, seed, Machine(SeedSave, old(View())), w)
    {
      ghost var start := Machine(SeedSave, View());
      ok := Save(seed, w);
      if ok {
        ghost var saved := Machine(SeedDb, View());
        OneStep(sn, seed, start, saved, w);
        var e := Seed(seed, w);
        if e.None? {
          ghost var seeded := Machine(SeedReconcile, View());
          OneStep(sn, seed, saved, seeded, w);
          e := Reconcile(w);
          OneStep(sn, seed, seeded, Machine(Latch(e.None?), View()), w);
        } else {
          OneStep(sn, seed, saved, Machine(Latch(false), View()), w);
        }
        ok := e.None?;
      } else {
        OneStep(sn, seed, start, Machine(Latch(false), View()), w);
      }
    }

    method HealOrSeed(seed: seq<Entry>, w: World) returns (ok: bool)
      requires Valid()
      modifies this, db
      ensures Valid()
      ensures Complete(sn, seed, Machine(Latch(ok), View()), w) ==
              Complete(sn, seed, Machine(EmptyCount, old(View())), w)
    {
      ghost var start := Machine(EmptyCount, View());
      ok := false;
      if CountRows in w.faults {
        OneStep(sn, seed, start, Machine(Latch(false), View()), w);
      } else {
        var n := db.CountClients();
        if n > 0 {
          assert db.rows != map[];
          OneStep(sn, seed, start, Machine(HealListing, View()), w);
          ok := HealStore(seed, w);
        } else {
          assert db.rows == map[];
          OneStep(sn, seed, start, Machine(SeedSave, View()), w);
          ok := SeedStore(seed, w);
        }
      }
    }

    method ReconcileFromEmptyStore(seed: seq<Entry>, w: World) returns (ok: bool)
      requires Valid()
      modifies this, db
      ensures Valid()
      ensures Machine(Booted(ok), View()) == Complete(sn, seed, Machine(EmptyCount, old(View())), w)
    {
      ok := HealOrSeed(seed, w);
      ghost var latch := Machine(Latch(ok), View());
      ready := ok;
      OneStep(sn, seed, latch, Machine(Booted(ok), View()), w);
    }

    /** The boot path, run without interruption: exactly the boot machine's steps in a row. */
    method ReconcileFromStore(seed: seq<Entry>, w: World) returns (ok: bool)
      requires Valid() && (w.load.Loaded? ==> OrdersFit(View(), w.load.entries, w))
      modifies this, db
      ensures Valid()
      ensures Machine(Booted(ok), View()) == Complete(sn, seed, Machine(NotBooted, old(View())), w)
    {
      ghost var start := Machine(NotBooted, View());
      var outcome := Load(w);
      if outcome.LoadFailed? {
        OneStep(sn, seed, start, Machine(HardPending, View()), w);
        ok := ReconcileFromHardStoreError(seed, w);
      } else if outcome.Missing? || outcome.entries == [] {
        OneStep(sn, seed, start, Machine(EmptyCount, View()), w);
        ok := ReconcileFromEmptyStore(seed, w);
      } else {
        OneStep(sn, seed, start, Machine(ReplacePending(outcome.entries), View()), w);
        ok := RestoreFromStore(outcome.entries, seed, w);
      }
    }
  }
}
