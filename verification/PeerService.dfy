/** What each operation of clients.Service does to the four copies of the peer set: the table,
    the live interface, the store object and the write-through latch (clients/service.go). */
module PeerService {
  import opened Wrappers
  import opened Ordering
  import opened Alloc
  import opened Types
  import opened Validate
  import opened ClientTable
  import opened Listing
  import opened Rendering

  /** Database calls that may fail for reasons of their own. */
  datatype Site = ListRows | WriteRow | ApplyList | SaveList | CountRows | SeedCount | HealList | ReturnList

  /** Store.Load: the entries, ErrNotFound, or any other error. */
  datatype LoadOutcome = Loaded(entries: seq<Entry>) | Missing | LoadFailed

  /** Applier.Apply; a failure may leave anything on the interface. */
  datatype ApplyOutcome = Applied | ApplyFailed(liveAfter: string)

  /** Store.Save; a failure may leave anything in the store. */
  datatype SaveOutcome = Saved | SaveFailed(objectAfter: Option<seq<Entry>>)

  /** Everything an operation does not decide itself: clock, faults, outcomes, map orders. */
  datatype World = World(now: int, faults: set<Site>, load: LoadOutcome, apply: ApplyOutcome, save: SaveOutcome,
                         orders: Orders, seedFault: Option<nat>)

  datatype Error =
    | InvalidName | InvalidKey | InUse | NoAddress | NotFound | InvalidSet
    | DbFault | UniqueViolation | ApplyError | StoreError

  /** Calls on the outside world, in order. */
  datatype Event =
    | DidLoad(outcome: LoadOutcome)
    | DidApply(clients: seq<Client>, ok: bool)
    | DidSave(entries: seq<Entry>, ok: bool)

  /** NoopStore (local mode) or the S3 object, absent until first written. */
  datatype Backend = Noop | S3(stored: Option<seq<Entry>>)

  datatype State = State(table: Table, live: string, backend: Backend, ready: bool, trace: seq<Event>)

  predicate EntryLeq(a: Entry, b: Entry) { !Less(b.address, a.address) }

  /** clientstore.Canonical, before JSON encoding: ascending by address text. */
  function Canonical(es: seq<Entry>): seq<Entry> { SortBy(es, EntryLeq) }

  /** The live configuration that wgsync stages for a client list. */
  function RenderList(cs: seq<Client>): string { ServerPeersText(ToPeers(cs)) }

  ghost function Render(rows: Rows): string { RenderList(List(rows)) }

  /** The store's projection of the table. */
  ghost function Projection(rows: Rows): seq<Entry> { ToEntries(List(rows)) }

  ghost function DoLoad(s: State, w: World): (State, LoadOutcome) {
    if s.backend.Noop? then (s, Missing) else (s.(trace := s.trace + [DidLoad(w.load)]), w.load)
  }

  ghost function DoSave(s: State, es: seq<Entry>, w: World): (State, bool) {
    if s.backend.Noop? then (s, true)
    else
      var stored := if w.save.Saved? then Some(Canonical(es)) else w.save.objectAfter;
      (s.(backend := S3(stored), trace := s.trace + [DidSave(es, w.save.Saved?)]), w.save.Saved?)
  }

  /** attemptStoreHealLocked: any answer but a hard error re-arms the latch. */
  ghost function Heal(s: State, w: World): (State, bool) {
    var (s1, outcome) := DoLoad(s, w);
    if outcome.LoadFailed? then (s1, false) else (s1.(ready := true), true)
  }

  ghost function ApplyLocked(s: State, w: World): (State, Option<Error>) {
    if ApplyList in w.faults then (s, Some(DbFault))
    else
      var list := List(s.table.rows);
      var s1 := s.(trace := s.trace + [DidApply(list, w.apply.Applied?)],
                   live := if w.apply.Applied? then RenderList(list) else w.apply.liveAfter);
      (s1, if w.apply.Applied? then None else Some(ApplyError))
  }

  /** saveStoreLocked: store trouble is logged, never returned. */
  ghost function SaveStoreLocked(s: State, w: World): (State, Option<Error>) {
    var (s1, open) := if s.ready then (s, true) else Heal(s, w);
    if !open then (s1, None)
    else if SaveList in w.faults then (s1, Some(DbFault))
    else (DoSave(s1, Projection(s1.table.rows), w).0, None)
  }

  /** The tail every mutation shares: apply, then (for canonical changes) write through. */
  ghost function Finish(s: State, w: World, writeThrough: bool): (State, Option<Error>) {
    var (s1, e) := ApplyLocked(s, w);
    if e.Some? || !writeThrough then (s1, e) else SaveStoreLocked(s1, w)
  }

  /** Write the table (None is a UNIQUE violation), then the shared tail. */
  ghost function WriteThenFinish(s: State, t: Option<Table>, w: World, writeThrough: bool): (State, Option<Error>) {
    if WriteRow in w.faults then (s, Some(DbFault))
    else if t.None? then (s, Some(UniqueViolation))
    else Finish(s.(table := t.value), w, writeThrough)
  }

  datatype AddParams = AddParams(name: string, publicKey: string, address: string, note: string)

  function NoteToNull(s: string): Option<string> { if s == "" then None else Some(s) }

  function AddressesOf(cs: seq<Client>): (out: seq<string>)
    ensures |out| == |cs| && forall i :: 0 <= i < |cs| ==> out[i] == cs[i].address
  {
    seq(|cs|, i requires 0 <= i < |cs| => cs[i].address)
  }

  function AddressesExcluding(cs: seq<Client>, id: nat): seq<string> {
    if cs == [] then []
    else (if cs[0].id == id then [] else [cs[0].address]) + AddressesExcluding(cs[1..], id)
  }

  /** The checks of Add against the rows it has listed: the row to insert, or why not. */
  function PlanAdd(sn: ServerNet, existing: seq<Client>, p: AddParams, now: int): Result<Client, Error>
    requires sn.Valid()
  {
    if exists c :: c in existing && (c.name == p.name || c.publicKey == p.publicKey) then Failure(InUse)
    else
      var used := AddressesOf(existing);
      var addr := if p.address == "" then Allocate(sn, used) else Override(sn, p.address, used);
      if addr.None? then Failure(NoAddress)
      else Success(Client(0, p.name, p.publicKey, addr.value, true, NoteToNull(p.note), now, now))
  }

  /** Everything Add decides before it writes. */
  function AdmitAdd(sn: ServerNet, existing: seq<Client>, p: AddParams, w: World): Result<Client, Error>
    requires sn.Valid()
  {
    if !ValidName(p.name) then Failure(InvalidName)
    else if !ValidPublicKey(p.publicKey) then Failure(InvalidKey)
    else if ListRows in w.faults then Failure(DbFault)
    else PlanAdd(sn, existing, p, w.now)
  }

  ghost function AddPlanned(s: State, plan: Result<Client, Error>, w: World): (State, Result<Client, Error>) {
    if plan.Failure? then (s, plan)
    else
      var (s1, e) := WriteThenFinish(s, InsertRow(s.table, plan.value), w, true);
      (s1, if e.Some? then Failure(e.value) else plan)
  }

  ghost function Add(sn: ServerNet, s: State, p: AddParams, w: World): (State, Result<Client, Error>)
    requires sn.Valid()
  {
    AddPlanned(s, AdmitAdd(sn, List(s.table.rows), p, w), w)
  }

  datatype UpdateParams = UpdateParams(name: Option<string>, publicKey: Option<string>, address: Option<string>,
                                       note: Option<string>, enabled: Option<bool>) {
    /** Whether a field the store carries is supplied. */
    predicate Canonical() { name.Some? || publicKey.Some? || address.Some? }
  }

  function PlanName(existing: seq<Client>, c: Client, p: UpdateParams): Result<Client, Error> {
    if p.name.None? || p.name.value == c.name then Success(c)
    else if !ValidName(p.name.value) then Failure(InvalidName)
    else if exists d :: d in existing && d.id != c.id && d.name == p.name.value then Failure(InUse)
    else Success(c.(name := p.name.value))
  }

  function PlanKey(existing: seq<Client>, c: Client, p: UpdateParams): Result<Client, Error> {
    if p.publicKey.None? || p.publicKey.value == c.publicKey then Success(c)
    else if !ValidPublicKey(p.publicKey.value) then Failure(InvalidKey)
    else if exists d :: d in existing && d.id != c.id && d.publicKey == p.publicKey.value then Failure(InUse)
    else Success(c.(publicKey := p.publicKey.value))
  }

  function PlanAddress(sn: ServerNet, existing: seq<Client>, c: Client, p: UpdateParams): Result<Client, Error>
    requires sn.Valid()
  {
    if p.address.None? then Success(c)
    else
      var addr := Override(sn, p.address.value, AddressesExcluding(existing, c.id));
      if addr.None? then Failure(NoAddress) else Success(c.(address := addr.value))
  }

  /** The unchecked fields of an update, and its time. */
  function Stamped(c: Client, p: UpdateParams, now: int): Client {
    var e := if p.note.Some? then c.(note := NoteToNull(p.note.value)) else c;
    var f := if p.enabled.Some? then e.(enabled := p.enabled.value) else e;
    f.(updatedAt := now)
  }

  /** The checks of Update on the row it found: the row to write, or why not. */
  function PlanUpdate(sn: ServerNet, existing: seq<Client>, c: Client, p: UpdateParams, now: int): Result<Client, Error>
    requires sn.Valid()
  {
    var a := PlanName(existing, c, p);
    if a.Failure? then a
    else
      var b := PlanKey(existing, a.value, p);
      if b.Failure? then b
      else
        var d := PlanAddress(sn, existing, b.value, p);
        if d.Failure? then d else Success(Stamped(d.value, p, now))
  }

  ghost predicate HasName(rows: Rows, k: string, name: string) { k in rows && rows[k].name == name }

  function UpdateTable(t: Table, k: string, c: Client): Option<Table>
    requires k in t.rows
  {
    var rows := UpdateRow(t.rows, k, c);
    if rows.None? then None else Some(t.(rows := rows.value))
  }

  /** Update once the row is found. */
  ghost function UpdateAt(sn: ServerNet, s: State, k: string, p: UpdateParams, w: World): (State, Result<Client, Error>)
    requires sn.Valid() && k in s.table.rows
  {
    var plan := PlanUpdate(sn, List(s.table.rows), s.table.rows[k], p, w.now);
    if plan.Failure? then (s, plan)
    else
      var (s1, e) := WriteThenFinish(s, UpdateTable(s.table, k, plan.value), w, p.Canonical());
      (s1, if e.Some? then Failure(e.value) else plan)
  }

  ghost function Update(sn: ServerNet, s: State, name: string, p: UpdateParams, w: World)
    : (State, Result<Client, Error>)
    requires sn.Valid()
  {
    if ListRows in w.faults then (s, Failure(DbFault))
    else if !exists k :: HasName(s.table.rows, k, name) then (s, Failure(NotFound))
    else
      var k :| HasName(s.table.rows, k, name);
      UpdateAt(sn, s, k, p, w)
  }

  function Wanted(es: seq<Entry>, now: int): (want: seq<Client>)
    ensures |want| == |es|
    ensures forall i :: 0 <= i < |es| ==>
            want[i] == Client(0, es[i].name, es[i].publicKey, es[i].address, true, None, now, now)
  {
    seq(|es|, i requires 0 <= i < |es| => Client(0, es[i].name, es[i].publicKey, es[i].address, true, None, now, now))
  }

  /** The orders the world gives fit the maps of this call. */
  ghost predicate OrdersFit(s: State, es: seq<Entry>, w: World) {
    ValidOrders(w.orders, s.table.rows, WantByKey(Wanted(es, w.now)))
  }

  ghost function ReplaceAll(sn: ServerNet, s: State, es: seq<Entry>, w: World): (State, Option<Error>)
    requires sn.Valid()
  {
    if !ValidSet(sn, es) then (s, Some(InvalidSet))
    else
      var (s1, e) := WriteThenFinish(s, Replace(s.table, WantByKey(Wanted(es, w.now)), w.orders), w, true);
      (s1, if e.Some? then e else if ReturnList in w.faults then Some(DbFault) else None)
  }

  ghost function Delete(s: State, name: string, w: World): (State, Option<Error>) {
    WriteThenFinish(s, Some(s.table.(rows := DeleteByName(s.table.rows, name))), w, true)
  }

  ghost function Reconcile(s: State, w: World): (State, Option<Error>) { ApplyLocked(s, w) }

  function SeedRow(e: Entry, now: int): Client {
    Client(0, e.name, e.publicKey, e.address, true, None, now, now)
  }

  /** The seed loop is not a transaction: rows inserted before a failure stay. */
  function SeedFrom(t: Table, seed: seq<Entry>, now: int, fault: Option<nat>): (Table, bool)
    decreases |seed|
  {
    if seed == [] then (t, true)
    else if fault == Some(0) then (t, false)
    else
      var next := InsertRow(t, SeedRow(seed[0], now));
      if next.None? then (t, false)
      else SeedFrom(next.value, seed[1..], now, if fault.Some? then Some(fault.value - 1) else None)
  }

  ghost function Seed(s: State, seed: seq<Entry>, w: World): (State, Option<Error>) {
    if SeedCount in w.faults then (s, Some(DbFault))
    else if s.table.rows != map[] then (s, None)
    else
      var (t, ok) := SeedFrom(s.table, seed, w.now, w.seedFault);
      (s.(table := t), if ok then None else Some(DbFault))
  }

  ghost function RecheckStore(s: State, w: World): (State, Option<Error>) {
    if s.ready || s.backend.Noop? then (s, None)
    else
      var (s1, ok) := Heal(s, w);
      (s1, if ok then None else Some(StoreError))
  }
}
