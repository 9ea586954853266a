/** The clients table (db/db.go): SQL statements with their per-statement UNIQUE checks,
    and the statement sequence of replaceClientsTx for a given map iteration order. */
module ClientTable {
  import opened Wrappers
  import opened Types

  /** The rows, keyed by the UNIQUE public_key column. */
  type Rows = map<string, Client>

  /** Rows plus the AUTOINCREMENT counter. */
  datatype Table = Table(rows: Rows, nextId: nat)

  ghost predicate Keyed(rows: Rows) {
    forall k :: k in rows ==> rows[k].publicKey == k
  }

  /** The UNIQUE constraints on name and address. */
  ghost predicate Injective(rows: Rows) {
    forall j, k :: j in rows && k in rows && j != k ==>
      rows[j].name != rows[k].name && rows[j].address != rows[k].address
  }

  ghost predicate ValidTable(t: Table) {
    && Keyed(t.rows) && Injective(t.rows)
    && (forall k :: k in t.rows ==> t.rows[k].id < t.nextId)
    && (forall j, k :: j in t.rows && k in t.rows && j != k ==> t.rows[j].id != t.rows[k].id)
  }

  /** Some row other than `self` already holds the name or the address. */
  predicate Taken(rows: Rows, self: string, name: string, address: string) {
    exists j :: j in rows && j != self && (rows[j].name == name || rows[j].address == address)
  }

  /** INSERT; None is a UNIQUE violation. */
  function InsertRow(t: Table, c: Client): Option<Table> {
    if c.publicKey in t.rows || Taken(t.rows, c.publicKey, c.name, c.address) then None
    else Some(Table(t.rows[c.publicKey := c.(id := t.nextId)], t.nextId + 1))
  }

  /** The row after UPDATE: id and created_at stay. */
  function Overwrite(was: Client, c: Client): Client {
    c.(id := was.id, createdAt := was.createdAt)
  }

  /** UPDATE of the row stored under `key`; None is a UNIQUE violation. */
  function UpdateRow(rows: Rows, key: string, c: Client): Option<Rows>
    requires key in rows
  {
    if (c.publicKey != key && c.publicKey in rows) || Taken(rows, key, c.name, c.address) then None
    else Some((rows - {key})[c.publicKey := Overwrite(rows[key], c)])
  }

  /** DELETE ... WHERE name = ?. */
  function DeleteByName(rows: Rows, name: string): Rows {
    map k | k in rows && rows[k].name != name :: rows[k]
  }

  lemma InsertKeepsValid(t: Table, c: Client)
    requires ValidTable(t)
    ensures InsertRow(t, c).Some? ==> ValidTable(InsertRow(t, c).value)
  {
  }

  lemma UpdateKeepsValid(t: Table, key: string, c: Client)
    requires ValidTable(t) && key in t.rows
    ensures UpdateRow(t.rows, key, c).Some? ==> ValidTable(t.(rows := UpdateRow(t.rows, key, c).value))
  {
  }

  /** wantByKey: the last entry with a key wins. */
  function WantByKey(want: seq<Client>): Rows {
    if want == [] then map[]
    else
      var last := want[|want| - 1];
      WantByKey(want[..|want| - 1])[last.publicKey := last]
  }

  lemma {:induction false} WantIsKeyed(want: seq<Client>)
    ensures Keyed(WantByKey(want))
    ensures WantByKey(want).Keys == set c | c in want :: c.publicKey
  {
    if want != [] {
      var init := want[..|want| - 1];
      WantIsKeyed(init);
      assert want == init + [want[|want| - 1]];
    }
  }

  /** One iteration order per loop of replaceClientsTx; Go leaves them arbitrary. */
  datatype Orders = Orders(deletes: seq<string>, updates: seq<string>, inserts: seq<string>)

  ghost predicate IsOrder(order: seq<string>, keys: set<string>) {
    && (forall i, j :: 0 <= i < j < |order| ==> order[i] != order[j])
    && (forall k :: k in order <==> k in keys)
  }

  ghost predicate ValidOrders(o: Orders, existing: Rows, want: Rows) {
    IsOrder(o.deletes, existing.Keys) && IsOrder(o.updates, want.Keys) && IsOrder(o.inserts, want.Keys)
  }

  /** The update loop skips a row none of whose mutable columns changes. */
  predicate Same(was: Client, next: Client) {
    was.name == next.name && was.address == next.address && was.enabled == next.enabled && was.note == next.note
  }

  function RunDeletes(cur: Rows, want: Rows, order: seq<string>): Rows {
    if order == [] then cur
    else RunDeletes(if order[0] in want then cur else cur - {order[0]}, want, order[1..])
  }

  /** One turn of the update loop; an UPDATE whose row is gone affects nothing. */
  function UpdateTurn(cur: Rows, existing: Rows, want: Rows, k: string): Option<Rows> {
    if k !in want || k !in existing || k !in cur || Same(existing[k], want[k]) then Some(cur)
    else UpdateRow(cur, k, want[k])
  }

  function RunUpdates(cur: Rows, existing: Rows, want: Rows, order: seq<string>): Option<Rows>
    decreases |order|
  {
    if order == [] then Some(cur)
    else
      var next := UpdateTurn(cur, existing, want, order[0]);
      if next.None? then None else RunUpdates(next.value, existing, want, order[1..])
  }

  /** One turn of the insert loop. */
  function InsertTurn(cur: Table, existing: Rows, want: Rows, k: string): Option<Table> {
    if k !in want || k in existing then Some(cur) else InsertRow(cur, want[k])
  }

  function RunInserts(cur: Table, existing: Rows, want: Rows, order: seq<string>): Option<Table>
    decreases |order|
  {
    if order == [] then Some(cur)
    else
      var next := InsertTurn(cur, existing, want, order[0]);
      if next.None? then None else RunInserts(next.value, existing, want, order[1..])
  }

  /** The whole transaction: Some(table) when every statement succeeds, None when it rolls back. */
  function Replace(t: Table, want: Rows, o: Orders): Option<Table> {
    var updated := RunUpdates(RunDeletes(t.rows, want, o.deletes), t.rows, want, o.updates);
    if updated.None? then None
    else RunInserts(Table(updated.value, t.nextId), t.rows, want, o.inserts)
  }
}
