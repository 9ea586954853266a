/** The clients half of db.DB: each method is one transaction on the table. */
module ClientsDb {
  import opened Wrappers
  import opened Ordering
  import opened Types
  import opened ClientTable
  import opened Listing
  import RO = ReplaceOrder

  method UpdateLoop(start: Rows, existing: Rows, wanted: Rows, order: seq<string>) returns (r: Option<Rows>)
    ensures r == RunUpdates(start, existing, wanted, order)
  {
    var rows := start;
    for i := 0 to |order|
      invariant RunUpdates(rows, existing, wanted, order[i..]) == RunUpdates(start, existing, wanted, order)
    {
      assert order[i..][1..] == order[i + 1..];
      var next := UpdateTurn(rows, existing, wanted, order[i]);
      if next.None? {
        return None;
      }
      rows := next.value;
    }
    return Some(rows);
  }

  method InsertLoop(start: Table, existing: Rows, wanted: Rows, order: seq<string>) returns (r: Option<Table>)
    ensures r == RunInserts(start, existing, wanted, order)
  {
    var t := start;
    for i := 0 to |order|
      invariant RunInserts(t, existing, wanted, order[i..]) == RunInserts(start, existing, wanted, order)
    {
      assert order[i..][1..] == order[i + 1..];
      var next := InsertTurn(t, existing, wanted, order[i]);
      if next.None? {
        return None;
      }
      t := next.value;
    }
    return Some(t);
  }

  /** replaceClientsTx: three loops over maps, whose iteration orders are given. */
  method ReplaceClientsTx(t: Table, want: seq<Client>, o: Orders) returns (r: Option<Table>)
    ensures r == Replace(t, WantByKey(want), o)
  {
    var wanted := map[];
    for i := 0 to |want|
      invariant wanted == WantByKey(want[..i])
    {
      assert want[..i + 1][..i] == want[..i];
      wanted := wanted[want[i].publicKey := want[i]];
    }
    assert want[..|want|] == want;

    var rows := t.rows;
    for i := 0 to |o.deletes|
      invariant RunDeletes(rows, wanted, o.deletes[i..]) == RunDeletes(t.rows, wanted, o.deletes)
    {
      assert o.deletes[i..][1..] == o.deletes[i + 1..];
      if o.deletes[i] !in wanted {
        rows := rows - {o.deletes[i]};
      }
    }
    var updated := UpdateLoop(rows, t.rows, wanted, o.updates);
    if updated.None? {
      return None;
    }
    r := InsertLoop(Table(updated.value, t.nextId), t.rows, wanted, o.inserts);
  }

  class DB {
    var rows: Rows
    var nextId: nat

    function Contents(): Table
      reads this
    {
      Table(rows, nextId)
    }

    ghost predicate Valid()
      reads this
    {
      ValidTable(Contents())
    }

    constructor ()
      ensures Valid() && Contents() == Table(map[], 1)
    {
      rows, nextId := map[], 1;
    }

    /** INSERT: a UNIQUE violation is an error, never an overwrite. */
    method InsertClient(c: Client) returns (ok: bool)
      requires Valid()
      modifies this
      ensures Valid()
      ensures ok == InsertRow(old(Contents()), c).Some?
      ensures Contents() == if ok then InsertRow(old(Contents()), c).value else old(Contents())
    {
      InsertKeepsValid(Contents(), c);
      if c.publicKey in rows || Taken(rows, c.publicKey, c.name, c.address) {
        return false;
      }
      rows := rows[c.publicKey := c.(id := nextId)];
      nextId := nextId + 1;
      return true;
    }

    /** UPDATE ... WHERE id = ?: no row with that id means no effect and no error. */
    method UpdateClient(c: Client) returns (ok: bool)
      requires Valid()
      modifies this`rows
      ensures Valid()
      ensures forall k :: k in old(rows) && old(rows)[k].id == c.id ==>
                            && ok == UpdateRow(old(rows), k, c).Some?
                            && rows == if ok then UpdateRow(old(rows), k, c).value else old(rows)
      ensures (forall k :: k in old(rows) ==> old(rows)[k].id != c.id) ==> ok && rows == old(rows)
    {
      if k :| k in rows && rows[k].id == c.id {
        UpdateKeepsValid(Contents(), k, c);
        if (c.publicKey != k && c.publicKey in rows) || Taken(rows, k, c.name, c.address) {
          return false;
        }
        rows := (rows - {k})[c.publicKey := Overwrite(rows[k], c)];
      }
      return true;
    }

    method DeleteClient(name: string)
      requires Valid()
      modifies this`rows
      ensures Valid() && rows == DeleteByName(old(rows), name)
    {
      rows := map k | k in rows && rows[k].name != name :: rows[k];
    }

    /** Scan in whatever order, then ORDER BY. */
    method ListClients() returns (out: seq<Client>)
      requires Valid()
      ensures out == List(rows)
    {
      out := RangeValues(rows);
      AddressThenIdIsTotal();
      SortPermutes(out, AddressThenId);
      SortIsSorted(out, AddressThenId);
      ListIsUnique(rows, SortBy(out, AddressThenId));
      out := SortBy(out, AddressThenId);
    }

    method CountClients() returns (n: nat)
      ensures n == |rows|
    {
      n := |rows|;
    }

    /** ReplaceClients: run the transaction on a private copy, then commit or drop it whole. */
    method ReplaceClients(want: seq<Client>, o: Orders) returns (ok: bool)
      requires Valid() && ValidOrders(o, rows, WantByKey(want))
      modifies this
      ensures Valid()
      ensures ok == Replace(old(Contents()), WantByKey(want), o).Some?
      ensures Contents() == if ok then Replace(old(Contents()), WantByKey(want), o).value else old(Contents())
    {
      WantIsKeyed(want);
      RO.ReplaceIsExact(Contents(), WantByKey(want), o);
      var tx := ReplaceClientsTx(Contents(), want, o);
      if tx.None? {
        return false;
      }
      rows, nextId := tx.value.rows, tx.value.nextId;
      return true;
    }
  }
}
