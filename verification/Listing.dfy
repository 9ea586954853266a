/** SELECT ... ORDER BY address, id: the one listing of a table. */
module Listing {
  import opened Ordering
  import opened Types
  import opened ClientTable

  predicate AddressThenId(a: Client, b: Client) {
    Less(a.address, b.address) || (a.address == b.address && a.id <= b.id)
  }

  lemma AddressThenIdIsTotal()
    ensures TotalPreorder(AddressThenId)
  {
    forall x, y ensures AddressThenId(x, y) || AddressThenId(y, x) {
      LessTrichotomy(x.address, y.address);
    }
    forall x, y, z | AddressThenId(x, y) && AddressThenId(y, z) ensures AddressThenId(x, z) {
      if Less(x.address, y.address) && Less(y.address, z.address) {
        LessTransitive(x.address, y.address, z.address);
      }
    }
  }

  ghost function List(rows: Rows): seq<Client> {
    SortBy(MapValues(rows), AddressThenId)
  }

  /** The listing holds each row once, in ascending (address, id) order. */
  lemma ListHasRows(rows: Rows)
    requires Keyed(rows)
    ensures multiset(List(rows)) == multiset(rows.Values)
    ensures Sorted(List(rows), AddressThenId)
    ensures forall c :: c in List(rows) <==> c.publicKey in rows && rows[c.publicKey] == c
  {
    SortPermutes(MapValues(rows), AddressThenId);
    MapValuesAreAll(rows);
    AddressThenIdIsTotal();
    SortIsSorted(MapValues(rows), AddressThenId);
    forall c ensures c in List(rows) <==> c in rows.Values {
      assert c in List(rows) <==> c in multiset(List(rows));
    }
    assert forall c :: c in rows.Values <==> c.publicKey in rows && rows[c.publicKey] == c;
  }

  /** Ascending, written out: by the address text byte by byte, rows of one address by id. */
  lemma ListAscends(rows: Rows)
    requires Keyed(rows)
    ensures forall i, j :: 0 <= i < j < |List(rows)| ==>
              var a, b := List(rows)[i], List(rows)[j];
              BytesBefore(a.address, b.address) || (a.address == b.address && a.id <= b.id)
  {
    ListHasRows(rows);
    forall i, j | 0 <= i < j < |List(rows)| ensures AddressThenId(List(rows)[i], List(rows)[j]) {}
    forall a: string, b: string ensures Less(a, b) <==> BytesBefore(a, b) { LessIsByteOrder(a, b); }
  }

  /** Any sorted arrangement of the rows is the listing: the database's scan order does not matter. */
  lemma ListIsUnique(rows: Rows, out: seq<Client>)
    requires Keyed(rows) && Injective(rows)
    requires multiset(out) == multiset(rows.Values) && Sorted(out, AddressThenId)
    ensures out == List(rows)
  {
    ListHasRows(rows);
    forall x, y | x in multiset(out) && y in multiset(out) && AddressThenId(x, y) && AddressThenId(y, x)
      ensures x == y
    {
      LessTrichotomy(x.address, y.address);
      assert x in rows.Values && y in rows.Values;
    }
    SortedUnique(out, List(rows), AddressThenId);
  }
}
