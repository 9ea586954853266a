/** The smallest inputs at which boot shows what it does not promise. */
module OneClient {
  import opened Wrappers
  import opened Ordering
  import opened Types
  import opened ClientTable
  import opened Listing
  import opened Rendering
  import opened PeerService

  /** One client in the table, an empty interface, and a store never written. */
  function Alone(c: Client): State {
    State(Table(map[c.publicKey := c], c.id + 1), "", S3(None), true, [])
  }

  /** A world in which nothing fails. */
  function Calm(load: LoadOutcome, orders: Orders): World { World(0, {}, load, Applied, Saved, orders, None) }

  lemma AloneIsListed(c: Client)
    ensures ValidTable(Alone(c).table) && List(Alone(c).table.rows) == [c]
  {
    var rows := Alone(c).table.rows;
    ListHasRows(rows);
    assert rows.Values == {c};
    assert multiset(List(rows)) == multiset{c};
    assert |multiset(List(rows))| == |List(rows)|;
    assert List(rows)[0] in multiset(List(rows));
  }

  lemma EnabledClientRenders(c: Client)
    requires c.enabled
    ensures Render(Alone(c).table.rows) != ""
  {
    AloneIsListed(c);
    var ps := ToPeers([c]);
    RendersEnabledAscending(ps);
    assert ps == [ToPeer(c)] && Enabled(ps[1..]) == [];
    assert Enabled(ps) == [ToPeer(c)];
    assert SortBy([ToPeer(c)], PeerLeq) == [ToPeer(c)];
  }
}
