/** What goes live, in terms of the table's rows: the enabled ones, spelled out as text. */
module LiveConfig {
  import opened Wrappers
  import opened Text
  import opened Ordering
  import opened Ipv4
  import opened Types
  import opened ClientTable
  import opened Listing
  import opened Rendering
  import opened PeerService

  function EnabledRows(rows: Rows): Rows { map k | k in rows && rows[k].enabled :: rows[k] }

  function OnlyEnabled(cs: seq<Client>): seq<Client> {
    if cs == [] then [] else (if cs[0].enabled then [cs[0]] else []) + OnlyEnabled(cs[1..])
  }

  lemma {:induction false} OnlyEnabledCounts(cs: seq<Client>)
    ensures forall c :: multiset(OnlyEnabled(cs))[c] == if c.enabled then multiset(cs)[c] else 0
  {
    if cs != [] {
      OnlyEnabledCounts(cs[1..]);
      assert cs == [cs[0]] + cs[1..];
    }
  }

  lemma {:induction false} OnlyEnabledSorted(cs: seq<Client>)
    requires Sorted(cs, AddressThenId)
    ensures Sorted(OnlyEnabled(cs), AddressThenId)
  {
    if cs != [] {
      var rest := OnlyEnabled(cs[1..]);
      OnlyEnabledSorted(cs[1..]);
      OnlyEnabledCounts(cs[1..]);
      forall j | 0 <= j < |rest| ensures AddressThenId(cs[0], rest[j]) {
        assert rest[j] in multiset(rest) && rest[j] in multiset(cs[1..]);
      }
    }
  }

  /** Listing the enabled rows is listing all rows and keeping the enabled ones. */
  lemma EnabledListing(rows: Rows)
    requires Keyed(rows) && Injective(rows)
    ensures OnlyEnabled(List(rows)) == List(EnabledRows(rows))
  {
    var kept, enabled := OnlyEnabled(List(rows)), EnabledRows(rows);
    ListHasRows(rows);
    OnlyEnabledCounts(List(rows));
    OnlyEnabledSorted(List(rows));
    forall c ensures multiset(kept)[c] == multiset(enabled.Values)[c] {
      assert c in rows.Values <==> c.publicKey in rows && rows[c.publicKey] == c;
      assert c in enabled.Values <==> c.publicKey in enabled && enabled[c.publicKey] == c;
      assert multiset(List(rows))[c] == multiset(rows.Values)[c];
    }
    assert multiset(kept) == multiset(enabled.Values);
    ListIsUnique(enabled, kept);
  }

  lemma {:induction false} EnabledPeers(cs: seq<Client>)
    ensures Enabled(ToPeers(cs)) == ToPeers(OnlyEnabled(cs))
  {
    if cs != [] {
      EnabledPeers(cs[1..]);
      assert ToPeers(cs)[1..] == ToPeers(cs[1..]);
      var head := if cs[0].enabled then [cs[0]] else [];
      assert ToPeers(head + OnlyEnabled(cs[1..])) == ToPeers(head) + ToPeers(OnlyEnabled(cs[1..]));
    }
  }

  lemma {:induction false} OnlyEnabledIdempotent(cs: seq<Client>)
    ensures OnlyEnabled(OnlyEnabled(cs)) == OnlyEnabled(cs)
  {
    if cs != [] {
      var rest := OnlyEnabled(cs[1..]);
      OnlyEnabledIdempotent(cs[1..]);
      assert [] + rest == rest && ([cs[0]] + rest)[1..] == rest;
    }
  }

  /** A disabled client never goes live: a table renders as if its disabled rows were not there. */
  lemma DisabledRowsAreNotLive(rows: Rows)
    requires Keyed(rows) && Injective(rows)
    ensures Render(rows) == Render(EnabledRows(rows))
    ensures (forall k :: k in rows ==> !rows[k].enabled) ==> Render(rows) == ""
  {
    var list := List(rows);
    EnabledListing(rows);
    EnabledPeers(list);
    EnabledPeers(OnlyEnabled(list));
    OnlyEnabledIdempotent(list);
    assert Enabled(ToPeers(List(EnabledRows(rows)))) == Enabled(ToPeers(list));
    if forall k :: k in rows ==> !rows[k].enabled {
      assert EnabledRows(rows) == map[];
      assert OnlyEnabled(list) == [] by { ListHasRows(EnabledRows(rows)); }
    }
  }

  /** The lines of one client: its name as a comment, its key and its address. */
  function PeerLines(c: Client): string {
    (if c.name == "" then "" else "# " + c.name + "\n")
    + "[Peer]\n" + "PublicKey = " + c.publicKey + "\n" + "AllowedIPs = " + c.address + "\n"
    + "PersistentKeepalive = 25\n"
  }

  /** The lines of each client in turn, with a blank line in between. */
  function PeerBlocks(cs: seq<Client>): string {
    if cs == [] then ""
    else if |cs| == 1 then PeerLines(cs[0])
    else PeerBlocks(cs[..|cs| - 1]) + "\n" + PeerLines(cs[|cs| - 1])
  }

  lemma StanzaSpelled(c: Client)
    ensures Stanza(ToPeer(c)) == PeerLines(c)
  {
    assert Decimal(25) == "25";
    assert "PersistentKeepalive = " + "25" == "PersistentKeepalive = 25";
    var front := (if c.name == "" then "" else "# " + c.name + "\n")
                 + "[Peer]\n" + "PublicKey = " + c.publicKey + "\n" + "AllowedIPs = " + c.address + "\n";
    assert (front + "PersistentKeepalive = ") + "25" + "\n" == front + "PersistentKeepalive = 25\n";
  }

  lemma {:induction false} StanzasSpelled(cs: seq<Client>)
    ensures Stanzas(ToPeers(cs)) == PeerBlocks(cs)
    decreases |cs|
  {
    if cs != [] {
      var ps := ToPeers(cs);
      StanzaSpelled(cs[|cs| - 1]);
      StanzasSpelled(cs[..|cs| - 1]);
      assert ps[..|ps| - 1] == ToPeers(cs[..|cs| - 1]);
    }
  }

  predicate ClientLeq(a: Client, b: Client) { PeerLeq(ToPeer(a), ToPeer(b)) }

  lemma ToPeersCons(c: Client, cs: seq<Client>)
    ensures ToPeers([c] + cs) == [ToPeer(c)] + ToPeers(cs)
  {
  }

  lemma {:induction false} InsertMapped(c: Client, cs: seq<Client>)
    ensures ToPeers(Insert(c, cs, ClientLeq)) == Insert(ToPeer(c), ToPeers(cs), PeerLeq)
    decreases |cs|
  {
    ToPeersCons(c, cs);
    if cs != [] && !ClientLeq(c, cs[0]) {
      InsertMapped(c, cs[1..]);
      assert ToPeers(cs)[1..] == ToPeers(cs[1..]);
      ToPeersCons(cs[0], Insert(c, cs[1..], ClientLeq));
    }
  }

  lemma {:induction false} SortMapped(cs: seq<Client>)
    ensures ToPeers(SortBy(cs, ClientLeq)) == SortBy(ToPeers(cs), PeerLeq)
  {
    if cs != [] {
      SortMapped(cs[1..]);
      InsertMapped(cs[0], SortBy(cs[1..], ClientLeq));
      assert ToPeers(cs)[1..] == ToPeers(cs[1..]);
    }
  }

  /** The addresses in the order of their numbers; texts that hold no number come last, in byte order. */
  ghost predicate InHostOrder(a: string, b: string) {
    match (ParseHost(a), ParseHost(b))
    case (Some(x), Some(y)) => x <= y
    case (Some(_), None) => true
    case (None, Some(_)) => false
    case (None, None) => a == b || BytesBefore(a, b)
  }

  /** The enabled rows, each once, in host order. */
  ghost predicate IsLiveListing(rows: Rows, cs: seq<Client>) {
    && (forall c :: c in cs <==> c.publicKey in rows && rows[c.publicKey] == c && c.enabled)
    && (forall i, j :: 0 <= i < j < |cs| ==> cs[i].publicKey != cs[j].publicKey)
    && (forall i, j :: 0 <= i < j < |cs| ==> InHostOrder(cs[i].address, cs[j].address))
  }

  lemma SortedInHostOrder(cs: seq<Client>)
    ensures var out := SortBy(cs, ClientLeq);
            forall i, j :: 0 <= i < j < |out| ==> InHostOrder(out[i].address, out[j].address)
  {
    var out := SortBy(cs, ClientLeq);
    PeerLeqIsTotal();
    assert TotalPreorder(ClientLeq);
    SortIsSorted(cs, ClientLeq);
    forall i, j | 0 <= i < j < |out| ensures InHostOrder(out[i].address, out[j].address) {
      assert ClientLeq(out[i], out[j]);
      LessTrichotomy(out[i].address, out[j].address);
      LessIsByteOrder(out[i].address, out[j].address);
    }
  }

  lemma EachRowOnce(rows: Rows, cs: seq<Client>, i: nat, j: nat)
    requires Keyed(rows) && multiset(cs) == multiset(rows.Values) && i < j < |cs|
    ensures cs[i].publicKey != cs[j].publicKey
  {
    assert cs[i] in multiset(cs) && cs[j] in multiset(cs);
    assert cs[i] in rows.Values && cs[j] in rows.Values;
    if cs[i] == cs[j] { RepeatCountsTwice(cs, i, j); }
  }

  lemma SortedLiveListing(rows: Rows)
    requires Keyed(rows) && Injective(rows)
    ensures IsLiveListing(rows, SortBy(List(EnabledRows(rows)), ClientLeq))
  {
    var list := List(EnabledRows(rows));
    var cs := SortBy(list, ClientLeq);
    ListHasRows(EnabledRows(rows));
    SortPermutes(list, ClientLeq);
    SortedInHostOrder(list);
    forall c ensures c in cs <==> c.publicKey in rows && rows[c.publicKey] == c && c.enabled {
      assert c in cs <==> c in multiset(cs);
      assert c in list <==> c in multiset(list);
      assert c in list <==> c.publicKey in EnabledRows(rows) && EnabledRows(rows)[c.publicKey] == c;
    }
    forall i, j | 0 <= i < j < |cs| ensures cs[i].publicKey != cs[j].publicKey {
      EachRowOnce(EnabledRows(rows), cs, i, j);
    }
  }

  /** The live text of a table is one block for each enabled row, with that row's own name, key and
      address, in the order of the addresses, and nothing else. */
  lemma RenderSpellsEnabledRows(rows: Rows) returns (cs: seq<Client>)
    requires Keyed(rows) && Injective(rows)
    ensures IsLiveListing(rows, cs) && Render(rows) == PeerBlocks(cs)
  {
    var list := List(EnabledRows(rows));
    cs := SortBy(list, ClientLeq);
    EnabledListing(rows);
    EnabledPeers(List(rows));
    SortMapped(list);
    StanzasSpelled(cs);
    SortedLiveListing(rows);
  }
}
