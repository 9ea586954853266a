/** The server-side wg0 configuration (wgconfig/wgconfig.go): peer order and text. */
module Rendering {
  import opened Text
  import opened Ordering
  import opened Ipv4
  import opened Types

  datatype ServerPeer = ServerPeer(name: string, publicKey: string, address: string, enabled: bool)

  datatype ServerInterface = ServerInterface(address: string, listenPort: nat, privateKey: string,
                                             postUp: seq<string>, postDown: seq<string>)

  const PERSISTENT_KEEPALIVE := 25

  /** addrLess: numeric on parseable addresses, which come first; raw text on the others. */
  predicate AddrLess(a: string, b: string) {
    var ka, kb := ParseHost(a), ParseHost(b);
    if ka.Some? != kb.Some? then ka.Some?
    else if ka.None? then Less(a, b)
    else ka.value < kb.value
  }

  /** Neither address sorts before the other: same number, or same unparseable text. */
  predicate SameRank(a: string, b: string) {
    if ParseHost(a).Some? then ParseHost(a) == ParseHost(b) else ParseHost(b).None? && a == b
  }

  /** addrLess is a strict weak order whose ties are exactly the equal sort keys. */
  lemma AddrLessIsStrictWeakOrder(a: string, b: string, c: string)
    ensures !AddrLess(a, a)
    ensures AddrLess(a, b) ==> !AddrLess(b, a)
    ensures AddrLess(a, b) && AddrLess(b, c) ==> AddrLess(a, c)
    ensures !AddrLess(a, b) && !AddrLess(b, a) <==> SameRank(a, b)
    ensures SameRank(a, b) && SameRank(b, c) ==> SameRank(a, c)
  {
    LessTrichotomy(a, b);
    LessTrichotomy(a, a);
    if Less(a, b) && Less(b, c) { LessTransitive(a, b, c); }
  }

  predicate PeerLeq(p: ServerPeer, q: ServerPeer) { !AddrLess(q.address, p.address) }

  lemma PeerLeqIsTotal()
    ensures TotalPreorder(PeerLeq)
  {
    forall x, y ensures PeerLeq(x, y) || PeerLeq(y, x) {
      AddrLessIsStrictWeakOrder(x.address, y.address, y.address);
    }
    forall x, y, z | PeerLeq(x, y) && PeerLeq(y, z) ensures PeerLeq(x, z) {
      var a, b, c := x.address, y.address, z.address;
      LessTrichotomy(a, b);
      LessTrichotomy(b, c);
      LessTrichotomy(a, c);
      if Less(a, b) && Less(b, c) { LessTransitive(a, b, c); }
    }
  }

  function Enabled(peers: seq<ServerPeer>): seq<ServerPeer> {
    if peers == [] then [] else (if peers[0].enabled then [peers[0]] else []) + Enabled(peers[1..])
  }

  /** enabledSortedByAddress, with sort.SliceStable. */
  function EnabledSorted(peers: seq<ServerPeer>): seq<ServerPeer> {
    SortBy(Enabled(peers), PeerLeq)
  }

  /** BuildServerPeer. */
  function Stanza(p: ServerPeer): string {
    (if p.name != "" then "# " + p.name + "\n" else "")
    + "[Peer]\n" + "PublicKey = " + p.publicKey + "\n" + "AllowedIPs = " + p.address + "\n"
    + "PersistentKeepalive = " + Decimal(PERSISTENT_KEEPALIVE) + "\n"
  }

  /** Stanzas separated by one blank line. */
  function Stanzas(ps: seq<ServerPeer>): string {
    if ps == [] then ""
    else if |ps| == 1 then Stanza(ps[0])
    else Stanzas(ps[..|ps| - 1]) + "\n" + Stanza(ps[|ps| - 1])
  }

  lemma StanzasOneMore(ps: seq<ServerPeer>, i: nat)
    requires i < |ps|
    ensures Stanzas(ps[..i + 1]) == if i == 0 then Stanza(ps[0]) else Stanzas(ps[..i]) + "\n" + Stanza(ps[i])
  {
    assert ps[..i + 1][..i] == ps[..i];
  }

  function ServerPeersText(peers: seq<ServerPeer>): string {
    Stanzas(EnabledSorted(peers))
  }

  function Lines(prefix: string, values: seq<string>): string {
    if values == [] then ""
    else Lines(prefix, values[..|values| - 1]) + prefix + values[|values| - 1] + "\n"
  }

  function InterfaceText(iface: ServerInterface): string {
    "[Interface]\n" + "Address = " + iface.address + "\n" + "ListenPort = " + Decimal(iface.listenPort) + "\n"
    + "PrivateKey = " + iface.privateKey + "\n" + Lines("PostUp = ", iface.postUp)
    + Lines("PostDown = ", iface.postDown)
  }

  method BuildServerPeers(peers: seq<ServerPeer>) returns (text: string)
    ensures text == ServerPeersText(peers)
  {
    var ps := EnabledSorted(peers);
    text := "";
    for i := 0 to |ps|
      invariant text == Stanzas(ps[..i])
    {
      StanzasOneMore(ps, i);
      if i > 0 { text := text + "\n"; }
      text := text + Stanza(ps[i]);
    }
    assert ps[..|ps|] == ps;
  }

  method AppendLines(text: string, prefix: string, values: seq<string>) returns (r: string)
    ensures r == text + Lines(prefix, values)
  {
    r := text;
    for i := 0 to |values|
      invariant r == text + Lines(prefix, values[..i])
    {
      assert values[..i + 1][..i] == values[..i];
      r := r + (prefix + values[i] + "\n");
    }
    assert values[..|values|] == values;
  }

  lemma StanzaAppends(text: string, done: string, next: string)
    ensures (text + ("\n" + done)) + "\n" + next == text + ("\n" + (done + "\n" + next))
  {
  }

  method AppendPeers(text: string, ps: seq<ServerPeer>) returns (r: string)
    ensures r == text + if ps == [] then "" else "\n" + Stanzas(ps)
  {
    r := text;
    for i := 0 to |ps|
      invariant r == text + if i == 0 then "" else "\n" + Stanzas(ps[..i])
    {
      StanzasOneMore(ps, i);
      StanzaAppends(text, Stanzas(ps[..i]), Stanza(ps[i]));
      r := r + "\n" + Stanza(ps[i]);
    }
    assert ps[..|ps|] == ps;
  }

  /** BuildServerConf is its [Interface] block, then (when any peer is enabled) a newline and
      exactly the text the unprivileged path stages: the two renderers cannot drift apart. */
  method BuildServerConf(iface: ServerInterface, peers: seq<ServerPeer>) returns (text: string)
    ensures text == InterfaceText(iface) + if Enabled(peers) == [] then "" else "\n" + ServerPeersText(peers)
  {
    text := "[Interface]\n" + "Address = " + iface.address + "\n" + "ListenPort = " + Decimal(iface.listenPort) + "\n"
            + "PrivateKey = " + iface.privateKey + "\n";
    text := AppendLines(text, "PostUp = ", iface.postUp);
    text := AppendLines(text, "PostDown = ", iface.postDown);
    SortPermutes(Enabled(peers), PeerLeq);
    text := AppendPeers(text, EnabledSorted(peers));
  }

  lemma {:induction false} EnabledKeepsExactly(peers: seq<ServerPeer>)
    ensures forall p :: multiset(Enabled(peers))[p] == if p.enabled then multiset(peers)[p] else 0
  {
    if peers != [] {
      EnabledKeepsExactly(peers[1..]);
      assert peers == [peers[0]] + peers[1..];
    }
  }

  /** What is rendered: every enabled peer as often as given, no disabled one, ascending. */
  lemma RendersEnabledAscending(peers: seq<ServerPeer>)
    ensures forall p :: multiset(EnabledSorted(peers))[p] == if p.enabled then multiset(peers)[p] else 0
    ensures forall i, j :: 0 <= i < j < |EnabledSorted(peers)| ==>
              !AddrLess(EnabledSorted(peers)[j].address, EnabledSorted(peers)[i].address)
  {
    EnabledKeepsExactly(peers);
    SortPermutes(Enabled(peers), PeerLeq);
    PeerLeqIsTotal();
    SortIsSorted(Enabled(peers), PeerLeq);
    var s := EnabledSorted(peers);
    assert forall i, j :: 0 <= i < j < |s| ==> PeerLeq(s[i], s[j]);
  }

  ghost predicate DistinctRanks(peers: seq<ServerPeer>) {
    forall i, j :: 0 <= i < j < |peers| ==> !SameRank(peers[i].address, peers[j].address)
  }

  /** Peers with distinct sort keys render to the same bytes from any input order. */
  lemma RenderingIsCanonical(a: seq<ServerPeer>, b: seq<ServerPeer>)
    requires multiset(a) == multiset(b) && DistinctRanks(a)
    ensures ServerPeersText(a) == ServerPeersText(b)
  {
    RendersEnabledAscending(a);
    RendersEnabledAscending(b);
    var x, y := EnabledSorted(a), EnabledSorted(b);
    assert forall p :: multiset(x)[p] == multiset(y)[p];
    assert multiset(x) == multiset(y);
    PeerLeqIsTotal();
    SortIsSorted(Enabled(a), PeerLeq);
    SortIsSorted(Enabled(b), PeerLeq);
    forall p, q | p in multiset(x) && q in multiset(x) && PeerLeq(p, q) && PeerLeq(q, p) ensures p == q {
      AddrLessIsStrictWeakOrder(p.address, q.address, q.address);
      AddrLessIsStrictWeakOrder(q.address, p.address, p.address);
      assert p in multiset(a) && q in multiset(a);
      var i :| 0 <= i < |a| && a[i] == p;
      var j :| 0 <= j < |a| && a[j] == q;
    }
    SortedUnique(x, y, PeerLeq);
  }

  function ToPeer(c: Client): ServerPeer {
    ServerPeer(c.name, c.publicKey, c.address, c.enabled)
  }

  /** wgsync.Applier.Apply's projection of the rows it is handed. */
  function ToPeers(cs: seq<Client>): (ps: seq<ServerPeer>)
    ensures |ps| == |cs|
  {
    seq(|cs|, i requires 0 <= i < |cs| => ToPeer(cs[i]))
  }
}
