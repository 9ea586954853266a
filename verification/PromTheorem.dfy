/** Printing a snapshot and parsing the text: the round trip as one statement. */
module PromTheorem {
  import opened Wrappers
  import opened Ordering
  import opened Text
  import opened PromText
  import opened PromReport
  import opened PromLines
  import opened PromRoundTrip
  import opened PromRecovery

  /** What a parsed report should hold besides peers and disks. */
  ghost predicate ReportsScalars<F(!new)>(c: Codec<F>, snap: Snapshot<F>, r: Report<F>) {
    && r.serviceActive == (if snap.serviceKnown then Some(snap.serviceActive) else None)
    && r.peersTotal == c.truncate(c.toFloat(snap.peersTotal))
    && r.peersOnline == c.truncate(c.toFloat(snap.peersOnline))
    && r.cpu == (if snap.cpuKnown then Some(snap.cpu) else None)
    && r.memory == (if snap.memKnown then Some(snap.mem) else None)
    && r.activeAlerts == c.truncate(c.toFloat(snap.activeAlerts))
    && r.version == snap.version && r.sha == snap.sha
  }

  lemma MeaningScalars<F(!new)>(c: Codec<F>, snap: Snapshot<F>, raw: string)
    requires Faithful(c)
    ensures ReportsScalars(c, snap, Close(Meaning(c, snap), raw))
  {
    var start: Acc<F> := Start();
    var top := InterpretAll(c, InterpretAll(c, start, ServiceItems(c, snap)), CountItems(c, snap));
    TopBack(c, start, snap);
    PeerSectionsAreFramed(c, snap.now, snap.peers);
    DiskSectionIsFramed(c, snap.disks);
    var ages := InterpretAll(c, top, AgeItems(c, snap.now, snap.peers));
    SectionFrame(c, top, AgeItems(c, snap.now, snap.peers));
    var rxs := InterpretAll(c, ages, RxItems(c, snap.peers));
    SectionFrame(c, ages, RxItems(c, snap.peers));
    var txs := InterpretAll(c, rxs, TxItems(c, snap.peers));
    SectionFrame(c, rxs, TxItems(c, snap.peers));
    HostBack(c, txs, snap);
    var host := InterpretAll(c, txs, HostItems(c, snap));
    SectionFrame(c, host, DiskItems(c, snap.disks));
    TailBack(c, InterpretAll(c, host, DiskItems(c, snap.disks)), snap);
  }

  lemma ScalarSectionsHaveNoRows<F(!new)>(c: Codec<F>, snap: Snapshot<F>)
    ensures NoRows(ServiceItems(c, snap)) && NoRows(CountItems(c, snap)) && NoRows(HostItems(c, snap)) &&
            NoRows(TailItems(c, snap))
  {
  }

  /** Nothing after the peer sections touches the peer table. */
  lemma PeersAreFinal<F(!new)>(c: Codec<F>, txs: Acc<F>, snap: Snapshot<F>)
    ensures InterpretAll(c, InterpretAll(c, InterpretAll(c, txs, HostItems(c, snap)), DiskItems(c, snap.disks)),
                         TailItems(c, snap)).peers
         == txs.peers
  {
    ScalarSectionsHaveNoRows(c, snap);
    DiskSectionIsFramed(c, snap.disks);
    var host := InterpretAll(c, txs, HostItems(c, snap));
    SectionFrame(c, txs, HostItems(c, snap));
    SectionFrame(c, host, DiskItems(c, snap.disks));
    SectionFrame(c, InterpretAll(c, host, DiskItems(c, snap.disks)), TailItems(c, snap));
  }

  lemma MeaningPeers<F(!new)>(c: Codec<F>, snap: Snapshot<F>)
    requires Faithful(c) && DistinctNames(snap.peers)
    ensures Stage(c, snap.now, Meaning(c, snap).peers, snap.peers, |snap.peers|, |snap.peers|, |snap.peers|)
  {
    var ps := snap.peers;
    assert ps[..|ps|] == ps;
    ScalarSectionsHaveNoRows(c, snap);
    DiskSectionIsFramed(c, snap.disks);
    var service := InterpretAll(c, Start(), ServiceItems(c, snap));
    var top := InterpretAll(c, service, CountItems(c, snap));
    SectionFrame(c, Start(), ServiceItems(c, snap));
    SectionFrame(c, service, CountItems(c, snap));
    AgesReach(c, snap.now, top, ps, |ps|);
    var ages := InterpretAll(c, top, AgeItems(c, snap.now, ps));
    RxReach(c, snap.now, ages, ps, |ps|);
    var rxs := InterpretAll(c, ages, RxItems(c, ps));
    TxReach(c, snap.now, rxs, ps, |ps|);
    PeersAreFinal(c, InterpretAll(c, rxs, TxItems(c, ps)), snap);
  }

  lemma MeaningDisks<F(!new)>(c: Codec<F>, snap: Snapshot<F>)
    requires Faithful(c) && DistinctMounts(snap.disks)
    ensures DiskStage(Meaning(c, snap).disks, snap.disks, |snap.disks|)
  {
    var ds := snap.disks;
    assert ds[..|ds|] == ds;
    ScalarSectionsHaveNoRows(c, snap);
    PeerSectionsAreFramed(c, snap.now, snap.peers);
    var service := InterpretAll(c, Start(), ServiceItems(c, snap));
    var top := InterpretAll(c, service, CountItems(c, snap));
    SectionFrame(c, Start(), ServiceItems(c, snap));
    SectionFrame(c, service, CountItems(c, snap));
    var ages := InterpretAll(c, top, AgeItems(c, snap.now, snap.peers));
    SectionFrame(c, top, AgeItems(c, snap.now, snap.peers));
    var rxs := InterpretAll(c, ages, RxItems(c, snap.peers));
    SectionFrame(c, ages, RxItems(c, snap.peers));
    var txs := InterpretAll(c, rxs, TxItems(c, snap.peers));
    SectionFrame(c, rxs, TxItems(c, snap.peers));
    var host := InterpretAll(c, txs, HostItems(c, snap));
    SectionFrame(c, txs, HostItems(c, snap));
    DisksReach(c, host, ds, |ds|);
    SectionFrame(c, InterpretAll(c, host, DiskItems(c, ds)), TailItems(c, snap));
  }

  lemma PeersBackIff<F(!new)>(c: Codec<F>, snap: Snapshot<F>)
    requires Faithful(c) && Labelled(Meaning(c, snap))
    ensures SortBy(MapValues(Meaning(c, snap).peers), PeerByName) ==
            SortBy(PeersBack(c, snap.now, snap.peers), PeerByName)
       <==> DistinctNames(snap.peers)
  {
    var m := Meaning(c, snap).peers;
    if DistinctNames(snap.peers) {
      MeaningPeers(c, snap);
      StageIsComplete(c, snap.now, m, snap.peers);
    }
    if SortBy(MapValues(m), PeerByName) == SortBy(PeersBack(c, snap.now, snap.peers), PeerByName) {
      RecoveredNamesDistinct(c, snap.now, m, snap.peers);
    }
  }

  lemma DisksBackIff<F(!new)>(c: Codec<F>, snap: Snapshot<F>)
    requires Faithful(c) && Labelled(Meaning(c, snap))
    ensures SortBy(MapValues(Meaning(c, snap).disks), DiskByMount) == SortBy(DisksBack(snap.disks), DiskByMount)
       <==> DistinctMounts(snap.disks)
  {
    var m := Meaning(c, snap).disks;
    if DistinctMounts(snap.disks) {
      MeaningDisks(c, snap);
      DiskStageIsComplete(m, snap.disks);
    }
    if SortBy(MapValues(m), DiskByMount) == SortBy(DisksBack(snap.disks), DiskByMount) {
      RecoveredMountsDistinct(m, snap.disks);
    }
  }

  /** For every snapshot and whatever bytes its labels hold, parsing the printed exposition gives
      back every optional gauge exactly when it was known, the build labels byte for byte, the
      peers sorted by name exactly when their names are distinct and non-empty, and the disks
      sorted by mount exactly when their mounts are. */
  lemma RoundTrip<F(!new)>(c: Codec<F>, help: Family -> string, snap: Snapshot<F>)
    requires Faithful(c)
    ensures ReportsScalars(c, snap, Parsed(c, Exposition(Printer(help), c, snap)))
    ensures Parsed(c, Exposition(Printer(help), c, snap)).peers ==
            SortBy(PeersBack(c, snap.now, snap.peers), PeerByName)
       <==> DistinctNames(snap.peers)
    ensures Parsed(c, Exposition(Printer(help), c, snap)).disks == SortBy(DisksBack(snap.disks), DiskByMount)
       <==> DistinctMounts(snap.disks)
  {
    ParsesToMeaning(c, help, snap);
    FoldKeepsLabelled(c, Start(), SplitOn(Exposition(Printer(help), c, snap), '\n'));
    MeaningScalars(c, snap, Exposition(Printer(help), c, snap));
    PeersBackIff(c, snap);
    DisksBackIff(c, snap);
  }

  /** What is reported of one peer: its name, its counters through their float64 detour, and the
      seconds since its last handshake, if it ever had one (0 if that lies in the future). */
  ghost predicate ReportsPeer<F(!new)>(c: Codec<F>, now: int, p: PeerMetric, out: PeerOut<F>) {
    && out.name == p.name && out.rx == c.truncate(c.toFloat(p.rx)) && out.tx == c.truncate(c.toFloat(p.tx))
    && match p.lastHandshake
       case None => out.age.None?
       case Some(h) => exists n: int :: out.age == Some(c.seconds(n)) && (if h <= now then h + n == now else n == 0)
  }

  lemma PeerBackReports<F(!new)>(c: Codec<F>, now: int, p: PeerMetric)
    ensures ReportsPeer(c, now, p, PeerBack(c, now, p))
  {
    if p.lastHandshake.Some? {
      var h := p.lastHandshake.value;
      var n := if h <= now then now - h else 0;
      assert PeerBack(c, now, p).age == Some(c.seconds(n));
    }
  }

  /** One report per peer, in the given order. */
  ghost predicate ReportsEach<F(!new)>(c: Codec<F>, now: int, peers: seq<PeerMetric>, outs: seq<PeerOut<F>>) {
    |outs| == |peers| && forall i :: 0 <= i < |peers| ==> ReportsPeer(c, now, peers[i], outs[i])
  }

  /** One report per peer, in some order. */
  ghost predicate ReportsPeers<F(!new)>(c: Codec<F>, now: int, peers: seq<PeerMetric>, outs: seq<PeerOut<F>>) {
    exists each: seq<PeerOut<F>> :: ReportsEach(c, now, peers, each) && multiset(outs) == multiset(each)
  }

  lemma PeersBackReports<F(!new)>(c: Codec<F>, now: int, peers: seq<PeerMetric>)
    ensures ReportsPeers(c, now, peers, SortBy(PeersBack(c, now, peers), PeerByName))
  {
    var back := PeersBack(c, now, peers);
    SortPermutes<PeerOut<F>>(back, PeerByName);
    forall i | 0 <= i < |peers| ensures ReportsPeer(c, now, peers[i], back[i]) { PeerBackReports(c, now, peers[i]); }
    assert ReportsEach(c, now, peers, back);
  }

  /** What a scrape reports of peers with distinct names: each one, once, ages written out, in
      ascending order of the names. */
  lemma PeersAreReported<F(!new)>(c: Codec<F>, help: Family -> string, snap: Snapshot<F>)
    requires Faithful(c) && DistinctNames(snap.peers)
    ensures var r := Parsed(c, Exposition(Printer(help), c, snap));
            ReportsPeers(c, snap.now, snap.peers, r.peers) && PeersAscend(r.peers)
  {
    RoundTrip(c, help, snap);
    ReportAscends(c, Exposition(Printer(help), c, snap));
    PeersBackReports(c, snap.now, snap.peers);
  }

  /** An exact codec, to show that the assumptions on the number library can be met. */
  function Signed(n: int): string { if n < 0 then "-" + Decimal(-n) else Decimal(n) }

  function Negate(n: int): int { -n }

  function ReadSigned(s: string): Option<int> {
    if s == "" then None else if s[0] == '-' then Some(Negate(ReadDigits(s[1..]))) else Some(ReadDigits(s))
  }

  lemma SignedRead(n: int)
    ensures ReadSigned(Signed(n)) == Some(n) && Token(Signed(n))
  {
    DecimalRead(if n < 0 then -n else n);
    if n < 0 {
      assert Signed(n)[1..] == Decimal(-n);
    } else {
      assert Signed(n)[0] in Decimal(n);
    }
  }

  lemma FaithfulCodecExists()
    ensures exists c: Codec<int> :: Faithful(c)
  {
    var c := Codec(Signed, Signed, ReadSigned, (n: int) => n, (f: int) => f, (n: int) => n, (f: int) => f == 0);
    forall n: int ensures Token(c.printInt(n)) && c.parseFloat(c.printInt(n)) == Some(c.toFloat(n)) { SignedRead(n); }
    forall f: int ensures Token(c.printFloat(f)) && c.parseFloat(c.printFloat(f)) == Some(f) { SignedRead(f); }
    assert Faithful(c);
  }
}
