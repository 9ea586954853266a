/** The shape of the exposition: one group of lines per metric family. */
module PromGroups {
  import opened Wrappers
  import opened PromText

  /** A family's samples, printed after its HELP and TYPE lines. */
  datatype Group = Group(f: Family, samples: seq<Item>)

  function Flatten(gs: seq<Group>): seq<Item> {
    if gs == [] then []
    else Flatten(gs[..|gs| - 1]) + ([Help(gs[|gs| - 1].f), Type(gs[|gs| - 1].f)] + gs[|gs| - 1].samples)
  }

  /** The place of a family in the exposition. */
  function Rank(f: Family): nat {
    match f
    case Service => 0
    case PeersTotal => 1
    case PeersOnline => 2
    case HandshakeAge => 3
    case RxBytes => 4
    case TxBytes => 5
    case Cpu => 6
    case Memory => 7
    case Disk => 8
    case ActiveAlerts => 9
    case BuildInfo => 10
  }

  /** Samples of this family and nothing else. */
  predicate SamplesOf(f: Family, items: seq<Item>) { forall x :: x in items ==> x.Series? && x.f == f }

  /** Every group holds samples of its own family only, and no family has two groups. */
  ghost predicate Grouped(gs: seq<Group>) {
    && (forall i :: 0 <= i < |gs| ==> SamplesOf(gs[i].f, gs[i].samples))
    && (forall i, j :: 0 <= i < j < |gs| ==> Rank(gs[i].f) < Rank(gs[j].f))
  }

  lemma {:induction false} FlattenConcat(a: seq<Group>, b: seq<Group>)
    ensures Flatten(a + b) == Flatten(a) + Flatten(b)
    decreases |b|
  {
    if b == [] {
      assert a + b == a;
    } else {
      var init, last := b[..|b| - 1], b[|b| - 1];
      var lines := [Help(last.f), Type(last.f)] + last.samples;
      FlattenConcat(a, init);
      assert (a + b)[..|a + b| - 1] == a + init;
      assert Flatten(a + b) == Flatten(a + init) + lines && Flatten(b) == Flatten(init) + lines;
      assert (Flatten(a) + Flatten(init)) + lines == Flatten(a) + (Flatten(init) + lines);
    }
  }

  /** `text` prints these groups, whose families come in places lo to hi. */
  ghost predicate Prints(line: Item -> string, text: string, gs: seq<Group>, lo: nat, hi: nat) {
    && text == Body(line, Flatten(gs)) && Grouped(gs)
    && forall i :: 0 <= i < |gs| ==> lo <= Rank(gs[i].f) < hi
  }

  lemma PrintsBoth(line: Item -> string, s: string, a: seq<Group>, t: string, b: seq<Group>, lo: nat, mid: nat, hi: nat)
    requires Prints(line, s, a, lo, mid) && Prints(line, t, b, mid, hi) && lo <= mid <= hi
    ensures Prints(line, s + t, a + b, lo, hi)
  {
    FlattenConcat(a, b);
    BodyConcat(line, Flatten(a), Flatten(b));
  }

  lemma PrintsOne(line: Item -> string, text: string, f: Family, samples: seq<Item>)
    requires text == Body(line, Header(f) + samples)
    requires SamplesOf(f, samples)
    ensures Prints(line, text, [Group(f, samples)], Rank(f), Rank(f) + 1)
  {
    var gs := [Group(f, samples)];
    assert gs[..0] == [] && Flatten(gs) == Header(f) + samples;
  }

  lemma PrintsNone(line: Item -> string, lo: nat, hi: nat)
    ensures Prints(line, "", [], lo, hi)
  {
  }

  lemma {:induction false} AgesAreSeries<F>(c: Codec<F>, now: int, peers: seq<PeerMetric>)
    ensures SamplesOf(HandshakeAge, AgeItems(c, now, peers))
    decreases |peers|
  {
    if peers != [] { AgesAreSeries(c, now, peers[..|peers| - 1]); }
  }

  lemma {:induction false} BytesAreSeries<F>(c: Codec<F>, peers: seq<PeerMetric>)
    ensures SamplesOf(RxBytes, RxItems(c, peers)) && SamplesOf(TxBytes, TxItems(c, peers))
    decreases |peers|
  {
    if peers != [] { BytesAreSeries(c, peers[..|peers| - 1]); }
  }

  lemma {:induction false} DisksAreSeries<F>(c: Codec<F>, disks: seq<DiskMetric<F>>)
    ensures SamplesOf(Disk, DiskItems(c, disks))
    decreases |disks|
  {
    if disks != [] { DisksAreSeries(c, disks[..|disks| - 1]); }
  }

  lemma PrintsItems(line: Item -> string, a: seq<Item>, ga: seq<Group>, b: seq<Item>, gb: seq<Group>, lo: nat, mid: nat,
                    hi: nat)
    requires Prints(line, Body(line, a), ga, lo, mid) && Prints(line, Body(line, b), gb, mid, hi) && lo <= mid <= hi
    ensures Prints(line, Body(line, a + b), ga + gb, lo, hi)
  {
    BodyConcat(line, a, b);
    PrintsBoth(line, Body(line, a), ga, Body(line, b), gb, lo, mid, hi);
  }

  /** A family with one sample, or none at all. */
  function OneSample(f: Family, known: bool, x: Item): seq<Item> { if known then Header(f) + [x] else [] }

  lemma OneIsGrouped(line: Item -> string, f: Family, known: bool, x: Item) returns (gs: seq<Group>)
    requires x.Series? && x.f == f
    ensures Prints(line, Body(line, OneSample(f, known, x)), gs, Rank(f), Rank(f) + 1)
  {
    gs := if known then [Group(f, [x])] else [];
    if known { PrintsOne(line, Body(line, Header(f) + [x]), f, [x]); } else { PrintsNone(line, Rank(f), Rank(f) + 1); }
  }

  lemma TwoAreGrouped(line: Item -> string, f: Family, inF: bool, x: Item, g: Family, inG: bool, y: Item)
    returns (gs: seq<Group>)
    requires x.Series? && x.f == f && y.Series? && y.f == g && Rank(g) == Rank(f) + 1
    ensures Prints(line, Body(line, OneSample(f, inF, x) + OneSample(g, inG, y)), gs, Rank(f), Rank(g) + 1)
  {
    var a := OneIsGrouped(line, f, inF, x);
    var b := OneIsGrouped(line, g, inG, y);
    PrintsItems(line, OneSample(f, inF, x), a, OneSample(g, inG, y), b, Rank(f), Rank(g), Rank(g) + 1);
    gs := a + b;
  }

  lemma CountsAreGrouped<F>(line: Item -> string, c: Codec<F>, snap: Snapshot<F>) returns (gs: seq<Group>)
    ensures Prints(line, Body(line, CountItems(c, snap)), gs, 1, 3)
  {
    var total, online := Series(PeersTotal, [], c.printInt(snap.peersTotal)),
        Series(PeersOnline, [], c.printInt(snap.peersOnline));
    assert CountItems(c, snap) == OneSample(PeersTotal, true, total) + OneSample(PeersOnline, true, online);
    gs := TwoAreGrouped(line, PeersTotal, true, total, PeersOnline, true, online);
  }

  lemma TopIsGrouped<F>(line: Item -> string, c: Codec<F>, snap: Snapshot<F>) returns (gs: seq<Group>)
    ensures Prints(line, TopText(line, c, snap), gs, 0, 3)
  {
    var service := Series(Service, [], c.printInt(if snap.serviceActive then 1 else 0));
    assert ServiceItems(c, snap) == OneSample(Service, snap.serviceKnown, service);
    var a := OneIsGrouped(line, Service, snap.serviceKnown, service);
    var b := CountsAreGrouped(line, c, snap);
    PrintsBoth(line, Body(line, ServiceItems(c, snap)), a, Body(line, CountItems(c, snap)), b, 0, 1, 3);
    gs := a + b;
  }

  lemma AgesAreGrouped<F>(line: Item -> string, c: Codec<F>, snap: Snapshot<F>)
    ensures Prints(line, AgeText(line, c, snap), [Group(HandshakeAge, AgeItems(c, snap.now, snap.peers))], 3, 4)
  {
    AgesAreSeries(c, snap.now, snap.peers);
    BodyConcat(line, Header(HandshakeAge), AgeItems(c, snap.now, snap.peers));
    PrintsOne(line, AgeText(line, c, snap), HandshakeAge, AgeItems(c, snap.now, snap.peers));
  }

  lemma BytesAreGrouped<F>(line: Item -> string, c: Codec<F>, peers: seq<PeerMetric>)
    ensures Prints(line, RxText(line, c, peers), [Group(RxBytes, RxItems(c, peers))], 4, 5)
    ensures Prints(line, TxText(line, c, peers), [Group(TxBytes, TxItems(c, peers))], 5, 6)
  {
    BytesAreSeries(c, peers);
    BodyConcat(line, Header(RxBytes), RxItems(c, peers));
    BodyConcat(line, Header(TxBytes), TxItems(c, peers));
    PrintsOne(line, RxText(line, c, peers), RxBytes, RxItems(c, peers));
    PrintsOne(line, TxText(line, c, peers), TxBytes, TxItems(c, peers));
  }

  lemma PrintsThree(line: Item -> string, s: string, a: seq<Group>, t: string, b: seq<Group>, u: string, d: seq<Group>,
                    lo: nat, i: nat, j: nat, hi: nat)
    requires Prints(line, s, a, lo, i) && Prints(line, t, b, i, j) && Prints(line, u, d, j, hi) && lo <= i <= j <= hi
    ensures Prints(line, s + t + u, a + b + d, lo, hi)
  {
    PrintsBoth(line, s, a, t, b, lo, i, j);
    PrintsBoth(line, s + t, a + b, u, d, lo, j, hi);
  }

  lemma PeersAreGrouped<F>(line: Item -> string, c: Codec<F>, snap: Snapshot<F>) returns (gs: seq<Group>)
    ensures Prints(line, AgeText(line, c, snap) + RxText(line, c, snap.peers) + TxText(line, c, snap.peers), gs, 3, 6)
  {
    var ages, rx := [Group(HandshakeAge, AgeItems(c, snap.now, snap.peers))], [Group(RxBytes, RxItems(c, snap.peers))];
    var tx := [Group(TxBytes, TxItems(c, snap.peers))];
    AgesAreGrouped(line, c, snap);
    BytesAreGrouped(line, c, snap.peers);
    PrintsThree(line, AgeText(line, c, snap), ages, RxText(line, c, snap.peers), rx, TxText(line, c, snap.peers), tx,
                3, 4, 5, 6);
    gs := ages + rx + tx;
  }

  lemma HostItemsAre<F>(c: Codec<F>, snap: Snapshot<F>)
    ensures HostItems(c, snap) ==
            OneSample(Cpu, snap.cpuKnown, Series(Cpu, [], c.printFloat(snap.cpu)))
            + OneSample(Memory, snap.memKnown, Series(Memory, [], c.printFloat(snap.mem)))
  {
  }

  lemma HostIsGrouped<F>(line: Item -> string, c: Codec<F>, snap: Snapshot<F>) returns (gs: seq<Group>)
    ensures Prints(line, Body(line, HostItems(c, snap)), gs, 6, 8)
  {
    var cpu, mem := Series(Cpu, [], c.printFloat(snap.cpu)), Series(Memory, [], c.printFloat(snap.mem));
    HostItemsAre(c, snap);
    gs := TwoAreGrouped(line, Cpu, snap.cpuKnown, cpu, Memory, snap.memKnown, mem);
  }

  lemma DisksAreGrouped<F>(line: Item -> string, c: Codec<F>, disks: seq<DiskMetric<F>>)
    ensures Prints(line, DiskText(line, c, disks), [Group(Disk, DiskItems(c, disks))], 8, 9)
  {
    DisksAreSeries(c, disks);
    BodyConcat(line, Header(Disk), DiskItems(c, disks));
    PrintsOne(line, DiskText(line, c, disks), Disk, DiskItems(c, disks));
  }

  lemma TailIsGrouped<F>(line: Item -> string, c: Codec<F>, snap: Snapshot<F>) returns (gs: seq<Group>)
    ensures Prints(line, DiskText(line, c, snap.disks) + Body(line, TailItems(c, snap)), gs, 8, 11)
  {
    var alerts := Series(ActiveAlerts, [], c.printInt(snap.activeAlerts));
    var build := Series(BuildInfo, [("version", snap.version), ("sha", snap.sha)], "1");
    var disks := [Group(Disk, DiskItems(c, snap.disks))];
    DisksAreGrouped(line, c, snap.disks);
    assert TailItems(c, snap) == OneSample(ActiveAlerts, true, alerts) + OneSample(BuildInfo, true, build);
    var tail := TwoAreGrouped(line, ActiveAlerts, true, alerts, BuildInfo, true, build);
    PrintsBoth(line, DiskText(line, c, snap.disks), disks, Body(line, TailItems(c, snap)), tail, 8, 9, 11);
    gs := disks + tail;
  }

  lemma Reassociate(a: string, b: string, c: string, d: string, e: string, f: string, g: string)
    ensures a + b + c + d + e + f + g == a + (b + c + d) + e + (f + g)
  {
  }

  /** What the text format asks of an exposition: the lines of a family are one group, HELP and TYPE
      first, and no family has a second group. */
  lemma ExpositionIsGrouped<F>(line: Item -> string, c: Codec<F>, snap: Snapshot<F>) returns (gs: seq<Group>)
    ensures Exposition(line, c, snap) == Body(line, Flatten(gs)) && Grouped(gs)
  {
    var top, host := TopText(line, c, snap), Body(line, HostItems(c, snap));
    var a, r, t := AgeText(line, c, snap), RxText(line, c, snap.peers), TxText(line, c, snap.peers);
    var d, tail := DiskText(line, c, snap.disks), Body(line, TailItems(c, snap));
    var g := TopIsGrouped(line, c, snap);
    var h := PeersAreGrouped(line, c, snap);
    var i := HostIsGrouped(line, c, snap);
    var j := TailIsGrouped(line, c, snap);
    PrintsBoth(line, top, g, a + r + t, h, 0, 3, 6);
    PrintsBoth(line, top + (a + r + t), g + h, host, i, 0, 6, 8);
    PrintsBoth(line, top + (a + r + t) + host, g + h + i, d + tail, j, 0, 8, 11);
    Reassociate(top, a, r, t, host, d, tail);
    gs := g + h + i + j;
  }

  lemma EndsOtherwise(name: string, i: nat)
    requires |name| > 12 && i < 12 && name[|name| - 12 + i] != "_bytes_total"[i]
    ensures name[|name| - 12..] != "_bytes_total"
  {
    assert name[|name| - 12..][i] == name[|name| - 12 + i];
  }

  lemma HostNamesEnd(f: Family)
    requires f.Cpu? || f.Memory? || f.Disk?
    ensures |Name(f)| > 12 && Name(f)[|Name(f)| - 12..] != "_bytes_total"
  {
    EndsOtherwise(Name(f), if f.Cpu? then 1 else 0);
  }

  lemma PeerNamesEnd(f: Family)
    requires f.PeersTotal? || f.PeersOnline? || f.HandshakeAge?
    ensures |Name(f)| > 12 && Name(f)[|Name(f)| - 12..] != "_bytes_total"
  {
    EndsOtherwise(Name(f), if f.PeersOnline? then 0 else 1);
  }

  lemma OtherNamesEnd(f: Family)
    requires f.Service? || f.ActiveAlerts? || f.BuildInfo?
    ensures |Name(f)| > 12 && Name(f)[|Name(f)| - 12..] != "_bytes_total"
  {
    EndsOtherwise(Name(f), 0);
  }

  lemma ByteNamesEnd(f: Family)
    requires f.RxBytes? || f.TxBytes?
    ensures |Name(f)| > 12 && Name(f)[|Name(f)| - 12..] == "_bytes_total"
  {
  }

  /** Declared counters are exactly the families named for a total of bytes. */
  lemma CountersAreByteTotals(f: Family)
    ensures var n := |Name(f)|;
            n > 12 && TypeName(f) == if Name(f)[n - 12..] == "_bytes_total" then "counter" else "gauge"
  {
    match f
    case RxBytes | TxBytes => ByteNamesEnd(f);
    case Cpu | Memory | Disk => HostNamesEnd(f);
    case PeersTotal | PeersOnline | HandshakeAge => PeerNamesEnd(f);
    case Service | ActiveAlerts | BuildInfo => OtherNamesEnd(f);
  }
}
