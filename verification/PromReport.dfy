/** parseHostMetrics: lines into a report, tolerating anything it does not know. */
module PromReport {
  import opened Wrappers
  import opened Text
  import opened Ordering
  import opened PromText
  import opened PromParse

  datatype PeerOut<F> = PeerOut(name: string, rx: int, tx: int, age: Option<F>)

  datatype DiskOut<F> = DiskOut(mount: string, pct: F)

  /** The values gathered so far; peers and disks keyed by their label. */
  datatype Acc<F> = Acc(
    serviceActive: Option<bool>, peersTotal: int, peersOnline: int, peers: map<string, PeerOut<F>>,
    cpu: Option<F>, memory: Option<F>, disks: map<string, DiskOut<F>>,
    activeAlerts: int, version: string, sha: string)

  datatype Report<F> = Report(
    serviceActive: Option<bool>, peersTotal: int, peersOnline: int, peers: seq<PeerOut<F>>,
    cpu: Option<F>, memory: Option<F>, disks: seq<DiskOut<F>>,
    activeAlerts: int, version: string, sha: string, raw: string)

  function Start<F>(): Acc<F> { Acc(None, 0, 0, map[], None, None, map[], 0, "", "") }

  /** The parser's own list of the families it knows. */
  function FamilyOf(name: string): Option<Family> {
    if name == "wireguard_service_active" then Some(Service)
    else if name == "wireguard_peers_total" then Some(PeersTotal)
    else if name == "wireguard_peers_online" then Some(PeersOnline)
    else if name == "wireguard_peer_last_handshake_age_seconds" then Some(HandshakeAge)
    else if name == "wireguard_peer_rx_bytes_total" then Some(RxBytes)
    else if name == "wireguard_peer_tx_bytes_total" then Some(TxBytes)
    else if name == "wireguard_host_cpu_percent" then Some(Cpu)
    else if name == "wireguard_host_memory_percent" then Some(Memory)
    else if name == "wireguard_host_disk_percent" then Some(Disk)
    else if name == "wireguard_active_alerts" then Some(ActiveAlerts)
    else if name == "wireguard_build_info" then Some(BuildInfo)
    else None
  }

  function LabelOr(labels: map<string, string>, key: string): string {
    if key in labels then labels[key] else ""
  }

  /** promSample.float. */
  function Float<F>(c: Codec<F>, value: string): Option<F> {
    if value == "" then None else c.parseFloat(value)
  }

  /** The row of a peer, created on first reference. */
  function PeerRow<F>(peers: map<string, PeerOut<F>>, name: string): PeerOut<F> {
    if name in peers then peers[name] else PeerOut(name, 0, 0, None)
  }

  function WithPeer<F>(acc: Acc<F>, p: PeerOut<F>): Acc<F> { acc.(peers := acc.peers[p.name := p]) }

  /** One sample of a known family. */
  function ApplyFamily<F>(c: Codec<F>, acc: Acc<F>, f: Family, labels: map<string, string>, value: string): Acc<F> {
    var v := Float(c, value);
    if f.BuildInfo? then acc.(version := LabelOr(labels, "version"), sha := LabelOr(labels, "sha"))
    else if v.None? then acc
    else
      var peer, mount := LabelOr(labels, "peer"), LabelOr(labels, "mount");
      match f
      case Service => acc.(serviceActive := Some(!c.isZero(v.value)))
      case PeersTotal => acc.(peersTotal := c.truncate(v.value))
      case PeersOnline => acc.(peersOnline := c.truncate(v.value))
      case HandshakeAge =>
        if peer == "" then acc else WithPeer(acc, PeerRow(acc.peers, peer).(name := peer, age := Some(v.value)))
      case RxBytes =>
        if peer == "" then acc else WithPeer(acc, PeerRow(acc.peers, peer).(name := peer, rx := c.truncate(v.value)))
      case TxBytes =>
        if peer == "" then acc else WithPeer(acc, PeerRow(acc.peers, peer).(name := peer, tx := c.truncate(v.value)))
      case Cpu => acc.(cpu := v)
      case Memory => acc.(memory := v)
      case Disk => if mount == "" then acc else acc.(disks := acc.disks[mount := DiskOut(mount, v.value)])
      case ActiveAlerts => acc.(activeAlerts := c.truncate(v.value))
      case BuildInfo => acc
  }

  function ApplySample<F>(c: Codec<F>, acc: Acc<F>, s: Sample): Acc<F> {
    var f := FamilyOf(s.name);
    if f.None? then acc else ApplyFamily(c, acc, f.value, s.labels, s.value)
  }

  function ApplyLine<F>(c: Codec<F>, acc: Acc<F>, line: string): Acc<F> {
    var t := Trim(line);
    if t == "" || t[0] == '#' then acc
    else
      var s := ParseLine(t);
      if s.None? then acc else ApplySample(c, acc, s.value)
  }

  function FoldLines<F>(c: Codec<F>, acc: Acc<F>, lines: seq<string>): Acc<F>
    decreases |lines|
  {
    if lines == [] then acc else FoldLines(c, ApplyLine(c, acc, lines[0]), lines[1..])
  }

  predicate PeerByName<F>(a: PeerOut<F>, b: PeerOut<F>) { !Less(b.name, a.name) }

  predicate DiskByMount<F>(a: DiskOut<F>, b: DiskOut<F>) { !Less(b.mount, a.mount) }

  /** Ranging over the maps, then sorting by label. */
  ghost function Close<F(!new)>(acc: Acc<F>, raw: string): Report<F> {
    Report(acc.serviceActive, acc.peersTotal, acc.peersOnline, SortBy(MapValues(acc.peers), PeerByName),
           acc.cpu, acc.memory, SortBy(MapValues(acc.disks), DiskByMount),
           acc.activeAlerts, acc.version, acc.sha, raw)
  }

  ghost function Parsed<F(!new)>(c: Codec<F>, text: string): Report<F> {
    Close(FoldLines(c, Start(), SplitOn(text, '\n')), text)
  }

  /** Every row sits under its own non-empty label. */
  ghost predicate Labelled<F>(acc: Acc<F>) {
    && (forall n :: n in acc.peers ==> n != "" && acc.peers[n].name == n)
    && (forall m :: m in acc.disks ==> m != "" && acc.disks[m].mount == m)
  }

  lemma ApplyFamilyKeepsLabelled<F>(c: Codec<F>, acc: Acc<F>, f: Family, labels: map<string, string>, value: string)
    requires Labelled(acc)
    ensures Labelled(ApplyFamily(c, acc, f, labels, value))
  {
  }

  lemma {:induction false} FoldKeepsLabelled<F>(c: Codec<F>, acc: Acc<F>, lines: seq<string>)
    requires Labelled(acc)
    ensures Labelled(FoldLines(c, acc, lines))
    decreases |lines|
  {
    if lines != [] {
      var t := Trim(lines[0]);
      var s := ParseLine(t);
      if s.Some? && FamilyOf(s.value.name).Some? {
        ApplyFamilyKeepsLabelled(c, acc, FamilyOf(s.value.name).value, s.value.labels, s.value.value);
      }
      FoldKeepsLabelled(c, ApplyLine(c, acc, lines[0]), lines[1..]);
    }
  }

  lemma ByLabelIsTotal<F(!new)>()
    ensures TotalPreorder<PeerOut<F>>(PeerByName) && TotalPreorder<DiskOut<F>>(DiskByMount)
  {
    forall a: string, b: string, d: string | !Less(b, a) && !Less(d, b) ensures !Less(d, a) {
      LessTrichotomy(a, b);
      LessTrichotomy(b, d);
      LessTrichotomy(a, d);
      if Less(a, b) && Less(b, d) { LessTransitive(a, b, d); }
    }
    forall a: string, b: string ensures !Less(b, a) || !Less(a, b) { LessTrichotomy(a, b); }
  }

  /** Peers with distinct names have one sorted arrangement. */
  lemma PeersSortUniquely<F(!new)>(a: seq<PeerOut<F>>, b: seq<PeerOut<F>>)
    requires multiset(a) == multiset(b)
    requires forall x, y :: x in multiset(a) && y in multiset(a) && x.name == y.name ==> x == y
    ensures SortBy(a, PeerByName) == SortBy(b, PeerByName)
  {
    ByLabelIsTotal<F>();
    SortPermutes<PeerOut<F>>(a, PeerByName);
    SortPermutes<PeerOut<F>>(b, PeerByName);
    SortIsSorted<PeerOut<F>>(a, PeerByName);
    SortIsSorted<PeerOut<F>>(b, PeerByName);
    forall x: PeerOut<F>, y: PeerOut<F> | x in multiset(a) && y in multiset(a) && PeerByName(x, y) && PeerByName(y, x)
      ensures x == y
    {
      LessTrichotomy(x.name, y.name);
    }
    SortedUnique<PeerOut<F>>(SortBy(a, PeerByName), SortBy(b, PeerByName), PeerByName);
  }

  lemma DisksSortUniquely<F(!new)>(a: seq<DiskOut<F>>, b: seq<DiskOut<F>>)
    requires multiset(a) == multiset(b)
    requires forall x, y :: x in multiset(a) && y in multiset(a) && x.mount == y.mount ==> x == y
    ensures SortBy(a, DiskByMount) == SortBy(b, DiskByMount)
  {
    ByLabelIsTotal<F>();
    SortPermutes<DiskOut<F>>(a, DiskByMount);
    SortPermutes<DiskOut<F>>(b, DiskByMount);
    SortIsSorted<DiskOut<F>>(a, DiskByMount);
    SortIsSorted<DiskOut<F>>(b, DiskByMount);
    forall x: DiskOut<F>, y: DiskOut<F> | x in multiset(a) && y in multiset(a) && DiskByMount(x, y) && DiskByMount(y, x)
      ensures x == y
    {
      LessTrichotomy(x.mount, y.mount);
    }
    SortedUnique<DiskOut<F>>(SortBy(a, DiskByMount), SortBy(b, DiskByMount), DiskByMount);
  }

  /** Strictly ascending byte order of the label, so no label twice. */
  ghost predicate PeersAscend<F>(ps: seq<PeerOut<F>>) {
    forall i, j :: 0 <= i < j < |ps| ==> BytesBefore(ps[i].name, ps[j].name)
  }

  ghost predicate DisksAscend<F>(ds: seq<DiskOut<F>>) {
    forall i, j :: 0 <= i < j < |ds| ==> BytesBefore(ds[i].mount, ds[j].mount)
  }

  lemma ClosedPeersAscend<F(!new)>(rows: map<string, PeerOut<F>>)
    requires forall n :: n in rows ==> rows[n].name == n
    ensures PeersAscend(SortBy(MapValues(rows), PeerByName))
  {
    var out := SortBy(MapValues(rows), PeerByName);
    ByLabelIsTotal<F>();
    MapValuesAreAll(rows);
    SortPermutes<PeerOut<F>>(MapValues(rows), PeerByName);
    SortIsSorted<PeerOut<F>>(MapValues(rows), PeerByName);
    forall i, j | 0 <= i < j < |out| ensures BytesBefore(out[i].name, out[j].name) {
      assert out[i] in multiset(out) && out[j] in multiset(out);
      if out[i].name == out[j].name { RepeatCountsTwice(out, i, j); }
      assert PeerByName(out[i], out[j]);
      LessTrichotomy(out[i].name, out[j].name);
      LessIsByteOrder(out[i].name, out[j].name);
    }
  }

  lemma ClosedDisksAscend<F(!new)>(rows: map<string, DiskOut<F>>)
    requires forall n :: n in rows ==> rows[n].mount == n
    ensures DisksAscend(SortBy(MapValues(rows), DiskByMount))
  {
    var out := SortBy(MapValues(rows), DiskByMount);
    ByLabelIsTotal<F>();
    MapValuesAreAll(rows);
    SortPermutes<DiskOut<F>>(MapValues(rows), DiskByMount);
    SortIsSorted<DiskOut<F>>(MapValues(rows), DiskByMount);
    forall i, j | 0 <= i < j < |out| ensures BytesBefore(out[i].mount, out[j].mount) {
      assert out[i] in multiset(out) && out[j] in multiset(out);
      if out[i].mount == out[j].mount { RepeatCountsTwice(out, i, j); }
      assert DiskByMount(out[i], out[j]);
      LessTrichotomy(out[i].mount, out[j].mount);
      LessIsByteOrder(out[i].mount, out[j].mount);
    }
  }

  /** Any text at all is reported with peers and disks in that order. */
  lemma ReportAscends<F(!new)>(c: Codec<F>, text: string)
    ensures PeersAscend(Parsed(c, text).peers) && DisksAscend(Parsed(c, text).disks)
  {
    var acc := FoldLines(c, Start(), SplitOn(text, '\n'));
    FoldKeepsLabelled(c, Start(), SplitOn(text, '\n'));
    ClosedPeersAscend(acc.peers);
    ClosedDisksAscend(acc.disks);
  }

  /** The line loop of parseHostMetrics. */
  method ReadLines<F>(c: Codec<F>, lines: seq<string>) returns (acc: Acc<F>)
    ensures acc == FoldLines(c, Start(), lines)
  {
    acc := Start();
    for i := 0 to |lines|
      invariant FoldLines(c, acc, lines[i..]) == FoldLines(c, Start(), lines)
    {
      assert lines[i..][1..] == lines[i + 1..];
      var line := Trim(lines[i]);
      if line != "" && line[0] != '#' {
        var s := ParsePromLine(line);
        if s.Some? {
          acc := ApplySample(c, acc, s.value);
        }
      }
    }
  }

  method SortedPeers<F(==, !new)>(peers: map<string, PeerOut<F>>) returns (out: seq<PeerOut<F>>)
    requires forall n :: n in peers ==> peers[n].name == n
    ensures out == SortBy(MapValues(peers), PeerByName)
  {
    out := RangeValues(peers);
    MapValuesAreAll(peers);
    PeersSortUniquely(out, MapValues(peers));
    out := SortBy(out, PeerByName);
  }

  method SortedDisks<F(==, !new)>(disks: map<string, DiskOut<F>>) returns (out: seq<DiskOut<F>>)
    requires forall n :: n in disks ==> disks[n].mount == n
    ensures out == SortBy(MapValues(disks), DiskByMount)
  {
    out := RangeValues(disks);
    MapValuesAreAll(disks);
    DisksSortUniquely(out, MapValues(disks));
    out := SortBy(out, DiskByMount);
  }

  /** parseHostMetrics: read every line, then range over the two tables and sort. */
  method ParseHostMetrics<F(==, !new)>(c: Codec<F>, text: string) returns (r: Report<F>)
    ensures r == Parsed(c, text)
  {
    var lines := SplitOn(text, '\n');
    var acc := ReadLines(c, lines);
    FoldKeepsLabelled(c, Start(), lines);
    var peers := SortedPeers(acc.peers);
    var disks := SortedDisks(acc.disks);
    r := Report(acc.serviceActive, acc.peersTotal, acc.peersOnline, peers, acc.cpu, acc.memory, disks,
                acc.activeAlerts, acc.version, acc.sha, text);
  }
}
