/** The exposition body that GET /metrics prints (server/handlers_metrics.go), in the
    Prometheus text exposition format 0.0.4. One char stands for one byte. */
module PromText {
  import opened Wrappers

  /** Number formatting and parsing, which the program leaves to its library: %d, FormatFloat
      and ParseFloat, and the conversions between integers and floats. */
  datatype Codec<!F> = Codec(
    printInt: int -> string,
    printFloat: F -> string,
    parseFloat: string -> Option<F>,
    toFloat: int -> F,
    truncate: F -> int,
    seconds: int -> F,
    isZero: F -> bool)

  datatype PeerMetric = PeerMetric(name: string, lastHandshake: Option<int>, rx: int, tx: int)

  datatype DiskMetric<F> = DiskMetric(mount: string, pctFull: F)

  /** poller.MetricsSnapshot with the scrape's own inputs: clock, alert count, build labels. */
  datatype Snapshot<F> = Snapshot(
    serviceActive: bool, serviceKnown: bool, peersTotal: int, peersOnline: int, peers: seq<PeerMetric>,
    cpu: F, cpuKnown: bool, mem: F, memKnown: bool, disks: seq<DiskMetric<F>>,
    now: int, activeAlerts: nat, version: string, sha: string)

  /** strings.ReplaceAll of one byte. */
  function ReplaceByte(s: string, c: char, rep: string): string {
    if s == "" then "" else (if s[0] == c then rep else [s[0]]) + ReplaceByte(s[1..], c, rep)
  }

  /** promEscapeLabel: three passes, backslash first. */
  function EscapeLabel(s: string): string {
    ReplaceByte(ReplaceByte(ReplaceByte(s, '\\', "\\\\"), '"', "\\\""), '\n', "\\n")
  }

  /** promEscapeHelp: two passes. */
  function EscapeHelp(s: string): string {
    ReplaceByte(ReplaceByte(s, '\\', "\\\\"), '\n', "\\n")
  }

  function EscapeByte(c: char): string {
    if c == '\\' then "\\\\" else if c == '"' then "\\\"" else if c == '\n' then "\\n" else [c]
  }

  /** The escape the format asks for, byte by byte. */
  function EscapeOnce(s: string): string {
    if s == "" then "" else EscapeByte(s[0]) + EscapeOnce(s[1..])
  }

  lemma {:induction false} ReplaceByteConcat(a: string, b: string, c: char, rep: string)
    ensures ReplaceByte(a + b, c, rep) == ReplaceByte(a, c, rep) + ReplaceByte(b, c, rep)
  {
    if a == "" {
      assert a + b == b;
    } else {
      ReplaceByteConcat(a[1..], b, c, rep);
      assert (a + b)[1..] == a[1..] + b && (a + b)[0] == a[0];
      var first := if a[0] == c then rep else [a[0]];
      assert first + (ReplaceByte(a[1..], c, rep) + ReplaceByte(b, c, rep)) ==
             (first + ReplaceByte(a[1..], c, rep)) + ReplaceByte(b, c, rep);
    }
  }

  lemma ReplaceInEscape()
    ensures ReplaceByte("\\\\", '"', "\\\"") == "\\\\" && ReplaceByte("\\\\", '\n', "\\n") == "\\\\"
    ensures ReplaceByte("\\\"", '\n', "\\n") == "\\\""
  {
    assert "\\\\"[1..] == "\\" && "\\"[1..] == "" && "\\\""[1..] == "\"" && "\""[1..] == "";
  }

  lemma ReplaceOne(d: char, c: char, rep: string)
    ensures ReplaceByte([d], c, rep) == if d == c then rep else [d]
  {
    assert [d][1..] == "";
  }

  /** The three replace passes amount to one pass: no escape is escaped again. */
  lemma {:induction false} ThreePassesAreOne(s: string)
    ensures EscapeLabel(s) == EscapeOnce(s)
  {
    if s != "" {
      ThreePassesAreOne(s[1..]);
      var first := if s[0] == '\\' then "\\\\" else [s[0]];
      var second := ReplaceByte(first, '"', "\\\"");
      ReplaceByteConcat(first, ReplaceByte(s[1..], '\\', "\\\\"), '"', "\\\"");
      ReplaceByteConcat(second, ReplaceByte(ReplaceByte(s[1..], '\\', "\\\\"), '"', "\\\""), '\n', "\\n");
      ReplaceInEscape();
      ReplaceOne(s[0], '"', "\\\"");
      ReplaceOne(s[0], '\n', "\\n");
    }
  }

  /** Reading HELP text back as the format says: a doubled backslash is one, backslash n a newline. */
  function ReadHelp(s: string): string
    decreases |s|
  {
    if s == "" then ""
    else if |s| >= 2 && s[0] == '\\' && s[1] == '\\' then "\\" + ReadHelp(s[2..])
    else if |s| >= 2 && s[0] == '\\' && s[1] == 'n' then "\n" + ReadHelp(s[2..])
    else [s[0]] + ReadHelp(s[1..])
  }

  lemma HelpByte(c: char, rest: string)
    ensures EscapeHelp([c]) == if c == '\\' then "\\\\" else if c == '\n' then "\\n" else [c]
    ensures ReadHelp(EscapeHelp([c]) + rest) == [c] + ReadHelp(rest)
  {
    ReplaceOne(c, '\\', "\\\\");
    ReplaceInEscape();
    ReplaceOne(c, '\n', "\\n");
    var s := EscapeHelp([c]) + rest;
    if |EscapeHelp([c])| == 2 { assert s[2..] == rest; } else { assert s[1..] == rest; }
  }

  /** HELP text is one line and reads back byte for byte. */
  lemma {:induction false} HelpReadsBack(s: string)
    ensures ReadHelp(EscapeHelp(s)) == s && '\n' !in EscapeHelp(s)
  {
    if s != "" {
      assert s == [s[0]] + s[1..];
      ReplaceByteConcat([s[0]], s[1..], '\\', "\\\\");
      ReplaceByteConcat(ReplaceByte([s[0]], '\\', "\\\\"), ReplaceByte(s[1..], '\\', "\\\\"), '\n', "\\n");
      assert EscapeHelp(s) == EscapeHelp([s[0]]) + EscapeHelp(s[1..]);
      HelpReadsBack(s[1..]);
      HelpByte(s[0], EscapeHelp(s[1..]));
    }
  }

  /** The metric families, in the order they are printed. */
  datatype Family =
    | Service | PeersTotal | PeersOnline | HandshakeAge | RxBytes | TxBytes
    | Cpu | Memory | Disk | ActiveAlerts | BuildInfo

  /** Every family is in the wireguard_ namespace. */
  function Name(f: Family): string {
    match f
    case Service => "wireguard_service_active"
    case PeersTotal => "wireguard_peers_total"
    case PeersOnline => "wireguard_peers_online"
    case HandshakeAge => "wireguard_peer_last_handshake_age_seconds"
    case RxBytes => "wireguard_peer_rx_bytes_total"
    case TxBytes => "wireguard_peer_tx_bytes_total"
    case Cpu => "wireguard_host_cpu_percent"
    case Memory => "wireguard_host_memory_percent"
    case Disk => "wireguard_host_disk_percent"
    case ActiveAlerts => "wireguard_active_alerts"
    case BuildInfo => "wireguard_build_info"
  }

  /** One output line: a comment, or a sample with its labels and value text. */
  datatype Item = Help(f: Family) | Type(f: Family) | Series(f: Family, labels: seq<(string, string)>, value: string)

  /** k="v" pairs separated by commas. */
  function LabelText(labels: seq<(string, string)>): string {
    if labels == [] then ""
    else if |labels| == 1 then labels[0].0 + "=\"" + EscapeLabel(labels[0].1) + "\""
    else labels[0].0 + "=\"" + EscapeLabel(labels[0].1) + "\"" + "," + LabelText(labels[1..])
  }

  function TypeName(f: Family): string { if f.RxBytes? || f.TxBytes? then "counter" else "gauge" }

  function ItemText(help: Family -> string, item: Item): string {
    match item
    case Help(f) => "# HELP " + Name(f) + " " + EscapeHelp(help(f))
    case Type(f) => "# TYPE " + Name(f) + " " + TypeName(f)
    case Series(f, labels, value) =>
      if labels == [] then Name(f) + " " + value else Name(f) + "{" + LabelText(labels) + "} " + value
  }

  /** Each line with its newline. */
  function Body(line: Item -> string, items: seq<Item>): string {
    if items == [] then "" else Body(line, items[..|items| - 1]) + (line(items[|items| - 1]) + "\n")
  }

  /** promHeader: the HELP and TYPE lines of a family. */
  function Header(f: Family): seq<Item> { [Help(f), Type(f)] }

  function ServiceItems<F>(c: Codec<F>, snap: Snapshot<F>): seq<Item> {
    if !snap.serviceKnown then []
    else Header(Service) + [Series(Service, [], c.printInt(if snap.serviceActive then 1 else 0))]
  }

  function CountItems<F>(c: Codec<F>, snap: Snapshot<F>): seq<Item> {
    Header(PeersTotal) + [Series(PeersTotal, [], c.printInt(snap.peersTotal))]
    + Header(PeersOnline) + [Series(PeersOnline, [], c.printInt(snap.peersOnline))]
  }

  /** The age of a handshake at scrape time, never negative. */
  function Age(now: int, handshake: int): int { if now - handshake < 0 then 0 else now - handshake }

  function AgeItem<F>(c: Codec<F>, now: int, p: PeerMetric): seq<Item> {
    if p.lastHandshake.None? then []
    else [Series(HandshakeAge, [("peer", p.name)], c.printFloat(c.seconds(Age(now, p.lastHandshake.value))))]
  }

  function AgeItems<F>(c: Codec<F>, now: int, peers: seq<PeerMetric>): seq<Item> {
    if peers == [] then [] else AgeItems(c, now, peers[..|peers| - 1]) + AgeItem(c, now, peers[|peers| - 1])
  }

  function RxItem<F>(c: Codec<F>, p: PeerMetric): Item { Series(RxBytes, [("peer", p.name)], c.printInt(p.rx)) }

  function TxItem<F>(c: Codec<F>, p: PeerMetric): Item { Series(TxBytes, [("peer", p.name)], c.printInt(p.tx)) }

  function RxItems<F>(c: Codec<F>, peers: seq<PeerMetric>): seq<Item> {
    if peers == [] then [] else RxItems(c, peers[..|peers| - 1]) + [RxItem(c, peers[|peers| - 1])]
  }

  function TxItems<F>(c: Codec<F>, peers: seq<PeerMetric>): seq<Item> {
    if peers == [] then [] else TxItems(c, peers[..|peers| - 1]) + [TxItem(c, peers[|peers| - 1])]
  }

  function HostItems<F>(c: Codec<F>, snap: Snapshot<F>): seq<Item> {
    (if !snap.cpuKnown then [] else Header(Cpu) + [Series(Cpu, [], c.printFloat(snap.cpu))])
    + (if !snap.memKnown then [] else Header(Memory) + [Series(Memory, [], c.printFloat(snap.mem))])
  }

  function DiskItem<F>(c: Codec<F>, d: DiskMetric<F>): Item {
    Series(Disk, [("mount", d.mount)], c.printFloat(d.pctFull))
  }

  function DiskItems<F>(c: Codec<F>, disks: seq<DiskMetric<F>>): seq<Item> {
    if disks == [] then [] else DiskItems(c, disks[..|disks| - 1]) + [DiskItem(c, disks[|disks| - 1])]
  }

  function TailItems<F>(c: Codec<F>, snap: Snapshot<F>): seq<Item> {
    Header(ActiveAlerts) + [Series(ActiveAlerts, [], c.printInt(snap.activeAlerts))]
    + Header(BuildInfo) + [Series(BuildInfo, [("version", snap.version), ("sha", snap.sha)], "1")]
  }

  function TopText<F>(line: Item -> string, c: Codec<F>, snap: Snapshot<F>): string {
    Body(line, ServiceItems(c, snap)) + Body(line, CountItems(c, snap))
  }

  function AgeText<F>(line: Item -> string, c: Codec<F>, snap: Snapshot<F>): string {
    Body(line, Header(HandshakeAge)) + Body(line, AgeItems(c, snap.now, snap.peers))
  }

  function RxText<F>(line: Item -> string, c: Codec<F>, peers: seq<PeerMetric>): string {
    Body(line, Header(RxBytes)) + Body(line, RxItems(c, peers))
  }

  function TxText<F>(line: Item -> string, c: Codec<F>, peers: seq<PeerMetric>): string {
    Body(line, Header(TxBytes)) + Body(line, TxItems(c, peers))
  }

  function DiskText<F>(line: Item -> string, c: Codec<F>, disks: seq<DiskMetric<F>>): string {
    Body(line, Header(Disk)) + Body(line, DiskItems(c, disks))
  }

  /** The exposition: every section in order. */
  function Exposition<F>(line: Item -> string, c: Codec<F>, snap: Snapshot<F>): string {
    TopText(line, c, snap) + AgeText(line, c, snap) + RxText(line, c, snap.peers) + TxText(line, c, snap.peers)
    + Body(line, HostItems(c, snap)) + DiskText(line, c, snap.disks) + Body(line, TailItems(c, snap))
  }

  method Lines(line: Item -> string, b: string, items: seq<Item>) returns (r: string)
    ensures r == b + Body(line, items)
  {
    r := b;
    for i := 0 to |items|
      invariant r == b + Body(line, items[..i])
    {
      assert items[..i + 1][..i] == items[..i];
      r := r + (line(items[i]) + "\n");
    }
    assert items[..|items|] == items;
  }

  lemma {:induction false} BodyConcat(line: Item -> string, a: seq<Item>, b: seq<Item>)
    ensures Body(line, a + b) == Body(line, a) + Body(line, b)
    decreases |b|
  {
    if b == [] {
      assert a + b == a;
    } else {
      BodyConcat(line, a, b[..|b| - 1]);
      assert (a + b)[..|a + b| - 1] == a + b[..|b| - 1];
      var last := line(b[|b| - 1]) + "\n";
      assert Body(line, a) + (Body(line, b[..|b| - 1]) + last) == (Body(line, a) + Body(line, b[..|b| - 1])) + last;
    }
  }

  lemma AgeBody<F>(line: Item -> string, c: Codec<F>, b: string, now: int, ps: seq<PeerMetric>, i: nat)
    requires i < |ps|
    ensures b + Body(line, AgeItems(c, now, ps[..i + 1])) ==
            b + Body(line, AgeItems(c, now, ps[..i])) + Body(line, AgeItem(c, now, ps[i]))
    ensures ps[i].lastHandshake.None? ==>
              b + Body(line, AgeItems(c, now, ps[..i + 1])) == b + Body(line, AgeItems(c, now, ps[..i]))
  {
    assert ps[..i + 1][..i] == ps[..i];
    BodyConcat(line, AgeItems(c, now, ps[..i]), AgeItem(c, now, ps[i]));
    assert AgeItems(c, now, ps[..i]) + [] == AgeItems(c, now, ps[..i]);
  }

  method AgeLines<F>(line: Item -> string, c: Codec<F>, b: string, now: int, ps: seq<PeerMetric>) returns (r: string)
    ensures r == b + Body(line, AgeItems(c, now, ps))
  {
    r := b;
    for i := 0 to |ps|
      invariant r == b + Body(line, AgeItems(c, now, ps[..i]))
    {
      AgeBody(line, c, b, now, ps, i);
      if ps[i].lastHandshake.Some? {
        r := Lines(line, r, AgeItem(c, now, ps[i]));
      }
    }
    assert ps[..|ps|] == ps;
  }

  method RxLines<F>(line: Item -> string, c: Codec<F>, b: string, ps: seq<PeerMetric>) returns (r: string)
    ensures r == b + Body(line, RxItems(c, ps))
  {
    r := b;
    for i := 0 to |ps|
      invariant r == b + Body(line, RxItems(c, ps[..i]))
    {
      assert ps[..i + 1][..i] == ps[..i];
      var before := RxItems(c, ps[..i]);
      assert (before + [RxItem(c, ps[i])])[..|before|] == before;
      r := r + (line(RxItem(c, ps[i])) + "\n");
    }
    assert ps[..|ps|] == ps;
  }

  method TxLines<F>(line: Item -> string, c: Codec<F>, b: string, ps: seq<PeerMetric>) returns (r: string)
    ensures r == b + Body(line, TxItems(c, ps))
  {
    r := b;
    for i := 0 to |ps|
      invariant r == b + Body(line, TxItems(c, ps[..i]))
    {
      assert ps[..i + 1][..i] == ps[..i];
      var before := TxItems(c, ps[..i]);
      assert (before + [TxItem(c, ps[i])])[..|before|] == before;
      r := r + (line(TxItem(c, ps[i])) + "\n");
    }
    assert ps[..|ps|] == ps;
  }

  method DiskLines<F>(line: Item -> string, c: Codec<F>, b: string, ds: seq<DiskMetric<F>>) returns (r: string)
    ensures r == b + Body(line, DiskItems(c, ds))
  {
    r := b;
    for i := 0 to |ds|
      invariant r == b + Body(line, DiskItems(c, ds[..i]))
    {
      assert ds[..i + 1][..i] == ds[..i];
      var before := DiskItems(c, ds[..i]);
      assert (before + [DiskItem(c, ds[i])])[..|before|] == before;
      r := r + (line(DiskItem(c, ds[i])) + "\n");
    }
    assert ds[..|ds|] == ds;
  }

  method Top<F>(line: Item -> string, c: Codec<F>, snap: Snapshot<F>) returns (r: string)
    ensures r == TopText(line, c, snap)
  {
    r := Lines(line, "", ServiceItems(c, snap));
    r := Lines(line, r, CountItems(c, snap));
  }

  method Ages<F>(line: Item -> string, c: Codec<F>, b: string, snap: Snapshot<F>) returns (r: string)
    ensures r == b + AgeText(line, c, snap)
  {
    r := Lines(line, b, Header(HandshakeAge));
    r := AgeLines(line, c, r, snap.now, snap.peers);
  }

  method Received<F>(line: Item -> string, c: Codec<F>, b: string, peers: seq<PeerMetric>) returns (r: string)
    ensures r == b + RxText(line, c, peers)
  {
    r := Lines(line, b, Header(RxBytes));
    r := RxLines(line, c, r, peers);
  }

  method Transmitted<F>(line: Item -> string, c: Codec<F>, b: string, peers: seq<PeerMetric>) returns (r: string)
    ensures r == b + TxText(line, c, peers)
  {
    r := Lines(line, b, Header(TxBytes));
    r := TxLines(line, c, r, peers);
  }

  method Disks<F>(line: Item -> string, c: Codec<F>, b: string, disks: seq<DiskMetric<F>>) returns (r: string)
    ensures r == b + DiskText(line, c, disks)
  {
    r := Lines(line, b, Header(Disk));
    r := DiskLines(line, c, r, disks);
  }

  /** handleGetMetricsProm as a string builder, for any way of printing one line. */
  method Render<F>(line: Item -> string, c: Codec<F>, snap: Snapshot<F>) returns (text: string)
    ensures text == Exposition(line, c, snap)
  {
    text := Top(line, c, snap);
    text := Ages(line, c, text, snap);
    text := Received(line, c, text, snap.peers);
    text := Transmitted(line, c, text, snap.peers);
    text := Lines(line, text, HostItems(c, snap));
    text := Disks(line, c, text, snap.disks);
    text := Lines(line, text, TailItems(c, snap));
  }

  /** The lines as the handler prints them, given the HELP texts. */
  function Printer(help: Family -> string): Item -> string { item => ItemText(help, item) }

  method GetMetrics<F>(help: Family -> string, c: Codec<F>, snap: Snapshot<F>) returns (text: string)
    ensures text == Exposition(Printer(help), c, snap)
  {
    text := Render(Printer(help), c, snap);
  }
}
