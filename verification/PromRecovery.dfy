/** The whole-exposition round trip: what is recovered, and exactly when. */
module PromRecovery {
  import opened Wrappers
  import opened Ordering
  import opened PromText
  import opened PromReport
  import opened PromLines
  import opened PromRoundTrip

  /** The age of a peer's last handshake: the time since then, 0 for one in the future. */
  function AgeBack<F>(c: Codec<F>, now: int, p: PeerMetric): Option<F> {
    match p.lastHandshake
    case None => None
    case Some(h) => Some(c.seconds(if h <= now then now - h else 0))
  }

  /** A peer as it should come back: counters through their float64 detour, and an age exactly
      when it has ever handshaked. */
  function PeerBack<F>(c: Codec<F>, now: int, p: PeerMetric): PeerOut<F> {
    PeerOut(p.name, c.truncate(c.toFloat(p.rx)), c.truncate(c.toFloat(p.tx)), AgeBack(c, now, p))
  }

  function PeersBack<F>(c: Codec<F>, now: int, peers: seq<PeerMetric>): (out: seq<PeerOut<F>>)
    ensures |out| == |peers| && forall i :: 0 <= i < |peers| ==> out[i] == PeerBack(c, now, peers[i])
  {
    seq(|peers|, i requires 0 <= i < |peers| => PeerBack(c, now, peers[i]))
  }

  function DisksBack<F>(disks: seq<DiskMetric<F>>): (out: seq<DiskOut<F>>)
    ensures |out| == |disks| && forall i :: 0 <= i < |disks| ==> out[i] == DiskOut(disks[i].mount, disks[i].pctFull)
  {
    seq(|disks|, i requires 0 <= i < |disks| => DiskOut(disks[i].mount, disks[i].pctFull))
  }

  ghost predicate DistinctNames(peers: seq<PeerMetric>) {
    && (forall i :: 0 <= i < |peers| ==> peers[i].name != "")
    && forall i, j :: 0 <= i < j < |peers| ==> peers[i].name != peers[j].name
  }

  ghost predicate DistinctMounts<F(!new)>(disks: seq<DiskMetric<F>>) {
    && (forall i :: 0 <= i < |disks| ==> disks[i].mount != "")
    && forall i, j :: 0 <= i < j < |disks| ==> disks[i].mount != disks[j].mount
  }

  lemma OneLabelMap(k: string, v: string)
    ensures WithLabels(map[], [(k, v)]) == map[k := v]
  {
    assert [(k, v)][1..] == [];
  }

  lemma FloatOfInt<F(!new)>(c: Codec<F>, n: int)
    requires Faithful(c)
    ensures Float(c, c.printInt(n)) == Some(c.toFloat(n))
  {
    assert Token(c.printInt(n));
  }

  lemma FloatOfFloat<F(!new)>(c: Codec<F>, f: F)
    requires Faithful(c)
    ensures Float(c, c.printFloat(f)) == Some(f)
  {
    assert Token(c.printFloat(f));
  }

  lemma InterpretAge<F(!new)>(c: Codec<F>, acc: Acc<F>, now: int, p: PeerMetric)
    requires Faithful(c) && p.name != "" && p.lastHandshake.Some?
    ensures Interpret(c, acc, AgeItem(c, now, p)[0])
         == WithPeer(acc, PeerRow(acc.peers, p.name).(name := p.name, age := AgeBack(c, now, p)))
  {
    OneLabelMap("peer", p.name);
    FloatOfFloat(c, c.seconds(Age(now, p.lastHandshake.value)));
  }

  function AfterRx<F>(c: Codec<F>, rows: map<string, PeerOut<F>>, p: PeerMetric): map<string, PeerOut<F>> {
    rows[p.name := PeerRow(rows, p.name).(name := p.name, rx := c.truncate(c.toFloat(p.rx)))]
  }

  lemma InterpretRx<F(!new)>(c: Codec<F>, acc: Acc<F>, p: PeerMetric)
    requires Faithful(c) && p.name != ""
    ensures Interpret(c, acc, RxItem(c, p)).peers == AfterRx(c, acc.peers, p)
  {
    OneLabelMap("peer", p.name);
    FloatOfInt(c, p.rx);
  }

  function AfterTx<F>(c: Codec<F>, rows: map<string, PeerOut<F>>, p: PeerMetric): map<string, PeerOut<F>> {
    rows[p.name := PeerRow(rows, p.name).(name := p.name, tx := c.truncate(c.toFloat(p.tx)))]
  }

  lemma InterpretTx<F(!new)>(c: Codec<F>, acc: Acc<F>, p: PeerMetric)
    requires Faithful(c) && p.name != ""
    ensures Interpret(c, acc, TxItem(c, p)).peers == AfterTx(c, acc.peers, p)
  {
    OneLabelMap("peer", p.name);
    FloatOfInt(c, p.tx);
  }

  lemma InterpretDisk<F(!new)>(c: Codec<F>, acc: Acc<F>, d: DiskMetric<F>)
    requires Faithful(c) && d.mount != ""
    ensures Interpret(c, acc, DiskItem(c, d)) == acc.(disks := acc.disks[d.mount := DiskOut(d.mount, d.pctFull)])
  {
    OneLabelMap("mount", d.mount);
    FloatOfFloat(c, d.pctFull);
  }

  /** The row of peer i after the first a age, r rx and t tx samples. */
  function Row<F>(c: Codec<F>, now: int, p: PeerMetric, age: bool, rx: bool, tx: bool): PeerOut<F> {
    PeerOut(p.name, if rx then c.truncate(c.toFloat(p.rx)) else 0, if tx then c.truncate(c.toFloat(p.tx)) else 0,
            if age then AgeBack(c, now, p) else None)
  }

  predicate Present(p: PeerMetric, age: bool, rx: bool, tx: bool) { (age && p.lastHandshake.Some?) || rx || tx }

  /** The peer table after the first a age, r rx and t tx samples. */
  ghost predicate Stage<F(!new)>(c: Codec<F>, now: int, m: map<string, PeerOut<F>>, peers: seq<PeerMetric>, a: nat,
                          r: nat, t: nat) {
    && (forall n :: n in m ==>
          exists i :: 0 <= i < |peers| && peers[i].name == n && Present(peers[i], i < a, i < r, i < t))
    && (forall i :: 0 <= i < |peers| && Present(peers[i], i < a, i < r, i < t) ==>
          peers[i].name in m && m[peers[i].name] == Row(c, now, peers[i], i < a, i < r, i < t))
  }

  /** Whether or not peer k has been seen, its current row is what its samples so far say. */
  lemma RowFetched<F(!new)>(c: Codec<F>, now: int, m: map<string, PeerOut<F>>, peers: seq<PeerMetric>, k: nat, a: nat,
                     r: nat, t: nat)
    requires DistinctNames(peers) && k < |peers| && Stage(c, now, m, peers, a, r, t)
    ensures PeerRow(m, peers[k].name).(name := peers[k].name) == Row(c, now, peers[k], k < a, k < r, k < t)
  {
    var n := peers[k].name;
    if !Present(peers[k], k < a, k < r, k < t) && n in m {
      var i :| 0 <= i < |peers| && peers[i].name == n && Present(peers[i], i < a, i < r, i < t);
      assert false;
    }
  }

  predicate SameSamples(i: nat, a: nat, r: nat, t: nat, a': nat, r': nat, t': nat) {
    (i < a <==> i < a') && (i < r <==> i < r') && (i < t <==> i < t')
  }

  lemma SamplesCarryOver(peers: seq<PeerMetric>, k: nat, a: nat, r: nat, t: nat, a': nat, r': nat, t': nat, i: nat)
    requires forall i :: 0 <= i < |peers| && i != k ==> SameSamples(i, a, r, t, a', r', t')
    requires i < |peers| && i != k
    ensures (i < a) == (i < a') && (i < r) == (i < r') && (i < t) == (i < t')
  {
    assert SameSamples(i, a, r, t, a', r', t');
  }

  /** Storing the advanced row of peer k advances the stage. */
  lemma RowStored<F(!new)>(c: Codec<F>, now: int, m: map<string, PeerOut<F>>, peers: seq<PeerMetric>, k: nat,
                           a: nat, r: nat, t: nat, a': nat, r': nat, t': nat)
    requires DistinctNames(peers) && k < |peers| && Stage(c, now, m, peers, a, r, t)
    requires forall i :: 0 <= i < |peers| && i != k ==> SameSamples(i, a, r, t, a', r', t')
    requires Present(peers[k], k < a', k < r', k < t')
    ensures Stage(c, now, m[peers[k].name := Row(c, now, peers[k], k < a', k < r', k < t')], peers, a', r', t')
  {
    var next := m[peers[k].name := Row(c, now, peers[k], k < a', k < r', k < t')];
    forall n | n in next
      ensures exists i :: 0 <= i < |peers| && peers[i].name == n && Present(peers[i], i < a', i < r', i < t')
    {
      if n == peers[k].name {
        assert Present(peers[k], k < a', k < r', k < t');
      } else {
        var i :| 0 <= i < |peers| && peers[i].name == n && Present(peers[i], i < a, i < r, i < t);
        SamplesCarryOver(peers, k, a, r, t, a', r', t', i);
        assert Present(peers[i], i < a', i < r', i < t');
      }
    }
    forall i | 0 <= i < |peers| && Present(peers[i], i < a', i < r', i < t')
      ensures peers[i].name in next && next[peers[i].name] == Row(c, now, peers[i], i < a', i < r', i < t')
    {
      if i != k {
        SamplesCarryOver(peers, k, a, r, t, a', r', t', i);
        assert Present(peers[i], i < a, i < r, i < t) && peers[i].name != peers[k].name;
      }
    }
  }

  lemma AgeStep<F(!new)>(c: Codec<F>, now: int, acc: Acc<F>, peers: seq<PeerMetric>, a: nat)
    requires Faithful(c) && DistinctNames(peers) && a < |peers| && Stage(c, now, acc.peers, peers, a, 0, 0)
    ensures peers[a].lastHandshake.None? ==> Stage(c, now, acc.peers, peers, a + 1, 0, 0)
    ensures peers[a].lastHandshake.Some? ==>
              Stage(c, now, Interpret(c, acc, AgeItem(c, now, peers[a])[0]).peers, peers, a + 1, 0, 0)
  {
    if peers[a].lastHandshake.Some? {
      InterpretAge(c, acc, now, peers[a]);
      RowFetched(c, now, acc.peers, peers, a, a, 0, 0);
      RowStored(c, now, acc.peers, peers, a, a, 0, 0, a + 1, 0, 0);
    }
  }

  lemma RxStep<F(!new)>(c: Codec<F>, now: int, rows: map<string, PeerOut<F>>, peers: seq<PeerMetric>, r: nat)
    requires DistinctNames(peers) && r < |peers| && Stage(c, now, rows, peers, |peers|, r, 0)
    ensures Stage(c, now, AfterRx(c, rows, peers[r]), peers, |peers|, r + 1, 0)
  {
    RowFetched(c, now, rows, peers, r, |peers|, r, 0);
    RowStored(c, now, rows, peers, r, |peers|, r, 0, |peers|, r + 1, 0);
  }

  lemma TxStep<F(!new)>(c: Codec<F>, now: int, rows: map<string, PeerOut<F>>, peers: seq<PeerMetric>, t: nat)
    requires DistinctNames(peers) && t < |peers| && Stage(c, now, rows, peers, |peers|, |peers|, t)
    ensures Stage(c, now, AfterTx(c, rows, peers[t]), peers, |peers|, |peers|, t + 1)
  {
    RowFetched(c, now, rows, peers, t, |peers|, |peers|, t);
    RowStored(c, now, rows, peers, t, |peers|, |peers|, t, |peers|, |peers|, t + 1);
  }

  lemma InterpretMore<F>(c: Codec<F>, acc: Acc<F>, items: seq<Item>, last: Item)
    ensures InterpretAll(c, acc, items + [last]) == Interpret(c, InterpretAll(c, acc, items), last)
  {
    assert (items + [last])[..|items|] == items;
  }

  lemma AgesMore<F>(c: Codec<F>, now: int, acc: Acc<F>, peers: seq<PeerMetric>, a: nat)
    requires a < |peers|
    ensures var before := InterpretAll(c, acc, AgeItems(c, now, peers[..a]));
            InterpretAll(c, acc, AgeItems(c, now, peers[..a + 1])) ==
            if peers[a].lastHandshake.Some? then Interpret(c, before, AgeItem(c, now, peers[a])[0]) else before
  {
    var before := AgeItems(c, now, peers[..a]);
    assert peers[..a + 1][..a] == peers[..a];
    if peers[a].lastHandshake.Some? {
      InterpretMore(c, acc, before, AgeItem(c, now, peers[a])[0]);
      assert AgeItems(c, now, peers[..a + 1]) == before + [AgeItem(c, now, peers[a])[0]];
    } else {
      assert AgeItems(c, now, peers[..a + 1]) == before;
    }
  }

  lemma RxMore<F(!new)>(c: Codec<F>, acc: Acc<F>, peers: seq<PeerMetric>, n: nat)
    requires Faithful(c) && n < |peers| && peers[n].name != ""
    ensures InterpretAll(c, acc, RxItems(c, peers[..n + 1])).peers ==
            AfterRx(c, InterpretAll(c, acc, RxItems(c, peers[..n])).peers, peers[n])
  {
    assert peers[..n + 1][..n] == peers[..n];
    InterpretMore(c, acc, RxItems(c, peers[..n]), RxItem(c, peers[n]));
    InterpretRx(c, InterpretAll(c, acc, RxItems(c, peers[..n])), peers[n]);
  }

  lemma TxMore<F(!new)>(c: Codec<F>, acc: Acc<F>, peers: seq<PeerMetric>, n: nat)
    requires Faithful(c) && n < |peers| && peers[n].name != ""
    ensures InterpretAll(c, acc, TxItems(c, peers[..n + 1])).peers ==
            AfterTx(c, InterpretAll(c, acc, TxItems(c, peers[..n])).peers, peers[n])
  {
    assert peers[..n + 1][..n] == peers[..n];
    InterpretMore(c, acc, TxItems(c, peers[..n]), TxItem(c, peers[n]));
    InterpretTx(c, InterpretAll(c, acc, TxItems(c, peers[..n])), peers[n]);
  }

  lemma {:induction false} AgesReach<F(!new)>(c: Codec<F>, now: int, acc: Acc<F>, peers: seq<PeerMetric>, a: nat)
    requires Faithful(c) && DistinctNames(peers) && a <= |peers| && acc.peers == map[]
    ensures Stage(c, now, InterpretAll(c, acc, AgeItems(c, now, peers[..a])).peers, peers, a, 0, 0)
    decreases a
  {
    if a > 0 {
      AgesReach(c, now, acc, peers, a - 1);
      AgeStep(c, now, InterpretAll(c, acc, AgeItems(c, now, peers[..a - 1])), peers, a - 1);
      AgesMore(c, now, acc, peers, a - 1);
    }
  }

  lemma {:induction false} RxReach<F(!new)>(c: Codec<F>, now: int, acc: Acc<F>, peers: seq<PeerMetric>, r: nat)
    requires Faithful(c) && DistinctNames(peers) && r <= |peers| && Stage(c, now, acc.peers, peers, |peers|, 0, 0)
    ensures Stage(c, now, InterpretAll(c, acc, RxItems(c, peers[..r])).peers, peers, |peers|, r, 0)
    decreases r
  {
    if r > 0 {
      RxReach(c, now, acc, peers, r - 1);
      RxStep(c, now, InterpretAll(c, acc, RxItems(c, peers[..r - 1])).peers, peers, r - 1);
      RxMore(c, acc, peers, r - 1);
    }
  }

  lemma TxAdvances<F(!new)>(c: Codec<F>, now: int, acc: Acc<F>, peers: seq<PeerMetric>, t: nat)
    requires Faithful(c) && DistinctNames(peers) && t < |peers|
    requires Stage(c, now, InterpretAll(c, acc, TxItems(c, peers[..t])).peers, peers, |peers|, |peers|, t)
    ensures Stage(c, now, InterpretAll(c, acc, TxItems(c, peers[..t + 1])).peers, peers, |peers|, |peers|, t + 1)
  {
    TxStep(c, now, InterpretAll(c, acc, TxItems(c, peers[..t])).peers, peers, t);
    TxMore(c, acc, peers, t);
  }

  lemma {:induction false} TxReach<F(!new)>(c: Codec<F>, now: int, acc: Acc<F>, peers: seq<PeerMetric>, t: nat)
    requires Faithful(c) && DistinctNames(peers) && t <= |peers| && Stage(c, now, acc.peers, peers, |peers|, |peers|, 0)
    ensures Stage(c, now, InterpretAll(c, acc, TxItems(c, peers[..t])).peers, peers, |peers|, |peers|, t)
    decreases t
  {
    if t > 0 {
      TxReach(c, now, acc, peers, t - 1);
      TxAdvances(c, now, acc, peers, t - 1);
    }
  }

  ghost predicate DiskStage<F(!new)>(m: map<string, DiskOut<F>>, disks: seq<DiskMetric<F>>, n: nat) {
    && (forall d :: d in m ==> exists i :: 0 <= i < n && i < |disks| && disks[i].mount == d)
    && (forall i :: 0 <= i < n && i < |disks| ==>
          disks[i].mount in m && m[disks[i].mount] == DiskOut(disks[i].mount, disks[i].pctFull))
  }

  lemma DiskStored<F(!new)>(m: map<string, DiskOut<F>>, disks: seq<DiskMetric<F>>, n: nat)
    requires n < |disks| && DistinctMounts(disks) && DiskStage(m, disks, n)
    ensures DiskStage(m[disks[n].mount := DiskOut(disks[n].mount, disks[n].pctFull)], disks, n + 1)
  {
    var next := m[disks[n].mount := DiskOut(disks[n].mount, disks[n].pctFull)];
    forall d | d in next ensures exists i :: 0 <= i < n + 1 && i < |disks| && disks[i].mount == d {
      if d == disks[n].mount {
        assert 0 <= n < n + 1;
      } else {
        var i :| 0 <= i < n && i < |disks| && disks[i].mount == d;
      }
    }
  }

  lemma DisksMore<F(!new)>(c: Codec<F>, acc: Acc<F>, disks: seq<DiskMetric<F>>, n: nat)
    requires Faithful(c) && n < |disks| && disks[n].mount != ""
    ensures var before := InterpretAll(c, acc, DiskItems(c, disks[..n])).disks;
            InterpretAll(c, acc, DiskItems(c, disks[..n + 1])).disks ==
            before[disks[n].mount := DiskOut(disks[n].mount, disks[n].pctFull)]
  {
    assert disks[..n + 1][..n] == disks[..n];
    InterpretMore(c, acc, DiskItems(c, disks[..n]), DiskItem(c, disks[n]));
    InterpretDisk(c, InterpretAll(c, acc, DiskItems(c, disks[..n])), disks[n]);
  }

  lemma {:induction false} DisksReach<F(!new)>(c: Codec<F>, acc: Acc<F>, disks: seq<DiskMetric<F>>, n: nat)
    requires Faithful(c) && DistinctMounts(disks) && n <= |disks| && acc.disks == map[]
    ensures DiskStage(InterpretAll(c, acc, DiskItems(c, disks[..n])).disks, disks, n)
    decreases n
  {
    if n > 0 {
      DisksReach(c, acc, disks, n - 1);
      DisksMore(c, acc, disks, n - 1);
      DiskStored(InterpretAll(c, acc, DiskItems(c, disks[..n - 1])).disks, disks, n - 1);
    }
  }

  /** Which families a section may touch. */
  predicate OnlyPeerSamples(items: seq<Item>) {
    forall i :: 0 <= i < |items| ==> items[i].f.HandshakeAge? || items[i].f.RxBytes? || items[i].f.TxBytes?
  }

  predicate OnlyDiskSamples(items: seq<Item>) { forall i :: 0 <= i < |items| ==> items[i].f.Disk? }

  predicate NoRows(items: seq<Item>) {
    forall i :: 0 <= i < |items| ==>
      !items[i].f.HandshakeAge? && !items[i].f.RxBytes? && !items[i].f.TxBytes? && !items[i].f.Disk?
  }

  lemma InterpretFrame<F(!new)>(c: Codec<F>, acc: Acc<F>, item: Item)
    ensures item.f.HandshakeAge? || item.f.RxBytes? || item.f.TxBytes? ==>
              Interpret(c, acc, item) == acc.(peers := Interpret(c, acc, item).peers)
    ensures item.f.Disk? ==> Interpret(c, acc, item) == acc.(disks := Interpret(c, acc, item).disks)
    ensures !(item.f.HandshakeAge? || item.f.RxBytes? || item.f.TxBytes?) ==> Interpret(c, acc, item).peers == acc.peers
    ensures !item.f.Disk? ==> Interpret(c, acc, item).disks == acc.disks
  {
  }

  lemma {:induction false} SectionFrame<F(!new)>(c: Codec<F>, acc: Acc<F>, items: seq<Item>)
    ensures OnlyPeerSamples(items) ==> InterpretAll(c, acc, items) == acc.(peers := InterpretAll(c, acc, items).peers)
    ensures OnlyDiskSamples(items) ==> InterpretAll(c, acc, items) == acc.(disks := InterpretAll(c, acc, items).disks)
    ensures NoRows(items) ==>
            InterpretAll(c, acc, items).peers == acc.peers && InterpretAll(c, acc, items).disks == acc.disks
    decreases |items|
  {
    if items != [] {
      var init := items[..|items| - 1];
      SectionFrame(c, acc, init);
      InterpretFrame(c, InterpretAll(c, acc, init), items[|items| - 1]);
    }
  }

  lemma {:induction false} PeerSectionsAreFramed<F(!new)>(c: Codec<F>, now: int, peers: seq<PeerMetric>)
    ensures OnlyPeerSamples(AgeItems(c, now, peers)) && OnlyPeerSamples(RxItems(c, peers)) &&
            OnlyPeerSamples(TxItems(c, peers))
    decreases |peers|
  {
    if peers != [] { PeerSectionsAreFramed(c, now, peers[..|peers| - 1]); }
  }

  lemma {:induction false} DiskSectionIsFramed<F(!new)>(c: Codec<F>, disks: seq<DiskMetric<F>>)
    ensures OnlyDiskSamples(DiskItems(c, disks))
    decreases |disks|
  {
    if disks != [] { DiskSectionIsFramed(c, disks[..|disks| - 1]); }
  }

  lemma StageHasRows<F(!new)>(c: Codec<F>, now: int, m: map<string, PeerOut<F>>, peers: seq<PeerMetric>)
    requires Stage(c, now, m, peers, |peers|, |peers|, |peers|)
    ensures (set p | p in PeersBack(c, now, peers)) == m.Values
  {
    var back := PeersBack(c, now, peers);
    forall p | p in back ensures p in m.Values {
      var i :| 0 <= i < |back| && back[i] == p;
      assert Present(peers[i], i < |peers|, i < |peers|, i < |peers|);
      assert m[peers[i].name] == p;
    }
    forall p | p in m.Values ensures p in back {
      var n :| n in m && m[n] == p;
      var i :| 0 <= i < |peers| && peers[i].name == n && Present(peers[i], i < |peers|, i < |peers|, i < |peers|);
      assert back[i] == p;
    }
  }

  /** A complete stage holds exactly the rows to recover. */
  lemma StageIsComplete<F(!new)>(c: Codec<F>, now: int, m: map<string, PeerOut<F>>, peers: seq<PeerMetric>)
    requires DistinctNames(peers) && Stage(c, now, m, peers, |peers|, |peers|, |peers|)
    requires forall n :: n in m ==> m[n].name == n
    ensures SortBy(MapValues(m), PeerByName) == SortBy(PeersBack(c, now, peers), PeerByName)
  {
    var back := PeersBack(c, now, peers);
    NoRepeatMultiset(back);
    MapValuesAreAll(m);
    StageHasRows(c, now, m, peers);
    PeersSortUniquely(MapValues(m), back);
  }

  lemma DiskStageHasRows<F(!new)>(m: map<string, DiskOut<F>>, disks: seq<DiskMetric<F>>)
    requires DiskStage(m, disks, |disks|)
    ensures (set p | p in DisksBack(disks)) == m.Values
  {
    var back := DisksBack(disks);
    forall p | p in back ensures p in m.Values {
      var i :| 0 <= i < |back| && back[i] == p;
      assert m[disks[i].mount] == p;
    }
    forall p | p in m.Values ensures p in back {
      var n :| n in m && m[n] == p;
      var i :| 0 <= i < |disks| && disks[i].mount == n;
      assert back[i] == p;
    }
  }

  lemma DiskStageIsComplete<F(!new)>(m: map<string, DiskOut<F>>, disks: seq<DiskMetric<F>>)
    requires DistinctMounts(disks) && DiskStage(m, disks, |disks|)
    requires forall n :: n in m ==> m[n].mount == n
    ensures SortBy(MapValues(m), DiskByMount) == SortBy(DisksBack(disks), DiskByMount)
  {
    var back := DisksBack(disks);
    NoRepeatMultiset(back);
    MapValuesAreAll(m);
    DiskStageHasRows(m, disks);
    assert multiset(back) == multiset(m.Values);
    DisksSortUniquely(MapValues(m), back);
  }

  /** Rows read from a map have distinct non-empty labels, so only such peers can come back. */
  lemma RecoveredNamesDistinct<F(!new)>(c: Codec<F>, now: int, m: map<string, PeerOut<F>>, peers: seq<PeerMetric>)
    requires forall n :: n in m ==> n != "" && m[n].name == n
    requires SortBy(MapValues(m), PeerByName) == SortBy(PeersBack(c, now, peers), PeerByName)
    ensures DistinctNames(peers)
  {
    var back := PeersBack(c, now, peers);
    SortPermutes<PeerOut<F>>(MapValues(m), PeerByName);
    SortPermutes<PeerOut<F>>(back, PeerByName);
    MapValuesAreAll(m);
    assert multiset(back) == multiset(m.Values);
    forall i | 0 <= i < |peers| ensures peers[i].name != "" {
      assert back[i] in multiset(back) && back[i] in m.Values;
    }
    forall i, j | 0 <= i < j < |peers| ensures peers[i].name != peers[j].name {
      assert back[i] in multiset(back) && back[j] in multiset(back);
      if peers[i].name == peers[j].name {
        assert back[i] == back[j];
        RepeatCountsTwice(back, i, j);
      }
    }
  }

  lemma RecoveredMountsDistinct<F(!new)>(m: map<string, DiskOut<F>>, disks: seq<DiskMetric<F>>)
    requires forall n :: n in m ==> n != "" && m[n].mount == n
    requires SortBy(MapValues(m), DiskByMount) == SortBy(DisksBack(disks), DiskByMount)
    ensures DistinctMounts(disks)
  {
    var back := DisksBack(disks);
    SortPermutes<DiskOut<F>>(MapValues(m), DiskByMount);
    SortPermutes<DiskOut<F>>(back, DiskByMount);
    MapValuesAreAll(m);
    assert multiset(back) == multiset(m.Values);
    forall i | 0 <= i < |disks| ensures disks[i].mount != "" {
      assert back[i] in multiset(back) && back[i] in m.Values;
    }
    forall i, j | 0 <= i < j < |disks| ensures disks[i].mount != disks[j].mount {
      assert back[i] in multiset(back) && back[j] in multiset(back);
      if disks[i].mount == disks[j].mount {
        assert back[i] == back[j];
        RepeatCountsTwice(back, i, j);
      }
    }
  }

  lemma OneItem<F>(c: Codec<F>, acc: Acc<F>, item: Item)
    ensures InterpretAll(c, acc, [item]) == Interpret(c, acc, item)
  {
    assert [item][..0] == [];
  }

  lemma {:induction false} InterpretConcat<F>(c: Codec<F>, acc: Acc<F>, a: seq<Item>, b: seq<Item>)
    ensures InterpretAll(c, acc, a + b) == InterpretAll(c, InterpretAll(c, acc, a), b)
    decreases |b|
  {
    if b == [] {
      assert a + b == a;
    } else {
      var init := b[..|b| - 1];
      InterpretConcat(c, acc, a, init);
      assert (a + b)[..|a + b| - 1] == a + init;
    }
  }

  /** A header and one unlabelled sample. */
  lemma HeaderAndSample<F>(c: Codec<F>, acc: Acc<F>, f: Family, item: Item)
    ensures InterpretAll(c, acc, Header(f) + [item]) == Interpret(c, acc, item)
  {
    InterpretConcat(c, acc, [Help(f)], [Type(f)]);
    assert [Help(f)] + [Type(f)] == Header(f);
    OneItem(c, acc, Help(f));
    OneItem(c, acc, Type(f));
    InterpretConcat(c, acc, Header(f), [item]);
    OneItem(c, acc, item);
  }

  lemma CountsBack<F(!new)>(c: Codec<F>, acc: Acc<F>, snap: Snapshot<F>)
    requires Faithful(c)
    ensures InterpretAll(c, acc, CountItems(c, snap))
         == acc.(peersTotal := c.truncate(c.toFloat(snap.peersTotal)),
                 peersOnline := c.truncate(c.toFloat(snap.peersOnline)))
  {
    var total := Header(PeersTotal) + [Series(PeersTotal, [], c.printInt(snap.peersTotal))];
    var online := Header(PeersOnline) + [Series(PeersOnline, [], c.printInt(snap.peersOnline))];
    assert CountItems(c, snap) == total + online;
    InterpretConcat(c, acc, total, online);
    HeaderAndSample(c, acc, PeersTotal, total[2]);
    HeaderAndSample(c, InterpretAll(c, acc, total), PeersOnline, online[2]);
    FloatOfInt(c, snap.peersTotal);
    FloatOfInt(c, snap.peersOnline);
  }

  lemma TopBack<F(!new)>(c: Codec<F>, acc: Acc<F>, snap: Snapshot<F>)
    requires Faithful(c) && acc.serviceActive.None?
    ensures InterpretAll(c, InterpretAll(c, acc, ServiceItems(c, snap)), CountItems(c, snap))
         == acc.(serviceActive := if snap.serviceKnown then Some(snap.serviceActive) else None,
                 peersTotal := c.truncate(c.toFloat(snap.peersTotal)),
                 peersOnline := c.truncate(c.toFloat(snap.peersOnline)))
  {
    var one := if snap.serviceActive then 1 else 0;
    var first := Series(Service, [], c.printInt(one));
    HeaderAndSample(c, acc, Service, first);
    FloatOfInt(c, one);
    var mid := InterpretAll(c, acc, ServiceItems(c, snap));
    assert mid == acc.(serviceActive := if snap.serviceKnown then Some(snap.serviceActive) else None);
    CountsBack(c, mid, snap);
  }

  lemma HostBack<F(!new)>(c: Codec<F>, acc: Acc<F>, snap: Snapshot<F>)
    requires Faithful(c) && acc.cpu.None? && acc.memory.None?
    ensures InterpretAll(c, acc, HostItems(c, snap))
         == acc.(cpu := if snap.cpuKnown then Some(snap.cpu) else None,
                 memory := if snap.memKnown then Some(snap.mem) else None)
  {
    var cpu := if !snap.cpuKnown then [] else Header(Cpu) + [Series(Cpu, [], c.printFloat(snap.cpu))];
    var mem := if !snap.memKnown then [] else Header(Memory) + [Series(Memory, [], c.printFloat(snap.mem))];
    InterpretConcat(c, acc, cpu, mem);
    if snap.cpuKnown { HeaderAndSample(c, acc, Cpu, cpu[2]); FloatOfFloat(c, snap.cpu); }
    if snap.memKnown { HeaderAndSample(c, InterpretAll(c, acc, cpu), Memory, mem[2]); FloatOfFloat(c, snap.mem); }
  }

  lemma BuildLabels(version: string, sha: string)
    ensures WithLabels(map[], [("version", version), ("sha", sha)]) == map["version" := version, "sha" := sha]
  {
    var labels := [("version", version), ("sha", sha)];
    assert labels[1..] == [("sha", sha)] && labels[1..][1..] == [];
    var m := map["version" := version];
    assert WithLabels(map[], labels) == WithLabels(m, labels[1..]);
    assert WithLabels(m, labels[1..]) == WithLabels(m["sha" := sha], []);
  }

  lemma AlertsBack<F(!new)>(c: Codec<F>, acc: Acc<F>, snap: Snapshot<F>)
    requires Faithful(c)
    ensures InterpretAll(c, acc, Header(ActiveAlerts) + [Series(ActiveAlerts, [], c.printInt(snap.activeAlerts))])
         == acc.(activeAlerts := c.truncate(c.toFloat(snap.activeAlerts)))
  {
    HeaderAndSample(c, acc, ActiveAlerts, Series(ActiveAlerts, [], c.printInt(snap.activeAlerts)));
    FloatOfInt(c, snap.activeAlerts);
  }

  lemma BuildBack<F(!new)>(c: Codec<F>, acc: Acc<F>, version: string, sha: string)
    ensures InterpretAll(c, acc, Header(BuildInfo) + [Series(BuildInfo, [("version", version), ("sha", sha)], "1")])
         == acc.(version := version, sha := sha)
  {
    var labels := [("version", version), ("sha", sha)];
    HeaderAndSample(c, acc, BuildInfo, Series(BuildInfo, labels, "1"));
    BuildLabels(version, sha);
    var m := WithLabels(map[], labels);
    assert LabelOr(m, "version") == version && LabelOr(m, "sha") == sha;
    assert Interpret(c, acc, Series(BuildInfo, labels, "1")) == ApplyFamily(c, acc, BuildInfo, m, "1");
  }

  lemma TailBack<F(!new)>(c: Codec<F>, acc: Acc<F>, snap: Snapshot<F>)
    requires Faithful(c)
    ensures InterpretAll(c, acc, TailItems(c, snap))
         == acc.(activeAlerts := c.truncate(c.toFloat(snap.activeAlerts)), version := snap.version, sha := snap.sha)
  {
    var alerts := Header(ActiveAlerts) + [Series(ActiveAlerts, [], c.printInt(snap.activeAlerts))];
    var labels := [("version", snap.version), ("sha", snap.sha)];
    var build := Header(BuildInfo) + [Series(BuildInfo, labels, "1")];
    assert TailItems(c, snap) == alerts + build;
    InterpretConcat(c, acc, alerts, build);
    AlertsBack(c, acc, snap);
    BuildBack(c, InterpretAll(c, acc, alerts), snap.version, snap.sha);
  }
}
