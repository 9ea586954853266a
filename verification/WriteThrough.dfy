/** Recovery: once the store answers again, the next write-through brings it back into agreement. */
module WriteThrough {
  import opened Wrappers
  import opened Alloc
  import opened Types
  import opened Validate
  import opened ClientTable
  import opened Listing
  import opened Rendering
  import opened PeerService
  import opened PeerConvergence
  import opened BootMachine

  /** The operations that change what the store carries. */
  predicate Canonically(op: Op) {
    op.AddOp? || op.ReplaceOp? || op.DeleteOp? || (op.UpdateOp? && op.update.Canonical())
  }

  /** The store would take a write: it is armed or answers the probe, and the save goes through. */
  predicate StoreAnswers(s: State, w: World) {
    s.backend.S3? && (s.ready || !w.load.LoadFailed?) && w.save.Saved? && SaveList !in w.faults
  }

  lemma AnsweredWriteAgrees(s: State, t: Option<Table>, w: World)
    requires StoreAnswers(s, w)
    ensures var (r, e) := WriteThenFinish(s, t, w, true); e.None? ==> Agrees(r)
  {
  }

  lemma UpdateAtAgrees(sn: ServerNet, s: State, k: string, p: UpdateParams, w: World)
    requires sn.Valid() && k in s.table.rows && p.Canonical() && StoreAnswers(s, w)
    ensures var (t, r) := UpdateAt(sn, s, k, p, w); r.Success? ==> Agrees(t)
  {
    var plan := PlanUpdate(sn, List(s.table.rows), s.table.rows[k], p, w.now);
    if plan.Success? { AnsweredWriteAgrees(s, UpdateTable(s.table, k, plan.value), w); }
  }

  lemma UpdateAgrees(sn: ServerNet, s: State, name: string, p: UpdateParams, w: World)
    requires sn.Valid() && p.Canonical() && StoreAnswers(s, w)
    ensures var (t, r) := Update(sn, s, name, p, w); r.Success? ==> Agrees(t)
  {
    forall k | HasName(s.table.rows, k, name) { UpdateAtAgrees(sn, s, k, p, w); }
  }

  lemma AddAgrees(s: State, plan: Result<Client, Error>, w: World)
    requires StoreAnswers(s, w)
    ensures var (t, r) := AddPlanned(s, plan, w); r.Success? ==> Agrees(t)
  {
    if plan.Success? { AnsweredWriteAgrees(s, InsertRow(s.table, plan.value), w); }
  }

  lemma ReplaceAgrees(sn: ServerNet, s: State, es: seq<Entry>, w: World)
    requires sn.Valid() && StoreAnswers(s, w)
    ensures var (t, e) := ReplaceAll(sn, s, es, w); e.None? ==> Agrees(t)
  {
    AnsweredWriteAgrees(s, Replace(s.table, WantByKey(Wanted(es, w.now)), w.orders), w);
  }

  /** Whatever state earlier failures left behind, one successful canonical mutation with a store
      that answers makes the store equal to the canonical table. */
  lemma CanonicalWriteAgrees(sn: ServerNet, s: State, op: Op, w: World)
    requires sn.Valid() && Canonically(op) && StoreAnswers(s, w)
    ensures var (t, ok) := Step(sn, s, op, w); ok ==> Agrees(t)
  {
    match op
    case AddOp(p) => AddAgrees(s, AdmitAdd(sn, List(s.table.rows), p, w), w);
    case UpdateOp(n, p) => UpdateAgrees(sn, s, n, p, w);
    case ReplaceOp(es) => ReplaceAgrees(sn, s, es, w);
    case DeleteOp(n) => AnsweredWriteAgrees(s, Some(s.table.(rows := DeleteByName(s.table.rows, n))), w);
  }

  /** A hard error does not latch for ever: in every reachable state after boot, one recheck
      that gets an answer arms the latch, and the next successful canonical mutation whose save
      goes through leaves store and table in agreement. */
  lemma LatchRecovers(sn: ServerNet, seed: seq<Entry>, m: Machine, poll: World, op: Op, w: World)
    requires sn.Valid() && Guarded(m) && m.pc.Booted? && !poll.load.LoadFailed?
    requires Canonically(op) && w.save.Saved? && SaveList !in w.faults
    ensures var m1 := Next(sn, seed, m, Poll(poll));
            && m1.s.ready && m1.pc == m.pc && m1.s.table == m.s.table && m1.s.backend == m.s.backend
            && (Step(sn, m1.s, op, w).1 ==> Agrees(Next(sn, seed, m1, Serve(op, w)).s))
  {
    var m1 := Next(sn, seed, m, Poll(poll));
    CanonicalWriteAgrees(sn, m1.s, op, w);
  }

  /** What the recheck does not distinguish: when boot refuses an invalid non-empty list, the same
      recheck arms the latch, and the next canonical mutation overwrites that list. */
  lemma RefusedListIsOverwritten(sn: ServerNet, seed: seq<Entry>, m: Machine, es: seq<Entry>,
                                 w1: World, w2: World, poll: World, op: Op, w: World)
    requires sn.Valid() && Guarded(m) && m.pc == ReplacePending(es) && !ValidSet(sn, es)
    requires !poll.load.LoadFailed? && Canonically(op) && w.save.Saved? && SaveList !in w.faults
    ensures var refused := Next(sn, seed, Next(sn, seed, m, Boot(w1)), Boot(w2));
            var armed := Next(sn, seed, refused, Poll(poll));
            && refused.pc == Booted(false) && !refused.s.ready && refused.s.table == m.s.table
            && armed.s.ready
            && (Step(sn, armed.s, op, w).1 ==> Agrees(Next(sn, seed, armed, Serve(op, w)).s))
  {
    assert ReplaceAll(sn, m.s, es, w1) == (m.s, Some(InvalidSet));
    var latch := BootStep(sn, seed, m, w1);
    assert latch == Machine(Latch(false), m.s);
    var refused := BootStep(sn, seed, latch, w2);
    LatchRecovers(sn, seed, refused, poll, op, w);
  }

  /** Every row has an address the service itself would accept. */
  predicate AddressesValid(sn: ServerNet, rows: Rows)
    requires sn.Valid()
  {
    forall k :: k in rows ==> ValidAddress(sn, rows[k].address)
  }

  lemma ValidAddressesRankApart(sn: ServerNet, a: string, b: string)
    requires sn.Valid() && ValidAddress(sn, a) && ValidAddress(sn, b) && SameRank(a, b)
    ensures a == b
  {
    ValidAddressIsCanonical(sn, a);
    ValidAddressIsCanonical(sn, b);
  }

  lemma DropOne<T>(s: seq<T>, i: nat)
    requires i < |s|
    ensures multiset(s) == multiset(s[..i] + s[i + 1..]) + multiset{s[i]}
  {
    assert s == s[..i] + [s[i]] + s[i + 1..];
  }

  lemma RestsPermute<T>(a: seq<T>, b: seq<T>) returns (i: nat)
    requires multiset(a) == multiset(b) && a != []
    ensures i < |b| && b[i] == a[0] && multiset(a[1..]) == multiset(b[..i] + b[i + 1..])
  {
    assert a[0] in multiset(b);
    i :| 0 <= i < |b| && b[i] == a[0];
    DropOne(b, i);
    assert a == [a[0]] + a[1..];
    assert multiset(a[1..]) == multiset(a) - multiset{a[0]};
  }

  lemma PeersWithoutOne(s: seq<Client>, i: nat)
    requires i < |s|
    ensures multiset(ToPeers(s)) == multiset(ToPeers(s[..i] + s[i + 1..])) + multiset{ToPeer(s[i])}
  {
    assert ToPeers(s)[..i] + ToPeers(s)[i + 1..] == ToPeers(s[..i] + s[i + 1..]);
    DropOne(ToPeers(s), i);
  }

  lemma PeersHead(s: seq<Client>)
    requires s != []
    ensures multiset(ToPeers(s)) == multiset(ToPeers(s[1..])) + multiset{ToPeer(s[0])}
  {
    assert ToPeers(s) == [ToPeer(s[0])] + ToPeers(s[1..]);
  }

  lemma PeersRejoin(a: seq<Client>, b: seq<Client>, i: nat)
    requires a != [] && i < |b| && b[i] == a[0]
    requires multiset(ToPeers(a[1..])) == multiset(ToPeers(b[..i] + b[i + 1..]))
    ensures multiset(ToPeers(a)) == multiset(ToPeers(b))
  {
    PeersWithoutOne(b, i);
    PeersHead(a);
  }

  lemma {:induction false} PeersPermute(a: seq<Client>, b: seq<Client>)
    requires multiset(a) == multiset(b)
    ensures multiset(ToPeers(a)) == multiset(ToPeers(b))
    decreases |a|
  {
    if a == [] {
      assert b == [] by { assert |multiset(a)| == |multiset(b)|; }
    } else {
      var i := RestsPermute(a, b);
      PeersPermute(a[1..], b[..i] + b[i + 1..]);
      PeersRejoin(a, b, i);
    }
  }

  /** A table of valid addresses has one rendering: any arrangement of its rows gives the bytes
      that the live interface converges to. */
  lemma TableRendersCanonically(sn: ServerNet, rows: Rows, arranged: seq<Client>)
    requires sn.Valid() && Keyed(rows) && Injective(rows) && AddressesValid(sn, rows)
    requires multiset(arranged) == multiset(List(rows))
    ensures RenderList(arranged) == Render(rows)
  {
    var list := List(rows);
    ListHasRows(rows);
    ListHasNoRepeats(rows);
    forall i, j | 0 <= i < j < |list| ensures !SameRank(list[i].address, list[j].address) {
      assert list[i] in list && list[j] in list;
      if SameRank(list[i].address, list[j].address) {
        ValidAddressesRankApart(sn, list[i].address, list[j].address);
      }
    }
    PeersPermute(list, arranged);
    RenderingIsCanonical(ToPeers(list), ToPeers(arranged));
  }
}
