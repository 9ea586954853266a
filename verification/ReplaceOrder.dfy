/** When ReplaceClients commits, and with what, over every map iteration order. */
module ReplaceOrder {
  import opened Types
  import opened ClientTable

  /** The surviving key k wants a name or an address that another survivor j still holds. */
  ghost predicate DependsOn(t: Rows, want: Rows, k: string, j: string) {
    && k != j && k in t && k in want && j in t && j in want
    && (want[k].name == t[j].name || want[k].address == t[j].address)
  }

  /** No key is updated before one it depends on. */
  ghost predicate Respects(t: Rows, want: Rows, order: seq<string>) {
    forall i, j :: 0 <= i < j < |order| ==> !DependsOn(t, want, order[i], order[j])
  }

  function Elems(order: seq<string>): set<string> { set k | k in order }

  /** A surviving row once its turn in the update loop is over. */
  function Settled(was: Client, next: Client): Client {
    if Same(was, next) then was else Overwrite(was, next)
  }

  lemma {:induction false} DeletesLeaveSurvivors(cur: Rows, want: Rows, order: seq<string>)
    ensures RunDeletes(cur, want, order) == cur - (Elems(order) - want.Keys)
  {
    if order != [] {
      var next := if order[0] in want then cur else cur - {order[0]};
      DeletesLeaveSurvivors(next, want, order[1..]);
      assert Elems(order) == {order[0]} + Elems(order[1..]);
    }
  }

  /** The table between two updates: survivors in `done` are settled, the others untouched. */
  ghost predicate Between(cur: Rows, t: Rows, want: Rows, done: set<string>) {
    && cur.Keys == t.Keys * want.Keys
    && forall k :: k in cur ==> cur[k] == if k in done then Settled(t[k], want[k]) else t[k]
  }

  ghost predicate Pending(want: Rows, done: set<string>, order: seq<string>) {
    IsOrder(order, want.Keys - done)
  }

  lemma {:induction false} OrderTail(order: seq<string>, keys: set<string>)
    requires IsOrder(order, keys) && order != []
    ensures order[0] in keys && order[0] !in order[1..]
    ensures IsOrder(order[1..], keys - {order[0]})
  {
    assert order == [order[0]] + order[1..];
    assert order[0] in order;
  }

  lemma PendingTail(want: Rows, done: set<string>, order: seq<string>)
    requires Pending(want, done, order) && order != []
    ensures order[0] in want && order[0] !in done
    ensures Pending(want, done + {order[0]}, order[1..])
  {
    OrderTail(order, want.Keys - done);
    assert want.Keys - done - {order[0]} == want.Keys - (done + {order[0]});
  }

  /** One turn of the update loop either fails or settles its row. */
  lemma TurnSettles(cur: Rows, t: Rows, want: Rows, done: set<string>, k: string)
    requires Between(cur, t, want, done) && Keyed(t) && Keyed(want) && k !in done && k in want
    ensures var r := UpdateTurn(cur, t, want, k); r.Some? ==> Between(r.value, t, want, done + {k})
  {
  }

  lemma TurnKeepsInjective(cur: Rows, t: Rows, want: Rows, k: string)
    requires Injective(cur) && Keyed(want)
    ensures var r := UpdateTurn(cur, t, want, k); r.Some? ==> Injective(r.value)
  {
  }

  lemma {:induction false} UpdatesSettle(cur: Rows, t: Rows, want: Rows, done: set<string>, order: seq<string>)
    requires Between(cur, t, want, done) && Keyed(t) && Keyed(want) && Pending(want, done, order)
    ensures var r := RunUpdates(cur, t, want, order); r.Some? ==> Between(r.value, t, want, want.Keys)
    decreases |order|
  {
    if order == [] {
      forall k | k in want ensures k in done { assert k !in order; }
    } else {
      PendingTail(want, done, order);
      TurnSettles(cur, t, want, done, order[0]);
      var next := UpdateTurn(cur, t, want, order[0]);
      if next.Some? {
        UpdatesSettle(next.value, t, want, done + {order[0]}, order[1..]);
      }
    }
  }

  lemma {:induction false} UpdatesKeepInjective(cur: Rows, t: Rows, want: Rows, order: seq<string>)
    requires Injective(cur) && Keyed(want)
    ensures var r := RunUpdates(cur, t, want, order); r.Some? ==> Injective(r.value)
    decreases |order|
  {
    if order != [] {
      TurnKeepsInjective(cur, t, want, order[0]);
      var next := UpdateTurn(cur, t, want, order[0]);
      if next.Some? {
        UpdatesKeepInjective(next.value, t, want, order[1..]);
      }
    }
  }

  lemma BlockersArePending(cur: Rows, t: Rows, want: Rows, done: set<string>, order: seq<string>)
    requires Between(cur, t, want, done) && Injective(want)
    requires Pending(want, done, order) && order != [] && order[0] in t && order[0] in want
    ensures Taken(cur, order[0], want[order[0]].name, want[order[0]].address)
       <==> exists j :: j in order[1..] && DependsOn(t, want, order[0], j)
  {
    var k := order[0];
    PendingTail(want, done, order);
    forall j | j in cur && j != k
      ensures (cur[j].name == want[k].name || cur[j].address == want[k].address) <==>
              j in order[1..] && DependsOn(t, want, k, j)
    {
    }
  }

  /** With an injective want-set, a turn succeeds exactly when no pending key blocks it. */
  lemma TurnBlockedBy(cur: Rows, t: Rows, want: Rows, done: set<string>, order: seq<string>)
    requires Between(cur, t, want, done) && Keyed(want) && Injective(t) && Injective(want)
    requires Pending(want, done, order) && order != []
    ensures UpdateTurn(cur, t, want, order[0]).Some? <==>
            forall j :: j in order[1..] ==> !DependsOn(t, want, order[0], j)
  {
    var k := order[0];
    PendingTail(want, done, order);
    if k in t && !Same(t[k], want[k]) {
      BlockersArePending(cur, t, want, done, order);
    }
  }

  lemma RespectsSplit(t: Rows, want: Rows, order: seq<string>)
    requires order != []
    ensures Respects(t, want, order) <==>
            Respects(t, want, order[1..]) && forall j :: j in order[1..] ==> !DependsOn(t, want, order[0], j)
  {
    var rest := order[1..];
    assert forall i :: 0 <= i < |rest| ==> rest[i] == order[i + 1];
    if Respects(t, want, order) {
      forall j | j in rest ensures !DependsOn(t, want, order[0], j) {
        var i :| 0 <= i < |rest| && rest[i] == j;
        assert order[i + 1] == j;
      }
    }
    if Respects(t, want, rest) && (forall j :: j in rest ==> !DependsOn(t, want, order[0], j)) {
      forall i, j | 0 <= i < j < |order| ensures !DependsOn(t, want, order[i], order[j]) {
        assert order[j] == rest[j - 1];
        if i > 0 { assert order[i] == rest[i - 1]; }
      }
    }
  }

  lemma {:induction false} UpdatesSucceedIff(cur: Rows, t: Rows, want: Rows, done: set<string>, order: seq<string>)
    requires Between(cur, t, want, done) && Keyed(t) && Keyed(want) && Injective(t) && Injective(want)
    requires Pending(want, done, order)
    ensures RunUpdates(cur, t, want, order).Some? <==> Respects(t, want, order)
    decreases |order|
  {
    if order != [] {
      PendingTail(want, done, order);
      TurnSettles(cur, t, want, done, order[0]);
      RespectsSplit(t, want, order);
      TurnBlockedBy(cur, t, want, done, order);
      var next := UpdateTurn(cur, t, want, order[0]);
      if next.Some? {
        UpdatesSucceedIff(next.value, t, want, done + {order[0]}, order[1..]);
      }
    }
  }

  /** A survivor: its own id, key and created_at, the wanted values, and a new updated_at exactly if
      one of those values is new. */
  ghost predicate Survives(was: Client, next: Client, r: Client) {
    && r.id == was.id && r.publicKey == was.publicKey && r.createdAt == was.createdAt
    && r.name == next.name && r.address == next.address && r.enabled == next.enabled && r.note == next.note
    && r.updatedAt ==
       if was.name == next.name && was.address == next.address && was.enabled == next.enabled && was.note == next.note
       then was.updatedAt else next.updatedAt
  }

  /** What the committed row for a wanted key looks like. */
  ghost predicate RowExact(t: Table, want: Rows, k: string, r: Client)
    requires k in want
  {
    if k in t.rows then Survives(t.rows[k], want[k], r)
    else r == want[k].(id := r.id) && t.nextId <= r.id
  }

  lemma SettledSurvives(was: Client, next: Client)
    requires was.publicKey == next.publicKey
    ensures Survives(was, next, Settled(was, next))
  {
  }

  /** The table between two inserts: a part of the final table. */
  ghost predicate Filling(cur: Table, t: Table, want: Rows, order: seq<string>) {
    && cur.nextId >= t.nextId
    && (forall j, k :: j in cur.rows && k in cur.rows && j != k ==> cur.rows[j].id != cur.rows[k].id)
    && (forall k :: k in cur.rows ==> k in want && cur.rows[k].id < cur.nextId && RowExact(t, want, k, cur.rows[k]))
    && (forall k :: k in want ==> (k in cur.rows <==> k in t.rows || k !in order))
  }

  lemma RowExactHolds(t: Table, want: Rows, k: string, r: Client)
    requires k in want && RowExact(t, want, k, r)
    ensures r.name == want[k].name && r.address == want[k].address
    ensures r.enabled == want[k].enabled && r.note == want[k].note
  {
  }

  lemma InsertFills(cur: Table, t: Table, want: Rows, order: seq<string>)
    requires Filling(cur, t, want, order) && Keyed(want) && order != []
    requires order[0] in want && order[0] !in order[1..]
    ensures var r := InsertTurn(cur, t.rows, want, order[0]);
            r.Some? ==> Filling(r.value, t, want, order[1..])
  {
    assert forall j :: j in order <==> j == order[0] || j in order[1..];
  }

  lemma InsertFits(cur: Table, t: Table, want: Rows, order: seq<string>)
    requires Filling(cur, t, want, order) && Keyed(want) && order != []
    requires order[0] in want
    requires Injective(want)
    ensures InsertTurn(cur, t.rows, want, order[0]).Some?
  {
    assert order[0] in order;
    forall j | j in cur.rows ensures cur.rows[j].name == want[j].name && cur.rows[j].address == want[j].address {
      RowExactHolds(t, want, j, cur.rows[j]);
    }
  }

  ghost predicate ToInsert(want: Rows, order: seq<string>) {
    && (forall i, j :: 0 <= i < j < |order| ==> order[i] != order[j])
    && (forall k :: k in order ==> k in want)
  }

  lemma ToInsertTail(want: Rows, order: seq<string>)
    requires ToInsert(want, order) && order != []
    ensures order[0] in want && order[0] !in order[1..] && ToInsert(want, order[1..])
  {
    assert forall j :: j in order[1..] ==> j in order;
  }

  lemma {:induction false} InsertsFill(cur: Table, t: Table, want: Rows, order: seq<string>)
    requires Filling(cur, t, want, order) && Keyed(want) && ToInsert(want, order)
    ensures var r := RunInserts(cur, t.rows, want, order);
            && (r.Some? ==> Filling(r.value, t, want, []))
            && (Injective(want) ==> r.Some?)
    decreases |order|
  {
    if order != [] {
      ToInsertTail(want, order);
      InsertFills(cur, t, want, order);
      if Injective(want) { InsertFits(cur, t, want, order); }
      var next := InsertTurn(cur, t.rows, want, order[0]);
      if next.Some? {
        InsertsFill(next.value, t, want, order[1..]);
      }
    }
  }

  lemma {:induction false} InsertsKeepInjective(cur: Table, t: Rows, want: Rows, order: seq<string>)
    requires Injective(cur.rows) && Keyed(want)
    ensures var r := RunInserts(cur, t, want, order); r.Some? ==> Injective(r.value.rows)
    decreases |order|
  {
    if order != [] {
      var next := InsertTurn(cur, t, want, order[0]);
      if next.Some? {
        InsertsKeepInjective(next.value, t, want, order[1..]);
      }
    }
  }

  /** The committed table: exactly the wanted keys, every row exact, ids still unique. */
  ghost predicate Exact(t: Table, want: Rows, r: Table) {
    && r.rows.Keys == want.Keys
    && (forall k :: k in want ==> RowExact(t, want, k, r.rows[k]))
    && ValidTable(r)
  }

  /** What the three loops establish in turn, for any order. */
  lemma PhasesOf(t: Table, want: Rows, o: Orders)
    requires ValidTable(t) && Keyed(want) && ValidOrders(o, t.rows, want)
    ensures var start := RunDeletes(t.rows, want, o.deletes);
            var updated := RunUpdates(start, t.rows, want, o.updates);
            && Between(start, t.rows, want, {}) && Pending(want, {}, o.updates)
            && (updated.Some? ==>
                  && Between(updated.value, t.rows, want, want.Keys)
                  && Injective(updated.value))
  {
    DeletesLeaveSurvivors(t.rows, want, o.deletes);
    var start := RunDeletes(t.rows, want, o.deletes);
    assert want.Keys - {} == want.Keys;
    assert Between(start, t.rows, want, {});
    UpdatesSettle(start, t.rows, want, {}, o.updates);
    UpdatesKeepInjective(start, t.rows, want, o.updates);
  }

  lemma SettledIsFilling(t: Table, want: Rows, updated: Rows, order: seq<string>)
    requires ValidTable(t) && Keyed(want) && IsOrder(order, want.Keys)
    requires Between(updated, t.rows, want, want.Keys)
    ensures Filling(Table(updated, t.nextId), t, want, order)
  {
    forall k | k in t.rows && k in want ensures Survives(t.rows[k], want[k], Settled(t.rows[k], want[k])) {
      SettledSurvives(t.rows[k], want[k]);
    }
  }

  lemma ExactFromFilled(t: Table, want: Rows, r: Table)
    requires ValidTable(t) && Keyed(want) && Filling(r, t, want, []) && Injective(r.rows)
    ensures Exact(t, want, r) && Injective(want)
  {
    forall k | k in want
      ensures k in r.rows && r.rows[k].name == want[k].name && r.rows[k].address == want[k].address
      ensures r.rows[k].publicKey == k
    {
      RowExactHolds(t, want, k, r.rows[k]);
    }
  }

  lemma InsertPhase(t: Table, want: Rows, updated: Rows, order: seq<string>)
    requires ValidTable(t) && Keyed(want) && IsOrder(order, want.Keys)
    requires Between(updated, t.rows, want, want.Keys) && Injective(updated)
    ensures var r := RunInserts(Table(updated, t.nextId), t.rows, want, order);
            && (r.Some? ==> Exact(t, want, r.value) && Injective(want))
            && (Injective(want) ==> r.Some?)
  {
    var cur := Table(updated, t.nextId);
    SettledIsFilling(t, want, updated, order);
    InsertsFill(cur, t, want, order);
    InsertsKeepInjective(cur, t.rows, want, order);
    var r := RunInserts(cur, t.rows, want, order);
    if r.Some? {
      ExactFromFilled(t, want, r.value);
    }
  }

  /** Whatever the order, a commit leaves exactly the wanted rows: survivors keep id and
      created_at (and updated_at when nothing changed), newcomers get fresh ids. */
  lemma ReplaceIsExact(t: Table, want: Rows, o: Orders)
    requires ValidTable(t) && Keyed(want) && ValidOrders(o, t.rows, want)
    ensures var r := Replace(t, want, o); r.Some? ==> Exact(t, want, r.value)
  {
    PhasesOf(t, want, o);
    var updated := RunUpdates(RunDeletes(t.rows, want, o.deletes), t.rows, want, o.updates);
    if updated.Some? {
      InsertPhase(t, want, updated.value, o.inserts);
    }
  }

  /** ReplaceClients commits exactly when the want-set is free of duplicate names and
      addresses and the update order never puts a row before one whose value it takes. */
  lemma ReplaceCommitsIff(t: Table, want: Rows, o: Orders)
    requires ValidTable(t) && Keyed(want) && ValidOrders(o, t.rows, want)
    ensures Replace(t, want, o).Some? <==> Injective(want) && Respects(t.rows, want, o.updates)
  {
    PhasesOf(t, want, o);
    var start := RunDeletes(t.rows, want, o.deletes);
    var updated := RunUpdates(start, t.rows, want, o.updates);
    if updated.Some? {
      InsertPhase(t, want, updated.value, o.inserts);
    }
    if Injective(want) {
      UpdatesSucceedIff(start, t.rows, want, {}, o.updates);
    }
  }

  ghost predicate Free(t: Rows, want: Rows, k: string, s: set<string>) {
    forall j :: j in s ==> !DependsOn(t, want, k, j)
  }

  /** No group of keys waits on itself: each has a member that depends on none of the others. */
  ghost predicate Acyclic(t: Rows, want: Rows, keys: set<string>) {
    forall s: set<string> :: s <= keys && s != {} ==> exists k :: k in s && Free(t, want, k, s)
  }

  lemma AcyclicSubset(t: Rows, want: Rows, keys: set<string>, fewer: set<string>)
    requires Acyclic(t, want, keys) && fewer <= keys
    ensures Acyclic(t, want, fewer)
  {
    forall s: set<string> | s <= fewer && s != {} ensures exists k :: k in s && Free(t, want, k, s) {
      assert s <= keys;
    }
  }

  lemma {:induction false} OrderWhenAcyclic(t: Rows, want: Rows, keys: set<string>) returns (order: seq<string>)
    requires Acyclic(t, want, keys)
    ensures IsOrder(order, keys) && Respects(t, want, order)
  {
    if keys == {} {
      order := [];
    } else {
      assert keys <= keys;
      var k :| k in keys && Free(t, want, k, keys);
      AcyclicSubset(t, want, keys, keys - {k});
      var rest := OrderWhenAcyclic(t, want, keys - {k});
      order := [k] + rest;
      assert order[1..] == rest;
      RespectsSplit(t, want, order);
    }
  }

  lemma {:induction false} FirstOf(order: seq<string>, s: set<string>) returns (k: string)
    requires s != {} && forall j :: j in s ==> j in order
    ensures k in s
    ensures forall t, want :: Respects(t, want, order) ==> Free(t, want, k, s)
  {
    if order[0] in s {
      k := order[0];
      forall t, want | Respects(t, want, order) ensures Free(t, want, k, s) {
        RespectsSplit(t, want, order);
        assert forall j :: j in s ==> j == k || j in order[1..];
      }
    } else {
      k := FirstOf(order[1..], s);
      forall t, want | Respects(t, want, order) ensures Free(t, want, k, s) {
        RespectsSplit(t, want, order);
      }
    }
  }

  lemma AcyclicWhenOrdered(t: Rows, want: Rows, order: seq<string>, keys: set<string>)
    requires IsOrder(order, keys) && Respects(t, want, order)
    ensures Acyclic(t, want, keys)
  {
    forall s: set<string> | s <= keys && s != {} ensures exists k :: k in s && Free(t, want, k, s) {
      var k := FirstOf(order, s);
    }
  }

  lemma {:induction false} AnyOrder(keys: set<string>) returns (order: seq<string>)
    ensures IsOrder(order, keys)
  {
    if keys == {} {
      order := [];
    } else {
      var k :| k in keys;
      var rest := AnyOrder(keys - {k});
      order := [k] + rest;
    }
  }

  /** Some iteration order commits exactly when the dependencies have no cycle. */
  lemma SomeOrderCommitsIff(t: Table, want: Rows)
    requires ValidTable(t) && Keyed(want)
    ensures (exists o :: ValidOrders(o, t.rows, want) && Replace(t, want, o).Some?)
       <==> Injective(want) && Acyclic(t.rows, want, want.Keys)
  {
    if o :| ValidOrders(o, t.rows, want) && Replace(t, want, o).Some? {
      ReplaceCommitsIff(t, want, o);
      AcyclicWhenOrdered(t.rows, want, o.updates, want.Keys);
    }
    if Injective(want) && Acyclic(t.rows, want, want.Keys) {
      var updates := OrderWhenAcyclic(t.rows, want, want.Keys);
      var deletes := AnyOrder(t.rows.Keys);
      var o := Orders(deletes, updates, updates);
      ReplaceCommitsIff(t, want, o);
      assert ValidOrders(o, t.rows, want) && Replace(t, want, o).Some?;
    }
  }

  /** Two survivors trading addresses fail in every order, deletes-first notwithstanding. */
  lemma SwapNeverCommits(t: Table, want: Rows, j: string, k: string, o: Orders)
    requires ValidTable(t) && Keyed(want) && ValidOrders(o, t.rows, want)
    requires j != k && j in t.rows && k in t.rows && j in want && k in want
    requires want[j].address == t.rows[k].address && want[k].address == t.rows[j].address
    ensures Replace(t, want, o).None?
  {
    ReplaceCommitsIff(t, want, o);
    assert DependsOn(t.rows, want, j, k) && DependsOn(t.rows, want, k, j);
    assert j in o.updates && k in o.updates;
  }
}
