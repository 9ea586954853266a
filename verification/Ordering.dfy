/** Byte-wise string order and the sort that Go's sort.Slice and SQL's ORDER BY stand for. */
module Ordering {

  /** Go's `<` on strings: compares byte by byte, a proper prefix first. */
  predicate Less(a: string, b: string) {
    if b == "" then false
    else if a == "" then true
    else a[0] < b[0] || (a[0] == b[0] && Less(a[1..], b[1..]))
  }

  lemma {:induction false} LessTrichotomy(a: string, b: string)
    ensures Less(a, b) || a == b || Less(b, a)
    ensures !(Less(a, b) && Less(b, a))
    ensures !Less(a, a)
  {
    if a == "" || b == "" {
      if a != "" { LessTrichotomy(a[1..], a[1..]); }
    } else {
      LessTrichotomy(a[1..], b[1..]);
      LessTrichotomy(a[1..], a[1..]);
      if a[0] == b[0] && a[1..] == b[1..] {
        assert a == [a[0]] + a[1..] && b == [b[0]] + b[1..];
      }
    }
  }

  /** Ascending byte order, written out: a is a proper prefix of b, or at the first byte in which
      they differ a's is the smaller. */
  ghost predicate BytesBefore(a: string, b: string) {
    exists n :: DiffersFrom(a, b, n)
  }

  ghost predicate DiffersFrom(a: string, b: string, n: nat) {
    n <= |a| && n < |b| && a[..n] == b[..n] && (n < |a| ==> a[n] < b[n])
  }

  lemma HeadsEqual(a: string, b: string, n: nat)
    requires DiffersFrom(a, b, n) && n > 0
    ensures a != "" && b != "" && a[0] == b[0]
  {
    assert a[0] == a[..n][0] && b[0] == b[..n][0];
  }

  lemma DiffersOneLater(a: string, b: string, n: nat)
    requires a != "" && b != "" && a[0] == b[0]
    ensures DiffersFrom(a, b, n + 1) <==> DiffersFrom(a[1..], b[1..], n)
  {
    if n + 1 <= |a| && n + 1 < |b| {
      assert a[..n + 1] == [a[0]] + a[1..][..n] && b[..n + 1] == [b[0]] + b[1..][..n];
      assert a[..n + 1][1..] == a[1..][..n] && b[..n + 1][1..] == b[1..][..n];
    }
  }

  /** Less is ascending byte order. */
  lemma {:induction false} LessIsByteOrder(a: string, b: string)
    ensures Less(a, b) <==> BytesBefore(a, b)
    decreases |a|
  {
    forall n: nat | DiffersFrom(a, b, n) && n > 0 ensures a != "" && b != "" && a[0] == b[0] { HeadsEqual(a, b, n); }
    if a == "" || b == "" || a[0] != b[0] {
      if b != "" && (a == "" || a[0] < b[0]) { assert DiffersFrom(a, b, 0); }
    } else {
      LessIsByteOrder(a[1..], b[1..]);
      if n: nat :| DiffersFrom(a[1..], b[1..], n) { DiffersOneLater(a, b, n); }
      if n: nat :| DiffersFrom(a, b, n) { DiffersOneLater(a, b, n - 1); }
    }
  }

  lemma {:induction false} LessTransitive(a: string, b: string, c: string)
    requires Less(a, b) && Less(b, c)
    ensures Less(a, c)
  {
    if a != "" && a[0] == b[0] == c[0] {
      LessTransitive(a[1..], b[1..], c[1..]);
    }
  }

  ghost predicate TotalPreorder<T(!new)>(leq: (T, T) -> bool) {
    && (forall x, y :: leq(x, y) || leq(y, x))
    && (forall x, y, z :: leq(x, y) && leq(y, z) ==> leq(x, z))
  }

  ghost predicate Sorted<T>(s: seq<T>, leq: (T, T) -> bool) {
    forall i, j :: 0 <= i < j < |s| ==> leq(s[i], s[j])
  }

  function Insert<T>(x: T, s: seq<T>, leq: (T, T) -> bool): seq<T> {
    if s == [] then [x]
    else if leq(x, s[0]) then [x] + s
    else [s[0]] + Insert(x, s[1..], leq)
  }

  /** A stable sort. */
  function SortBy<T>(s: seq<T>, leq: (T, T) -> bool): seq<T> {
    if s == [] then [] else Insert(s[0], SortBy(s[1..], leq), leq)
  }

  lemma {:induction false} InsertPermutes<T>(x: T, s: seq<T>, leq: (T, T) -> bool)
    ensures multiset(Insert(x, s, leq)) == multiset{x} + multiset(s)
  {
    if s != [] && !leq(x, s[0]) {
      InsertPermutes(x, s[1..], leq);
      assert s == [s[0]] + s[1..];
    }
  }

  lemma {:induction false} SortPermutes<T>(s: seq<T>, leq: (T, T) -> bool)
    ensures multiset(SortBy(s, leq)) == multiset(s)
    ensures |SortBy(s, leq)| == |s|
  {
    if s != [] {
      SortPermutes(s[1..], leq);
      InsertPermutes(s[0], SortBy(s[1..], leq), leq);
      assert s == [s[0]] + s[1..];
    }
    assert |multiset(SortBy(s, leq))| == |SortBy(s, leq)|;
  }

  lemma {:induction false} InsertSorted<T(!new)>(x: T, s: seq<T>, leq: (T, T) -> bool)
    requires TotalPreorder(leq) && Sorted(s, leq)
    ensures Sorted(Insert(x, s, leq), leq)
  {
    if s != [] && !leq(x, s[0]) {
      var rest := Insert(x, s[1..], leq);
      InsertSorted(x, s[1..], leq);
      InsertPermutes(x, s[1..], leq);
      forall j | 0 <= j < |rest| ensures leq(s[0], rest[j]) {
        assert rest[j] in multiset(rest);
        assert leq(x, s[0]) || leq(s[0], x);
        if rest[j] != x {
          assert rest[j] in multiset(s[1..]);
        }
      }
    }
  }

  /** Sorting yields a sorted sequence with the same elements. */
  lemma {:induction false} SortIsSorted<T(!new)>(s: seq<T>, leq: (T, T) -> bool)
    requires TotalPreorder(leq)
    ensures Sorted(SortBy(s, leq), leq)
  {
    if s != [] {
      SortIsSorted(s[1..], leq);
      InsertSorted(s[0], SortBy(s[1..], leq), leq);
    }
  }

  /** sort.Slice: sorted, and otherwise in whatever order it likes. */
  method SortSlice<T(!new)>(s: seq<T>, leq: (T, T) -> bool) returns (out: seq<T>)
    requires TotalPreorder(leq)
    ensures Sorted(out, leq) && multiset(out) == multiset(s)
  {
    SortPermutes(s, leq);
    SortIsSorted(s, leq);
    out := SortBy(s, leq);
  }

  ghost predicate RankDetermines<T>(s: multiset<T>, leq: (T, T) -> bool) {
    forall x, y :: x in s && y in s && leq(x, y) && leq(y, x) ==> x == y
  }

  lemma HeadsAgree<T>(a: seq<T>, b: seq<T>, leq: (T, T) -> bool)
    requires a != [] && b != []
    requires Sorted(a, leq) && Sorted(b, leq) && multiset(a) == multiset(b)
    requires RankDetermines(multiset(a), leq)
    ensures a[0] == b[0]
  {
    assert a[0] in multiset(b) && b[0] in multiset(a);
    var i :| 0 <= i < |a| && a[i] == b[0];
    var j :| 0 <= j < |b| && b[j] == a[0];
    assert i == 0 || leq(a[0], a[i]);
    assert j == 0 || leq(b[0], b[j]);
  }

  lemma TailMultiset<T>(a: seq<T>)
    requires a != []
    ensures multiset(a[1..]) == multiset(a) - multiset{a[0]}
    ensures forall x :: x in multiset(a[1..]) ==> x in multiset(a)
  {
    assert a == [a[0]] + a[1..];
  }

  /** When equal rank means equal element, there is only one sorted permutation: an
      unstable sort, or a different input order, gives the same result. */
  lemma {:induction false} SortedUnique<T>(a: seq<T>, b: seq<T>, leq: (T, T) -> bool)
    requires Sorted(a, leq) && Sorted(b, leq) && multiset(a) == multiset(b)
    requires RankDetermines(multiset(a), leq)
    ensures a == b
  {
    assert |multiset(a)| == |a| && |multiset(b)| == |b|;
    if a != [] {
      HeadsAgree(a, b, leq);
      TailMultiset(a);
      TailMultiset(b);
      SortedUnique(a[1..], b[1..], leq);
    }
  }

  lemma RepeatCountsTwice<T>(s: seq<T>, i: nat, j: nat)
    requires i < j < |s| && s[i] == s[j]
    ensures multiset(s)[s[i]] >= 2
  {
    assert s == s[..j] + [s[j]] + s[j + 1..];
    assert s[i] in s[..j];
  }

  /** A sequence without repeats has the multiset of its element set. */
  lemma {:induction false} NoRepeatMultiset<T>(s: seq<T>)
    requires forall i, j :: 0 <= i < j < |s| ==> s[i] != s[j]
    ensures multiset(s) == multiset(set x | x in s)
  {
    if s != [] {
      NoRepeatMultiset(s[1..]);
      assert s == [s[0]] + s[1..];
      assert s[0] !in s[1..];
      assert (set x | x in s) == {s[0]} + set x | x in s[1..];
    }
  }

  ghost predicate DistinctValues<K, V>(m: map<K, V>) {
    forall j, k :: j in m && k in m && j != k ==> m[j] != m[k]
  }

  /** The values of a map in some order: what ranging over a map collects. */
  ghost function MapValues<K(!new), V(!new)>(m: map<K, V>): seq<V> {
    if m == map[] then []
    else
      var k :| k in m;
      [m[k]] + MapValues(m - {k})
  }

  lemma ValuesWithout<K, V>(m: map<K, V>, k: K)
    requires DistinctValues(m) && k in m
    ensures (m - {k}).Values == m.Values - {m[k]}
    ensures m[k] in m.Values
    ensures DistinctValues(m - {k})
  {
    var rest := m - {k};
    forall v | v in m.Values - {m[k]} ensures v in rest.Values {
      var j :| j in m && m[j] == v;
      assert rest[j] == v;
    }
    forall v | v in rest.Values ensures v in m.Values - {m[k]} {
      var j :| j in rest && rest[j] == v;
      assert m[j] == v;
    }
  }

  lemma {:induction false} MapValuesAreAll<K(!new), V(!new)>(m: map<K, V>)
    requires DistinctValues(m)
    ensures multiset(MapValues(m)) == multiset(m.Values)
  {
    if m != map[] {
      var k :| k in m && MapValues(m) == [m[k]] + MapValues(m - {k});
      ValuesWithout(m, k);
      MapValuesAreAll(m - {k});
    }
  }

  /** Ranging over a map: the values come in an arbitrary order, each once. */
  method RangeValues<K(==, !new), V(==, !new)>(m: map<K, V>) returns (out: seq<V>)
    requires DistinctValues(m)
    ensures multiset(out) == multiset(m.Values)
  {
    out := [];
    var rest := m;
    while rest.Keys != {}
      invariant DistinctValues(rest)
      invariant multiset(out) + multiset(rest.Values) == multiset(m.Values)
      decreases |rest|
    {
      var k :| k in rest;
      ValuesWithout(rest, k);
      assert multiset(rest.Values) == multiset{rest[k]} + multiset((rest - {k}).Values);
      out := out + [rest[k]];
      rest := rest - {k};
    }
  }
}
