/** Boot without a store (local mode): seed, then re-apply, each error only logged
    (cmd/wireguard-dashboard/main.go). */
module LocalBoot {
  import opened Wrappers
  import opened Types
  import opened ClientTable
  import opened PeerService
  import opened BootHardError

  ghost function SeedThenApply(s: State, seed: seq<Entry>, w1: World, w2: World): State {
    Reconcile(Seed(s, seed, w1).0, w2).0
  }

  /** A table with rows is never re-seeded, and an empty one takes the manifest as far as it goes; whatever
      came of that, the table is then applied. */
  lemma LocalBootOutcome(s: State, seed: seq<Entry>, w1: World, w2: World)
    requires ValidTable(s.table) && NothingApplied(s.trace)
    ensures var t := SeedThenApply(s, seed, w1, w2);
            && (s.table.rows != map[] || SeedCount in w1.faults ==> t.table == s.table)
            && (s.table.rows == map[] && SeedCount !in w1.faults ==>
                  exists n: nat :: StopsAfter(seed, w1.seedFault, n) && Seeded(t.table.rows, seed[..n], w1.now))
            && AppliedIn(s.live, t, w2) && t.backend == s.backend && t.ready == s.ready
  {
    var mid := Seed(s, seed, w1).0;
    ApplyEnds(mid, w2);
    if s.table.rows == map[] && SeedCount !in w1.faults { var n := SeedTakes(s.table, seed, w1.now, w1.seedFault); }
  }

  /** Once the table has rows, booting again changes none of them, whatever the manifest says by then. */
  lemma LocalBootKeepsRows(s: State, seed: seq<Entry>, w1: World, w2: World, again: seq<Entry>, w3: World, w4: World)
    ensures var t := SeedThenApply(s, seed, w1, w2);
            t.table.rows != map[] ==> SeedThenApply(t, again, w3, w4).table == t.table
  {
  }
}
