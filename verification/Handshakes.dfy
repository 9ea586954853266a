/** The handshake recorder: a running-maximum cache in front of a keyed table
    (poller/poller.go, db/db.go). */
module Handshakes {
  import opened Wrappers

  /** One peer as `wg show` reports it; no time when it never handshaked. */
  datatype Report = Report(key: string, at: Option<int>)

  datatype Row = Row(ts: int, key: string, name: string)

  /** One tick in which the peers could be read. `names` is the manifest, empty when it could
      not be loaded; `stored` is whether the insert transaction committed. */
  datatype Sample = Sample(reports: seq<Report>, names: map<string, string>, stored: bool)

  datatype Step = Tick(sample: Sample) | Restart

  /** Cache and table. The table's primary key is (ts, public_key). */
  datatype Recorder = Recorder(cache: map<string, int>, table: map<(int, string), string>)

  function Cached(cache: map<string, int>, key: string): int { if key in cache then cache[key] else 0 }

  function NameFor(names: map<string, string>, key: string): string { if key in names then names[key] else key }

  predicate IsNew(cache: map<string, int>, r: Report) { r.at.Some? && r.at.value > Cached(cache, r.key) }

  /** The pass over a tick's peers: the cache it leaves and the rows it collects. */
  function Scan(cache: map<string, int>, reports: seq<Report>, names: map<string, string>)
    : (map<string, int>, seq<Row>)
  {
    if reports == [] then (cache, [])
    else
      var (c, rows) := Scan(cache, reports[..|reports| - 1], names);
      var r := reports[|reports| - 1];
      if !IsNew(c, r) then (c, rows)
      else (c[r.key := r.at.value], rows + [Row(r.at.value, r.key, NameFor(names, r.key))])
  }

  /** INSERT OR REPLACE of a batch, in order. */
  function Insert(table: map<(int, string), string>, rows: seq<Row>): map<(int, string), string> {
    if rows == [] then table
    else
      var r := rows[|rows| - 1];
      Insert(table, rows[..|rows| - 1])[(r.ts, r.key) := r.name]
  }

  /** The cache advances even when the insert fails. */
  function Next(r: Recorder, step: Step): Recorder {
    match step
    case Restart => r.(cache := map[])
    case Tick(s) =>
      var (cache, rows) := Scan(r.cache, s.reports, s.names);
      Recorder(cache, if s.stored then Insert(r.table, rows) else r.table)
  }

  function After(steps: seq<Step>): Recorder {
    if steps == [] then Recorder(map[], map[]) else Next(After(steps[..|steps| - 1]), steps[|steps| - 1])
  }

  /** The recorder as the poller and its database hold it. */
  class Poller {
    var lastHandshake: map<string, int>
    var table: map<(int, string), string>

    function View(): Recorder
      reads this
    {
      Recorder(lastHandshake, table)
    }

    constructor ()
      ensures View() == After([])
    {
      lastHandshake, table := map[], map[];
    }

    /** InsertHandshakeEvents: one transaction, so a failure anywhere changes nothing. `failAt`
        is the statement that fails, counting the commit as the last. */
    method InsertEvents(rows: seq<Row>, failAt: Option<nat>) returns (ok: bool)
      modifies this`table
      ensures ok <==> rows == [] || failAt.None? || failAt.value > |rows|
      ensures table == if ok then Insert(old(table), rows) else old(table)
    {
      if rows == [] { return true; }
      var before := table;
      for i := 0 to |rows|
        invariant before == old(table) && table == Insert(before, rows[..i])
        invariant failAt.Some? ==> i <= failAt.value
      {
        if failAt == Some(i) {
          table := before;
          return false;
        }
        assert rows[..i + 1][..i] == rows[..i];
        table := table[(rows[i].ts, rows[i].key) := rows[i].name];
      }
      if failAt == Some(|rows|) {
        table := before;
        return false;
      }
      assert rows[..|rows|] == rows;
      return true;
    }

    /** The handshake part of collect. */
    method Collect(reports: seq<Report>, names: map<string, string>, failAt: Option<nat>) returns (ok: bool)
      modifies this
      ensures View() == Next(old(View()), Tick(Sample(reports, names, ok)))
      ensures var rows := Scan(old(lastHandshake), reports, names).1;
              ok <==> rows == [] || failAt.None? || failAt.value > |rows|
    {
      ghost var cache := lastHandshake;
      var rows: seq<Row> := [];
      for n := 0 to |reports|
        invariant (lastHandshake, rows) == Scan(cache, reports[..n], names) && table == old(table)
      {
        assert reports[..n + 1][..n] == reports[..n];
        var r := reports[n];
        if r.at.Some? {
          var prior := if r.key in lastHandshake then lastHandshake[r.key] else 0;
          if r.at.value > prior {
            var name := if r.key in names then names[r.key] else r.key;
            rows := rows + [Row(r.at.value, r.key, name)];
            lastHandshake := lastHandshake[r.key := r.at.value];
          }
        }
      }
      assert reports[..|reports|] == reports;
      ok := InsertEvents(rows, failAt);
    }

    method RestartProcess()
      modifies this`lastHandshake
      ensures View() == Next(old(View()), Restart)
    {
      lastHandshake := map[];
    }
  }
}
/** What the stored handshakes mean, peer by peer. */
module HandshakeRuns {
  import opened Wrappers
  import opened Handshakes

  /** A run as one peer sees it: the times reported for it, and the restarts. */
  datatype Beat = Reading(at: int, name: string, stored: bool) | Cleared

  function BeatOf(r: Report, names: map<string, string>, stored: bool, key: string): seq<Beat> {
    if r.key == key && r.at.Some? then [Reading(r.at.value, if key in names then names[key] else key, stored)] else []
  }

  function BeatsIn(reports: seq<Report>, names: map<string, string>, stored: bool, key: string): seq<Beat> {
    if reports == [] then []
    else BeatsIn(reports[..|reports| - 1], names, stored, key) + BeatOf(reports[|reports| - 1], names, stored, key)
  }

  function StepBeats(step: Step, key: string): seq<Beat> {
    match step case Restart => [Cleared] case Tick(s) => BeatsIn(s.reports, s.names, s.stored, key)
  }

  function Beats(steps: seq<Step>, key: string): seq<Beat> {
    if steps == [] then [] else Beats(steps[..|steps| - 1], key) + StepBeats(steps[|steps| - 1], key)
  }

  /** One peer's part of the recorder, moved by its own beats only. */
  datatype Lane = Lane(last: int, rows: map<int, string>)

  function LaneNext(l: Lane, b: Beat): Lane {
    match b
    case Cleared => l.(last := 0)
    case Reading(at, name, stored) => if at > l.last then Lane(at, if stored then l.rows[at := name] else l.rows) else l
  }

  function LaneFrom(l: Lane, beats: seq<Beat>): Lane {
    if beats == [] then l else LaneNext(LaneFrom(l, beats[..|beats| - 1]), beats[|beats| - 1])
  }

  const EMPTY := Lane(0, map[])

  ghost predicate LaneOf(r: Recorder, key: string, l: Lane) {
    && Cached(r.cache, key) == l.last
    && (forall t :: (t, key) in r.table <==> t in l.rows)
    && (forall t :: t in l.rows ==> r.table[(t, key)] == l.rows[t])
  }

  lemma {:induction false} LaneFromConcat(l: Lane, a: seq<Beat>, b: seq<Beat>)
    ensures LaneFrom(l, a + b) == LaneFrom(LaneFrom(l, a), b)
    decreases |b|
  {
    if b == [] {
      assert a + b == a;
    } else {
      assert (a + b)[..|a + b| - 1] == a + b[..|b| - 1];
      LaneFromConcat(l, a, b[..|b| - 1]);
    }
  }

  /** The recorder part-way through a tick, as if its rows were inserted one by one. */
  function Partly(r: Recorder, reports: seq<Report>, names: map<string, string>, stored: bool): Recorder {
    var (cache, rows) := Scan(r.cache, reports, names);
    Recorder(cache, if stored then Insert(r.table, rows) else r.table)
  }

  function OneReport(r: Recorder, rep: Report, names: map<string, string>, stored: bool): Recorder {
    if !IsNew(r.cache, rep) then r
    else Recorder(r.cache[rep.key := rep.at.value],
                  if stored then r.table[(rep.at.value, rep.key) := NameFor(names, rep.key)] else r.table)
  }

  lemma PartlyOneMore(r: Recorder, reports: seq<Report>, names: map<string, string>, stored: bool)
    requires reports != []
    ensures Partly(r, reports, names, stored)
            == OneReport(Partly(r, reports[..|reports| - 1], names, stored), reports[|reports| - 1], names, stored)
  {
    var rep := reports[|reports| - 1];
    var (c, rows) := Scan(r.cache, reports[..|reports| - 1], names);
    if IsNew(c, rep) {
      var row := Row(rep.at.value, rep.key, NameFor(names, rep.key));
      assert (rows + [row])[..|rows|] == rows;
    }
  }

  lemma OneReportMovesLane(r: Recorder, rep: Report, names: map<string, string>, stored: bool, key: string, l: Lane)
    requires LaneOf(r, key, l)
    ensures LaneOf(OneReport(r, rep, names, stored), key, LaneFrom(l, BeatOf(rep, names, stored, key)))
  {
    var beat := BeatOf(rep, names, stored, key);
    if beat != [] { assert beat[..0] == []; }
  }

  lemma {:induction false} ScanMovesLane(r: Recorder, reports: seq<Report>, names: map<string, string>, stored: bool,
                                         key: string, l: Lane)
    requires LaneOf(r, key, l)
    ensures LaneOf(Partly(r, reports, names, stored), key, LaneFrom(l, BeatsIn(reports, names, stored, key)))
    decreases |reports|
  {
    if reports != [] {
      var init, rep := reports[..|reports| - 1], reports[|reports| - 1];
      ScanMovesLane(r, init, names, stored, key, l);
      PartlyOneMore(r, reports, names, stored);
      var beats := BeatsIn(init, names, stored, key);
      OneReportMovesLane(Partly(r, init, names, stored), rep, names, stored, key, LaneFrom(l, beats));
      LaneFromConcat(l, beats, BeatOf(rep, names, stored, key));
    }
  }

  /** Each peer's cache entry and rows depend on that peer's own reports only. */
  lemma {:induction false} RunMovesLane(steps: seq<Step>, key: string)
    ensures LaneOf(After(steps), key, LaneFrom(EMPTY, Beats(steps, key)))
    decreases |steps|
  {
    if steps != [] {
      var init, step := steps[..|steps| - 1], steps[|steps| - 1];
      RunMovesLane(init, key);
      var l := LaneFrom(EMPTY, Beats(init, key));
      LaneFromConcat(EMPTY, Beats(init, key), StepBeats(step, key));
      if step.Tick? {
        ScanMovesLane(After(init), step.sample.reports, step.sample.names, step.sample.stored, key, l);
      } else {
        assert [Cleared][..0] == [];
      }
    }
  }

  ghost predicate SameLife(beats: seq<Beat>, j: nat, i: nat) {
    i <= |beats| && forall m :: j <= m < i ==> beats[m].Reading?
  }

  /** Beat i is a strict running maximum of the readings since the last restart (starting from 0). */
  ghost predicate IsRecord(beats: seq<Beat>, i: int) {
    && 0 <= i < |beats| && beats[i].Reading? && beats[i].at > 0
    && forall j :: 0 <= j < i && SameLife(beats, j, i) && beats[j].Reading? ==> beats[j].at < beats[i].at
  }

  ghost predicate Stores(beats: seq<Beat>, i: int, t: int) {
    IsRecord(beats, i) && beats[i].stored && beats[i].at == t
  }

  /** `last` is the greatest reading of the current life, or 0. */
  ghost predicate IsPeak(beats: seq<Beat>, last: int) {
    && last >= 0
    && (forall j :: 0 <= j < |beats| && SameLife(beats, j, |beats|) ==> beats[j].at <= last)
    && (last > 0 ==> exists j :: 0 <= j < |beats| && SameLife(beats, j, |beats|) && beats[j].at == last)
  }

  function PeakAfter(b: Beat, last: int): int {
    match b case Cleared => 0 case Reading(at, _, _) => if at > last then at else last
  }

  lemma LivesCarryOver(beats: seq<Beat>, b: Beat)
    ensures forall j, i :: 0 <= j <= i <= |beats| ==> (SameLife(beats + [b], j, i) <==> SameLife(beats, j, i))
    ensures forall j :: 0 <= j <= |beats| ==>
            (SameLife(beats + [b], j, |beats| + 1) <==> SameLife(beats, j, |beats|) && b.Reading?)
  {
    var more := beats + [b];
    assert forall m :: 0 <= m < |beats| ==> more[m] == beats[m];
    assert more[|beats|] == b;
    forall j, i | 0 <= j <= i <= |beats| ensures SameLife(more, j, i) <==> SameLife(beats, j, i) {
      assert SameLife(beats, j, i) ==> forall m :: j <= m < i ==> more[m] == beats[m] && more[m].Reading?;
      assert SameLife(more, j, i) ==> forall m :: j <= m < i ==> beats[m] == more[m] && beats[m].Reading?;
    }
    forall j | 0 <= j <= |beats| ensures SameLife(more, j, |more|) <==> SameLife(more, j, |beats|) && b.Reading? {
      assert SameLife(more, j, |more|) ==> more[|beats|].Reading?;
    }
  }

  lemma PeakMoves(beats: seq<Beat>, b: Beat, last: int)
    requires IsPeak(beats, last)
    ensures IsPeak(beats + [b], PeakAfter(b, last))
  {
    var more, peak := beats + [b], PeakAfter(b, last);
    LivesCarryOver(beats, b);
    assert more[|beats|] == b;
    forall j | 0 <= j < |more| && SameLife(more, j, |more|) ensures more[j].at <= peak {
      if j < |beats| { assert SameLife(beats, j, |beats|) && more[j] == beats[j]; }
    }
    if b.Reading? && peak > 0 {
      if b.at > last {
        assert SameLife(more, |beats|, |more|);
      } else {
        var j :| 0 <= j < |beats| && SameLife(beats, j, |beats|) && beats[j].at == last;
        assert SameLife(more, j, |more|) && more[j] == beats[j];
      }
    }
  }

  lemma RecordIffAbovePeak(beats: seq<Beat>, b: Beat, last: int)
    requires IsPeak(beats, last)
    ensures IsRecord(beats + [b], |beats|) <==> b.Reading? && b.at > last
  {
    var more := beats + [b];
    LivesCarryOver(beats, b);
    assert more[|beats|] == b;
    if IsRecord(more, |beats|) && last > 0 {
      var j :| 0 <= j < |beats| && SameLife(beats, j, |beats|) && beats[j].at == last;
      assert SameLife(more, j, |beats|) && more[j] == beats[j];
    }
    if b.Reading? && b.at > last {
      forall j | 0 <= j < |beats| && SameLife(more, j, |beats|) && more[j].Reading? ensures more[j].at < b.at {
        assert SameLife(beats, j, |beats|) && more[j] == beats[j];
      }
    }
  }

  lemma RecordsCarryOver(beats: seq<Beat>, b: Beat, i: nat)
    requires i < |beats|
    ensures IsRecord(beats + [b], i) <==> IsRecord(beats, i)
  {
    LivesCarryOver(beats, b);
    var more := beats + [b];
    assert more[i] == beats[i] && forall j :: 0 <= j < i ==> more[j] == beats[j];
  }

  lemma {:induction false} CacheIsPeak(beats: seq<Beat>)
    ensures IsPeak(beats, LaneFrom(EMPTY, beats).last)
    decreases |beats|
  {
    if beats != [] {
      var init, b := beats[..|beats| - 1], beats[|beats| - 1];
      CacheIsPeak(init);
      PeakMoves(init, b, LaneFrom(EMPTY, init).last);
      assert init + [b] == beats;
    }
  }

  ghost predicate HasRecord(beats: seq<Beat>, t: int) { exists i :: Stores(beats, i, t) }

  ghost predicate LatestName(beats: seq<Beat>, t: int, name: string) {
    exists i :: Stores(beats, i, t) && name == beats[i].name && forall j :: j > i ==> !Stores(beats, j, t)
  }

  /** A row (t, name) is there exactly because some stored record reading reported t, and the
      name is the one resolved for the latest such reading. */
  ghost predicate RowsAreRecords(beats: seq<Beat>, rows: map<int, string>) {
    && (forall t :: t in rows <==> HasRecord(beats, t))
    && (forall t :: t in rows ==> LatestName(beats, t, rows[t]))
  }

  lemma OneMoreBeat(beats: seq<Beat>, b: Beat, l: Lane)
    requires RowsAreRecords(beats, l.rows) && (IsRecord(beats + [b], |beats|) <==> b.Reading? && b.at > l.last)
    ensures RowsAreRecords(beats + [b], LaneNext(l, b).rows)
  {
    var more, rows := beats + [b], LaneNext(l, b).rows;
    var n := |beats|;
    forall i, t ensures Stores(more, i, t) <==> (i < n && Stores(beats, i, t)) || (i == n && Stores(more, n, t)) {
      if 0 <= i < n { RecordsCarryOver(beats, b, i); }
    }
    forall t | t in rows
      ensures LatestName(more, t, rows[t])
    {
      if Stores(more, n, t) {
        assert rows[t] == more[n].name;
      } else {
        var i :| Stores(beats, i, t) && l.rows[t] == beats[i].name && forall j :: j > i ==> !Stores(beats, j, t);
        assert Stores(more, i, t) && more[i] == beats[i];
      }
    }
  }

  lemma {:induction false} LaneRowsAreRecords(beats: seq<Beat>)
    ensures RowsAreRecords(beats, LaneFrom(EMPTY, beats).rows)
    decreases |beats|
  {
    if beats != [] {
      var init, b := beats[..|beats| - 1], beats[|beats| - 1];
      LaneRowsAreRecords(init);
      CacheIsPeak(init);
      RecordIffAbovePeak(init, b, LaneFrom(EMPTY, init).last);
      assert init + [b] == beats;
      OneMoreBeat(init, b, LaneFrom(EMPTY, init));
    }
  }

  /** The recorder's table over any run of ticks, failed inserts and restarts. */
  lemma TableHoldsRecords(steps: seq<Step>, key: string, t: int)
    ensures var beats := Beats(steps, key);
            && ((t, key) in After(steps).table <==> HasRecord(beats, t))
            && ((t, key) in After(steps).table ==> LatestName(beats, t, After(steps).table[(t, key)]))
  {
    RunMovesLane(steps, key);
    LaneRowsAreRecords(Beats(steps, key));
    var l := LaneFrom(EMPTY, Beats(steps, key));
    assert (t, key) in After(steps).table <==> t in l.rows;
  }
}
