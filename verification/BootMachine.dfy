/** Boot reconcile as the atomic steps between its lock releases, interleaved with the poller's
    rechecks, and followed by the API's mutations (clients/service.go, main.go). */
module BootMachine {
  import opened Wrappers
  import opened Alloc
  import opened Types
  import opened ClientTable
  import opened Listing
  import opened PeerService
  import opened PeerConvergence

  /** Where ReconcileFromStore is. `Latch` is its closing setStoreReady. */
  datatype Pc =
    | NotBooted
    | HardPending | HardCount | HardSeed | HardReconcile
    | EmptyCount | HealListing | HealSave(heal: seq<Entry>)
    | SeedSave | SeedDb | SeedReconcile
    | ReplacePending(entries: seq<Entry>)
    | Latch(arm: bool)
    | Booted(ok: bool)

  datatype Machine = Machine(pc: Pc, s: State)

  datatype Action =
    | Boot(w: World)             // the next atomic step of ReconcileFromStore
    | Poll(w: World)             // the retention loop calls RecheckStore
    | Serve(op: Op, w: World)    // the API server is up: any later operation

  /** One atomic step of ReconcileFromStore and its two branch helpers. */
  ghost function BootStep(sn: ServerNet, seed: seq<Entry>, m: Machine, w: World): Machine
    requires sn.Valid()
  {
    var s := m.s;
    match m.pc
    case NotBooted =>
      var (s1, outcome) := DoLoad(s, w);
      (match outcome
       case LoadFailed => Machine(HardPending, s1)
       case Missing => Machine(EmptyCount, s1)
       case Loaded(es) => Machine(if es == [] then EmptyCount else ReplacePending(es), s1))
    case HardPending => Machine(HardCount, s.(ready := false))
    case HardCount =>
      Machine(if CountRows in w.faults || s.table.rows != map[] then Booted(false) else HardSeed, s)
    case HardSeed =>
      var (s1, e) := Seed(s, seed, w);
      Machine(if e.Some? then Booted(false) else HardReconcile, s1)
    case HardReconcile => Machine(Booted(false), Reconcile(s, w).0)
    case EmptyCount =>
      Machine(if CountRows in w.faults then Latch(false)
              else if s.table.rows != map[] then HealListing else SeedSave, s)
    case HealListing =>
      Machine(if HealList in w.faults then Latch(false) else HealSave(Projection(s.table.rows)), s)
    case HealSave(es) =>
      var (s1, ok) := DoSave(s, es, w);
      Machine(Latch(ok), s1)
    case SeedSave =>
      var (s1, ok) := DoSave(s, seed, w);
      Machine(if ok then SeedDb else Latch(false), s1)
    case SeedDb =>
      var (s1, e) := Seed(s, seed, w);
      Machine(if e.Some? then Latch(false) else SeedReconcile, s1)
    case SeedReconcile =>
      var (s1, e) := Reconcile(s, w);
      Machine(Latch(e.None?), s1)
    case ReplacePending(es) =>
      var (s1, e) := ReplaceAll(sn, s, es, w);
      Machine(Latch(e.None?), s1)
    case Latch(arm) => Machine(Booted(arm), s.(ready := arm))
    case Booted(_) => m
  }

  ghost function StepsLeft(pc: Pc): nat {
    match pc
    case NotBooted => 6
    case EmptyCount => 5
    case HardPending | SeedSave => 4
    case HardCount | HealListing | SeedDb => 3
    case HardSeed | HealSave(_) | SeedReconcile | ReplacePending(_) => 2
    case HardReconcile | Latch(_) => 1
    case Booted(_) => 0
  }

  /** Boot run to its end with nothing in between. */
  ghost function Complete(sn: ServerNet, seed: seq<Entry>, m: Machine, w: World): Machine
    requires sn.Valid()
    decreases StepsLeft(m.pc)
  {
    if m.pc.Booted? then m else Complete(sn, seed, BootStep(sn, seed, m, w), w)
  }

  /** The API only serves once boot has ended; a bulk replace gets fitting map orders. */
  ghost predicate Enabled(m: Machine, act: Action) {
    match act
    case Boot(w) => m.pc.ReplacePending? ==> OrdersFit(m.s, m.pc.entries, w)
    case Poll(_) => true
    case Serve(op, w) => m.pc.Booted? && Fits(m.s, op, w)
  }

  ghost function Next(sn: ServerNet, seed: seq<Entry>, m: Machine, act: Action): Machine
    requires sn.Valid()
  {
    match act
    case Boot(w) => BootStep(sn, seed, m, w)
    case Poll(w) => m.(s := RecheckStore(m.s, w).0)
    case Serve(op, w) => m.(s := Step(sn, m.s, op, w).0)
  }

  ghost predicate EnabledRun(sn: ServerNet, seed: seq<Entry>, m: Machine, actions: seq<Action>)
    requires sn.Valid()
    decreases |actions|
  {
    actions == [] || (Enabled(m, actions[0]) && EnabledRun(sn, seed, Next(sn, seed, m, actions[0]), actions[1..]))
  }

  ghost function Run(sn: ServerNet, seed: seq<Entry>, m: Machine, actions: seq<Action>): Machine
    requires sn.Valid()
    decreases |actions|
  {
    if actions == [] then m else Run(sn, seed, Next(sn, seed, m, actions[0]), actions[1..])
  }

  /** Taking one step does not change where boot ends up. */
  lemma OneStep(sn: ServerNet, seed: seq<Entry>, m: Machine, next: Machine, w: World)
    requires sn.Valid() && !m.pc.Booted? && BootStep(sn, seed, m, w) == next
    ensures Complete(sn, seed, m, w) == Complete(sn, seed, next, w)
  {
  }

  /** The uninterrupted boot is one of the machine's runs. */
  lemma {:induction false} CompleteIsARun(sn: ServerNet, seed: seq<Entry>, m: Machine, w: World)
    returns (actions: seq<Action>)
    requires sn.Valid()
    ensures Complete(sn, seed, m, w) == Run(sn, seed, m, actions)
    ensures forall act :: act in actions ==> act == Boot(w)
    ensures |actions| <= 6
    ensures |actions| <= StepsLeft(m.pc)
    decreases StepsLeft(m.pc)
  {
    if m.pc.Booted? {
      actions := [];
    } else {
      var rest := CompleteIsARun(sn, seed, BootStep(sn, seed, m, w), w);
      actions := [Boot(w)] + rest;
      assert actions[1..] == rest;
    }
  }

  /** A process that has just started in cloud mode: any valid table, any live state, any object. */
  ghost predicate Fresh(m: Machine) {
    m.pc.NotBooted? && m.s.ready && m.s.trace == [] && m.s.backend.S3? && ValidTable(m.s.table)
  }

  /** The outcome of the most recent Load. */
  ghost function LastLoad(trace: seq<Event>): Option<LoadOutcome> {
    if trace == [] then None
    else
      var last := trace[|trace| - 1];
      if last.DidLoad? then Some(last.outcome) else LastLoad(trace[..|trace| - 1])
  }

  ghost predicate LoadGood(trace: seq<Event>) {
    LastLoad(trace).Some? && !LastLoad(trace).value.LoadFailed?
  }

  /** Every Save comes after a Load, and the latest Load before it was not a hard error. */
  ghost predicate SafeTrace(trace: seq<Event>) {
    forall i :: 0 <= i < |trace| && trace[i].DidSave? ==> LoadGood(trace[..i])
  }

  lemma SafeAppend(trace: seq<Event>, e: Event)
    requires SafeTrace(trace) && (e.DidSave? ==> LoadGood(trace))
    ensures SafeTrace(trace + [e])
    ensures LastLoad(trace + [e]) == if e.DidLoad? then Some(e.outcome) else LastLoad(trace)
  {
    var more := trace + [e];
    assert more[..|trace|] == trace;
    forall i | 0 <= i < |more| && more[i].DidSave? ensures LoadGood(more[..i]) {
      if i < |trace| { assert more[..i] == trace[..i]; }
    }
  }

  /** What holds at every reachable state: before the latch is decided it is armed and the one
      Load was good (or its failure is about to be recorded); afterwards armed means good. */
  ghost predicate Guarded(m: Machine) {
    && m.s.backend.S3? && SafeTrace(m.s.trace)
    && match m.pc
       case NotBooted => m.s.ready
       case HardPending => m.s.ready
       case HardCount | HardSeed | HardReconcile | Booted(_) => m.s.ready ==> LoadGood(m.s.trace)
       case _ => m.s.ready && LoadGood(m.s.trace)
  }

  ghost predicate Armed(s: State) { s.backend.S3? && SafeTrace(s.trace) && (s.ready ==> LoadGood(s.trace)) }

  lemma HealIsSafe(s: State, w: World)
    requires s.backend.S3? && SafeTrace(s.trace) && !s.ready
    ensures Armed(Heal(s, w).0) && Heal(s, w).1 == Heal(s, w).0.ready
  {
    SafeAppend(s.trace, DidLoad(w.load));
  }

  lemma SaveIsSafe(s: State, es: seq<Entry>, w: World)
    requires s.backend.S3? && SafeTrace(s.trace) && LoadGood(s.trace)
    ensures var t := DoSave(s, es, w).0; t.backend.S3? && SafeTrace(t.trace) && LoadGood(t.trace) && t.ready == s.ready
  {
    SafeAppend(s.trace, DidSave(es, w.save.Saved?));
  }

  lemma ApplyIsSafe(s: State, w: World)
    requires s.backend.S3? && SafeTrace(s.trace)
    ensures var t := ApplyLocked(s, w).0;
            t.backend.S3? && SafeTrace(t.trace) && LastLoad(t.trace) == LastLoad(s.trace) && t.ready == s.ready
  {
    SafeAppend(s.trace, DidApply(List(s.table.rows), w.apply.Applied?));
  }

  lemma SaveStoreIsSafe(s: State, w: World)
    requires Armed(s)
    ensures var t := SaveStoreLocked(s, w).0; Armed(t) && (s.ready ==> t.ready)
  {
    if !s.ready { HealIsSafe(s, w); }
    var s1 := if s.ready then s else Heal(s, w).0;
    if s1.ready { SaveIsSafe(s1, Projection(s1.table.rows), w); }
  }

  lemma FinishIsSafe(s: State, w: World, wt: bool)
    requires Armed(s)
    ensures var t := Finish(s, w, wt).0; Armed(t) && (s.ready ==> t.ready)
  {
    ApplyIsSafe(s, w);
    var (s1, e) := ApplyLocked(s, w);
    assert Armed(s1) && s1.ready == s.ready;
    if e.None? && wt { SaveStoreIsSafe(s1, w); }
  }

  lemma StepIsSafe(sn: ServerNet, s: State, op: Op, w: World)
    requires sn.Valid() && Armed(s)
    ensures var t := Step(sn, s, op, w).0; Armed(t) && (s.ready ==> t.ready)
  {
    if op.RecheckOp? {
      if !s.ready { HealIsSafe(s, w); }
    } else {
      Shape(sn, s, op, w);
      var (t, ok) := Step(sn, s, op, w);
      if t != s {
        var mid: State, wt: bool :| OnlyTable(s, mid) && t == Finish(mid, w, wt).0;
        FinishIsSafe(mid, w, wt);
      }
    }
  }

  lemma BootStepIsGuarded(sn: ServerNet, seed: seq<Entry>, m: Machine, w: World)
    requires sn.Valid() && Guarded(m)
    ensures Guarded(BootStep(sn, seed, m, w))
  {
    match m.pc
    case NotBooted => SafeAppend(m.s.trace, DidLoad(w.load));
    case HealSave(es) => SaveIsSafe(m.s, es, w);
    case SeedSave => SaveIsSafe(m.s, seed, w);
    case HardReconcile => ApplyIsSafe(m.s, w);
    case SeedReconcile => ApplyIsSafe(m.s, w);
    case ReplacePending(es) =>
      StepIsSafe(sn, m.s, ReplaceOp(es), w);
      assert Step(sn, m.s, ReplaceOp(es), w).0 == ReplaceAll(sn, m.s, es, w).0;
    case _ =>
  }

  lemma NextIsGuarded(sn: ServerNet, seed: seq<Entry>, m: Machine, act: Action)
    requires sn.Valid() && Guarded(m) && Enabled(m, act)
    ensures Guarded(Next(sn, seed, m, act))
  {
    match act
    case Boot(w) => BootStepIsGuarded(sn, seed, m, w);
    case Poll(w) => if !m.s.ready { HealIsSafe(m.s, w); }
    case Serve(op, w) => StepIsSafe(sn, m.s, op, w);
  }

  lemma {:induction false} RunIsGuarded(sn: ServerNet, seed: seq<Entry>, m: Machine, actions: seq<Action>)
    requires sn.Valid() && Guarded(m) && EnabledRun(sn, seed, m, actions)
    ensures Guarded(Run(sn, seed, m, actions))
    decreases |actions|
  {
    if actions != [] {
      NextIsGuarded(sn, seed, m, actions[0]);
      RunIsGuarded(sn, seed, Next(sn, seed, m, actions[0]), actions[1..]);
    }
  }

  /** Write-through safety: in every interleaving of one boot, the poller's rechecks and the
      later operations, nothing is ever saved over a store whose last Load was a hard error. */
  lemma WriteThroughIsSafe(sn: ServerNet, seed: seq<Entry>, m: Machine, actions: seq<Action>)
    requires sn.Valid() && Fresh(m) && EnabledRun(sn, seed, m, actions)
    ensures SafeTrace(Run(sn, seed, m, actions).s.trace)
  {
    RunIsGuarded(sn, seed, m, actions);
  }

  /** Once boot has ended the latch is never dropped again. */
  lemma {:induction false} LatchStaysArmed(sn: ServerNet, seed: seq<Entry>, m: Machine, actions: seq<Action>)
    requires sn.Valid() && Guarded(m) && EnabledRun(sn, seed, m, actions)
    requires m.pc.Booted? && m.s.ready
    ensures Run(sn, seed, m, actions).pc.Booted? && Run(sn, seed, m, actions).s.ready
    decreases |actions|
  {
    if actions != [] {
      var act := actions[0];
      NextIsGuarded(sn, seed, m, act);
      if act.Serve? { StepIsSafe(sn, m.s, act.op, act.w); }
      LatchStaysArmed(sn, seed, Next(sn, seed, m, act), actions[1..]);
    }
  }

  lemma {:induction false} SeedKeepsValid(t: Table, seed: seq<Entry>, now: int, fault: Option<nat>)
    requires ValidTable(t)
    ensures ValidTable(SeedFrom(t, seed, now, fault).0)
    decreases |seed|
  {
    if seed != [] && fault != Some(0) {
      InsertKeepsValid(t, SeedRow(seed[0], now));
      var next := InsertRow(t, SeedRow(seed[0], now));
      if next.Some? {
        SeedKeepsValid(next.value, seed[1..], now, if fault.Some? then Some(fault.value - 1) else None);
      }
    }
  }

  lemma BootStepKeepsValid(sn: ServerNet, seed: seq<Entry>, m: Machine, w: World)
    requires sn.Valid() && ValidTable(m.s.table)
    requires m.pc.ReplacePending? ==> OrdersFit(m.s, m.pc.entries, w)
    ensures ValidTable(BootStep(sn, seed, m, w).s.table)
  {
    match m.pc
    case ReplacePending(es) => ReplaceKeepsValid(sn, m.s, es, w);
    case HardSeed | SeedDb => SeedKeepsValid(m.s.table, seed, w.now, w.seedFault);
    case _ =>
  }

  lemma NextKeepsValid(sn: ServerNet, seed: seq<Entry>, m: Machine, act: Action)
    requires sn.Valid() && ValidTable(m.s.table) && Enabled(m, act)
    ensures ValidTable(Next(sn, seed, m, act).s.table)
  {
    match act
    case Poll(_) =>
    case Serve(op, w) => StepKeepsValid(sn, m.s, op, w);
    case Boot(w) => BootStepKeepsValid(sn, seed, m, w);
  }

  lemma {:induction false} RunKeepsValid(sn: ServerNet, seed: seq<Entry>, m: Machine, actions: seq<Action>)
    requires sn.Valid() && ValidTable(m.s.table) && EnabledRun(sn, seed, m, actions)
    ensures ValidTable(Run(sn, seed, m, actions).s.table)
    decreases |actions|
  {
    if actions != [] {
      NextKeepsValid(sn, seed, m, actions[0]);
      RunKeepsValid(sn, seed, Next(sn, seed, m, actions[0]), actions[1..]);
    }
  }
}
