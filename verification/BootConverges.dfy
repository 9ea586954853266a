/** Exactly when a boot that returned nil has made the table live. */
module BootConverges {
  import opened Wrappers
  import opened Alloc
  import opened Types
  import opened ClientTable
  import opened PeerService
  import opened PeerConvergence
  import opened BootMachine
  import opened BootLatch
  import opened OneClient
  import BO = BootOutcome

  /** The live interface is the rendering of the table. */
  ghost predicate Live(s: State) { s.live == Render(s.table.rows) }

  /** The store answers with something to restore. */
  ghost predicate Offers(o: LoadOutcome) { o.Loaded? && o.entries != [] }

  /** A boot that will end in an apply, if it ends well. */
  ghost predicate Converging(m: Machine) {
    match m.pc
    case EmptyCount => m.s.table.rows == map[]
    case ReplacePending(_) | SeedSave | SeedDb | SeedReconcile => true
    case Latch(ok) => ok ==> Live(m.s)
    case Booted(ok) => ok ==> Live(m.s)
    case _ => false
  }

  lemma ConvergingStep(sn: ServerNet, seed: seq<Entry>, m: Machine, act: Action)
    requires sn.Valid() && Converging(m) && !act.Serve?
    ensures Converging(Next(sn, seed, m, act))
  {
    if act.Poll? {
      BO.RecheckKeepsTable(m.s, act.w);
    } else if m.pc.ReplacePending? {
      NilMeansLiveConverged(sn, m.s, ReplaceOp(m.pc.entries), act.w);
      assert Step(sn, m.s, ReplaceOp(m.pc.entries), act.w).0 == ReplaceAll(sn, m.s, m.pc.entries, act.w).0;
    } else if m.pc.SeedReconcile? {
      NilMeansLiveConverged(sn, m.s, ReconcileOp, act.w);
      assert Step(sn, m.s, ReconcileOp, act.w).0 == Reconcile(m.s, act.w).0;
    }
  }

  lemma {:induction false} ConvergingStays(sn: ServerNet, seed: seq<Entry>, m: Machine, actions: seq<Action>)
    requires sn.Valid() && Converging(m) && BO.NoServe(actions)
    ensures Converging(Run(sn, seed, m, actions))
    decreases |actions|
  {
    if actions != [] {
      assert actions[0] in actions;
      ConvergingStep(sn, seed, m, actions[0]);
      ConvergingStays(sn, seed, Next(sn, seed, m, actions[0]), actions[1..]);
    }
  }

  /** After a hard load error boot can only return the error. */
  ghost predicate Failing(pc: Pc) {
    pc.HardPending? || pc.HardCount? || pc.HardSeed? || pc.HardReconcile? || pc == Booted(false)
  }

  lemma {:induction false} FailingStays(sn: ServerNet, seed: seq<Entry>, m: Machine, actions: seq<Action>)
    requires sn.Valid() && Failing(m.pc) && BO.NoServe(actions)
    ensures Failing(Run(sn, seed, m, actions).pc)
    decreases |actions|
  {
    if actions != [] {
      assert actions[0] in actions;
      FailingStays(sn, seed, Next(sn, seed, m, actions[0]), actions[1..]);
    }
  }

  /** Before boot's first step the latch is armed, so a recheck does nothing. */
  lemma PollBeforeBoot(sn: ServerNet, seed: seq<Entry>, m: Machine, w: World)
    requires sn.Valid() && Fresh(m)
    ensures Next(sn, seed, m, Poll(w)) == m
  {
  }

  /** A boot that returned nil had no hard load error. */
  lemma {:induction false} NilBootLoaded(sn: ServerNet, seed: seq<Entry>, m: Machine, actions: seq<Action>)
    requires sn.Valid() && Fresh(m) && BO.NoServe(actions) && Run(sn, seed, m, actions).pc == Booted(true)
    ensures BO.FirstLoad(actions).Some? && !BO.FirstLoad(actions).value.LoadFailed?
    decreases |actions|
  {
    assert actions != [];
    assert actions[0] in actions;
    if actions[0].Boot? {
      if actions[0].w.load.LoadFailed? { FailingStays(sn, seed, Next(sn, seed, m, actions[0]), actions[1..]); }
    } else {
      PollBeforeBoot(sn, seed, m, actions[0].w);
      NilBootLoaded(sn, seed, m, actions[1..]);
    }
  }

  lemma {:induction false} AppliedBootConverges(sn: ServerNet, seed: seq<Entry>, m: Machine, actions: seq<Action>)
    requires sn.Valid() && Fresh(m) && BO.NoServe(actions) && Run(sn, seed, m, actions).pc == Booted(true)
    requires BO.FirstLoad(actions).Some?
    requires Offers(BO.FirstLoad(actions).value) || m.s.table.rows == map[]
    ensures Live(Run(sn, seed, m, actions).s)
    decreases |actions|
  {
    NilBootLoaded(sn, seed, m, actions);
    assert actions[0] in actions;
    if actions[0].Boot? {
      ConvergingStays(sn, seed, Next(sn, seed, m, actions[0]), actions[1..]);
    } else {
      PollBeforeBoot(sn, seed, m, actions[0].w);
      AppliedBootConverges(sn, seed, m, actions[1..]);
    }
  }

  /** In every interleaving with the poller, a boot that returned nil leaves the live interface equal
      to the rendering of the table if and only if the store offered a list, or the table was empty,
      or the interface was already right when the process started. */
  lemma BootConvergesIff(sn: ServerNet, seed: seq<Entry>, m: Machine, actions: seq<Action>)
    requires sn.Valid() && Fresh(m) && BO.NoServe(actions) && Run(sn, seed, m, actions).pc == Booted(true)
    ensures BO.FirstLoad(actions).Some?
    ensures Live(Run(sn, seed, m, actions).s) <==>
            Offers(BO.FirstLoad(actions).value) || m.s.table.rows == map[] || Live(m.s)
  {
    NilBootLoaded(sn, seed, m, actions);
    if Offers(BO.FirstLoad(actions).value) || m.s.table.rows == map[] {
      AppliedBootConverges(sn, seed, m, actions);
    } else {
      BO.BootNeverLosesPeers(sn, seed, m, actions);
    }
  }

  ghost predicate OnlyBoots(actions: seq<Action>, w: World) { forall a :: a in actions ==> a == Boot(w) }

  lemma OnlyBootsTail(actions: seq<Action>, w: World)
    requires OnlyBoots(actions, w) && actions != []
    ensures actions[0] == Boot(w) && OnlyBoots(actions[1..], w)
  {
    assert actions[0] in actions;
    assert forall a :: a in actions[1..] ==> a in actions;
  }

  lemma NeverBackToRestore(sn: ServerNet, seed: seq<Entry>, m: Machine, w: World)
    requires sn.Valid() && !m.pc.NotBooted?
    ensures !BootStep(sn, seed, m, w).pc.NotBooted? && !BootStep(sn, seed, m, w).pc.ReplacePending?
  {
  }

  lemma {:induction false} BootsAreEnabled(sn: ServerNet, seed: seq<Entry>, m: Machine, actions: seq<Action>, w: World)
    requires sn.Valid() && !m.pc.NotBooted? && OnlyBoots(actions, w)
    requires m.pc.ReplacePending? ==> OrdersFit(m.s, m.pc.entries, w)
    ensures EnabledRun(sn, seed, m, actions)
    decreases |actions|
  {
    if actions != [] {
      OnlyBootsTail(actions, w);
      NeverBackToRestore(sn, seed, m, w);
      BootsAreEnabled(sn, seed, BootStep(sn, seed, m, w), actions[1..], w);
    }
  }

  /** The uninterrupted boot as a run, for the theorems about runs. */
  lemma StraightBoot(sn: ServerNet, seed: seq<Entry>, m: Machine, w: World) returns (actions: seq<Action>)
    requires sn.Valid() && Fresh(m) && (w.load.Loaded? ==> OrdersFit(m.s, w.load.entries, w))
    requires Complete(sn, seed, m, w).pc.Booted?
    ensures Complete(sn, seed, m, w) == Run(sn, seed, m, actions)
    ensures EnabledRun(sn, seed, m, actions) && BO.NoServe(actions) && BO.FirstLoad(actions) == Some(w.load)
  {
    actions := CompleteIsARun(sn, seed, m, w);
    assert actions != [];
    OnlyBootsTail(actions, w);
    BootsAreEnabled(sn, seed, BootStep(sn, seed, m, w), actions[1..], w);
  }

  lemma HealedAlone(sn: ServerNet, seed: seq<Entry>, s: State, w: World)
    requires sn.Valid() && s.ready && s.backend.S3? && ValidTable(s.table) && s.table.rows != map[]
    requires w.load == Missing && w.faults == {} && w.save == Saved
    ensures Complete(sn, seed, Machine(NotBooted, s), w).pc == Booted(true)
  {
    BootLatchesIff(sn, seed, s, w);
  }

  /** The boot that heals the store from the table returns nil and applies nothing: the client is in
      the table and the store, and not on the interface. */
  lemma HealedBootIsNotLive(sn: ServerNet, seed: seq<Entry>, c: Client, orders: Orders)
    requires sn.Valid() && c.enabled
    ensures var end := Complete(sn, seed, Machine(NotBooted, Alone(c)), Calm(Missing, orders));
            end.pc == Booted(true) && end.s.live == "" && !Live(end.s)
  {
    var m, w := Machine(NotBooted, Alone(c)), Calm(Missing, orders);
    AloneIsListed(c);
    EnabledClientRenders(c);
    HealedAlone(sn, seed, m.s, w);
    var actions := StraightBoot(sn, seed, m, w);
    BootConvergesIff(sn, seed, m, actions);
    BO.BootNeverLosesPeers(sn, seed, m, actions);
  }
}
