/** The daemon's poller sets: boot, restarts and shutdown, interleaved wherever they share state. */
module Pollers {

  /** One call of startPollers: its context, and whether any of its goroutines is left. */
  datatype PollerSet = PollerSet(cancelled: bool, running: bool)

  datatype Owner = Free | Main | Restart(i: nat)

  /** Where a background restart stands. */
  datatype RestartPc =
    | Waiting                             // before restartMu.Lock
    | Locked                              // holds restartMu, before reading the published pair
    | ReadCancel(c: nat)                  // read pollerCancel, holds cfgMu
    | Snapshot(c: nat, w: nat)            // read both
    | Draining(w: nat)                    // called oldCancel, in oldWg.Wait
    | Drained                             // before the first runtimeCtx check
    | Starting                            // the check passed, before startPollers
    | Bridging(x: nat)                    // in startPollers' select
    | Failing(x: nat)                     // startPollers failed: cancelled, in wg.Wait
    | Started(x: nat)                     // before the second runtimeCtx check
    | Stopping(x: nat)                    // called newCancel, in newWg.Wait
    | Publishing(x: nat)                  // before cfgMu.Lock
    | PublishedCancel(x: nat)             // wrote pollerCancel, holds cfgMu
    | Leaving                             // before the deferred restartMu.Unlock
    | Done

  /** Where the main goroutine stands: boot, running, the stop of the producers, and the
      shutdown defer, which an early return reaches as well. */
  datatype MainPc =
    | Boot
    | BootBridging(x: nat)
    | BootFailing(x: nat)
    | Aborted
    | Running
    | StopReadCancel(c: nat)              // read pollerCancel to stop the producers, holds cfgMu
    | StopSnapshot(c: nat)                // released cfgMu, before calling what it read
    | StopCancelled                       // before the deferred calls
    | ShutCancelled                       // called runtimeCancel, before restartMu.Lock
    | ShutLocked
    | ShutReadCancel(c: nat)
    | ShutSnapshot(c: nat, w: nat)
    | ShutDraining(w: nat)
    | ShutLeaving
    | ShutDone

  datatype State = State(
    runtimeCancelled: bool,
    restartMu: Owner,
    cfgMu: Owner,
    cancel: nat,                          // the published pollerCancel: whose context it cancels
    wg: nat,                              // the published pollerWg: whose goroutines it waits for
    sets: seq<PollerSet>,
    restarts: seq<RestartPc>,
    main: MainPc)

  /** ok is how startPollers' select ends: the bridge is ready, or it failed or the
      context was done. A bridge that is ready may win over a cancelled context. For the main
      goroutine while running it tells whether it stops the producers or returns early. */
  datatype Step =
    | Reload
    | CancelRuntime
    | Exit(x: nat)
    | RestartStep(i: nat, ok: bool)
    | MainStep(ok: bool)

  const INIT := State(false, Free, Free, 0, 0, [], [], Boot)

  predicate Booted(s: State) {
    !(s.main.Boot? || s.main.BootBridging? || s.main.BootFailing? || s.main.Aborted?)
  }

  predicate Exited(s: State, x: nat) {
    x < |s.sets| && !s.sets[x].running
  }

  function CancelSet(s: State, x: nat): seq<PollerSet> {
    if x < |s.sets| then s.sets[x := s.sets[x].(cancelled := true)] else s.sets
  }

  predicate RestartEnabled(s: State, pc: RestartPc) {
    match pc
    case Waiting => s.restartMu.Free?
    case Locked => s.cfgMu.Free?
    case Draining(w) => Exited(s, w)
    case Failing(x) => Exited(s, x)
    case Stopping(x) => Exited(s, x)
    case Publishing(_) => s.cfgMu.Free?
    case Done => false
    case _ => true
  }

  predicate MainEnabled(s: State, ok: bool) {
    match s.main
    case BootFailing(x) => Exited(s, x)
    case Running => ok ==> s.cfgMu.Free?
    case ShutCancelled => s.restartMu.Free?
    case ShutLocked => s.cfgMu.Free?
    case ShutDraining(w) => Exited(s, w)
    case ShutDone => false
    case Aborted => false
    case _ => true
  }

  /** A reload is served once the daemon has booted, even during shutdown. A set's
      goroutines leave only when their context or its parent is cancelled. */
  predicate Enabled(s: State, step: Step) {
    match step
    case Reload => Booted(s)
    case CancelRuntime => true
    case Exit(x) => x < |s.sets| && s.sets[x].running && (s.sets[x].cancelled || s.runtimeCancelled)
    case RestartStep(i, _) => i < |s.restarts| && RestartEnabled(s, s.restarts[i])
    case MainStep(ok) => MainEnabled(s, ok)
  }

  function ApplyRestart(s: State, i: nat, ok: bool): State
    requires i < |s.restarts|
  {
    var goto := (pc: RestartPc) => s.restarts[i := pc];
    match s.restarts[i]
    case Waiting => s.(restartMu := Restart(i), restarts := goto(Locked))
    case Locked => s.(cfgMu := Restart(i), restarts := goto(ReadCancel(s.cancel)))
    case ReadCancel(c) => s.(cfgMu := Free, restarts := goto(Snapshot(c, s.wg)))
    case Snapshot(c, w) => s.(sets := CancelSet(s, c), restarts := goto(Draining(w)))
    case Draining(_) => s.(restarts := goto(Drained))
    case Drained => s.(restarts := goto(if s.runtimeCancelled then Leaving else Starting))
    case Starting => s.(sets := s.sets + [PollerSet(false, true)], restarts := goto(Bridging(|s.sets|)))
    case Bridging(x) =>
      if ok then s.(restarts := goto(Started(x)))
      else s.(sets := CancelSet(s, x), restarts := goto(Failing(x)))
    case Failing(_) => s.(restarts := goto(Leaving))
    case Started(x) =>
      if s.runtimeCancelled then s.(sets := CancelSet(s, x), restarts := goto(Stopping(x)))
      else s.(restarts := goto(Publishing(x)))
    case Stopping(_) => s.(restarts := goto(Leaving))
    case Publishing(x) => s.(cfgMu := Restart(i), cancel := x, restarts := goto(PublishedCancel(x)))
    case PublishedCancel(x) => s.(cfgMu := Free, wg := x, restarts := goto(Leaving))
    case Leaving => s.(restartMu := Free, restarts := goto(Done))
    case Done => s
  }

  function ApplyMain(s: State, ok: bool): State {
    match s.main
    case Boot => s.(sets := s.sets + [PollerSet(false, true)], main := BootBridging(|s.sets|))
    case BootBridging(x) =>
      if ok then s.(cancel := x, wg := x, main := Running)
      else s.(sets := CancelSet(s, x), main := BootFailing(x))
    case BootFailing(_) => s.(main := Aborted)
    case Running =>
      if ok then s.(cfgMu := Main, main := StopReadCancel(s.cancel))
          else s.(runtimeCancelled := true, main := ShutCancelled)
    case StopReadCancel(c) => s.(cfgMu := Free, main := StopSnapshot(c))
    case StopSnapshot(c) => s.(sets := CancelSet(s, c), main := StopCancelled)
    case StopCancelled => s.(runtimeCancelled := true, main := ShutCancelled)
    case ShutCancelled => s.(restartMu := Main, main := ShutLocked)
    case ShutLocked => s.(cfgMu := Main, main := ShutReadCancel(s.cancel))
    case ShutReadCancel(c) => s.(cfgMu := Free, main := ShutSnapshot(c, s.wg))
    case ShutSnapshot(c, w) => s.(sets := CancelSet(s, c), main := ShutDraining(w))
    case ShutDraining(_) => s.(main := ShutLeaving)
    case ShutLeaving => s.(restartMu := Free, main := ShutDone)
    case ShutDone => s
    case Aborted => s
  }

  function Apply(s: State, step: Step): State
    requires Enabled(s, step)
  {
    match step
    case Reload => s.(restarts := s.restarts + [Waiting])
    case CancelRuntime => s.(runtimeCancelled := true)
    case Exit(x) => s.(sets := s.sets[x := s.sets[x].(running := false)])
    case RestartStep(i, ok) => ApplyRestart(s, i, ok)
    case MainStep(ok) => ApplyMain(s, ok)
  }

  /** A run from one state to another. */
  ghost predicate Run(from: State, steps: seq<Step>, to: State)
    decreases |steps|
  {
    if steps == [] then from == to
    else Enabled(from, steps[0]) && Run(Apply(from, steps[0]), steps[1..], to)
  }

  ghost predicate Reachable(s: State) {
    exists steps :: Run(INIT, steps, s)
  }

  predicate Holds(pc: RestartPc) {
    !pc.Waiting? && !pc.Done?
  }

  predicate MainHolds(pc: MainPc) {
    pc.ShutLocked? || pc.ShutReadCancel? || pc.ShutSnapshot? || pc.ShutDraining? || pc.ShutLeaving?
  }

  /** The restart has a set of its own in hand. */
  predicate Builds(pc: RestartPc, x: nat) {
    pc == Bridging(x) || pc == Failing(x) || pc == Started(x) || pc == Stopping(x) || pc == Publishing(x) ||
        pc == PublishedCancel(x)
  }

  predicate BuildsSome(pc: RestartPc) {
    pc.Bridging? || pc.Failing? || pc.Started? || pc.Stopping? || pc.Publishing? || pc.PublishedCancel?
  }

  predicate MainBuilds(pc: MainPc, x: nat) {
    pc == BootBridging(x) || pc == BootFailing(x)
  }

  predicate Shutting(pc: MainPc) {
    pc.ShutCancelled? || pc.ShutDone? || MainHolds(pc)
  }

  predicate Cancelled(s: State, x: nat) {
    x < |s.sets| && s.sets[x].cancelled
  }

  /** What a restart that holds the lock knows at each point. */
  predicate RestartKnows(s: State, pc: RestartPc) {
    match pc
    case ReadCancel(c) => c == s.wg
    case Snapshot(c, w) => c == w == s.wg
    case Draining(w) => w == s.wg && Cancelled(s, w)
    case Drained => Exited(s, s.wg)
    case Starting => Exited(s, s.wg)
    case Bridging(x) => Exited(s, s.wg) && x < |s.sets| && x != s.wg
    case Failing(x) => Exited(s, s.wg) && Cancelled(s, x) && x != s.wg
    case Started(x) => Exited(s, s.wg) && x < |s.sets| && x != s.wg
    case Stopping(x) => Exited(s, s.wg) && Cancelled(s, x) && x != s.wg
    case Publishing(x) => Exited(s, s.wg) && x < |s.sets| && x != s.wg
    case PublishedCancel(x) => Exited(s, s.wg) && x < |s.sets| && x != s.wg && s.cancel == x
    case _ => true
  }

  predicate MainKnows(s: State) {
    match s.main
    case Boot => s.sets == [] && s.restarts == []
    case BootBridging(x) => x == 0 && |s.sets| == 1 && s.restarts == []
    case BootFailing(x) => x == 0 && |s.sets| == 1 && Cancelled(s, 0) && s.restarts == []
    case Aborted => |s.sets| == 1 && Exited(s, 0) && s.restarts == []
    case ShutReadCancel(c) => c == s.wg
    case ShutSnapshot(c, w) => c == w == s.wg
    case ShutDraining(w) => w == s.wg && Cancelled(s, w)
    case ShutLeaving => Exited(s, s.wg)
    case ShutDone => Exited(s, s.wg)
    case _ => true
  }

  /** Where the restart that holds restartMu stands. */
  function OwnerPc(s: State): RestartPc {
    if s.restartMu.Restart? && s.restartMu.i < |s.restarts| then s.restarts[s.restartMu.i] else Done
  }

  ghost predicate LocksMatch(s: State) {
    && (forall i :: 0 <= i < |s.restarts| ==> (s.restartMu == Restart(i) <==> Holds(s.restarts[i])))
    && (s.restartMu.Restart? ==> s.restartMu.i < |s.restarts|)
    && (s.restartMu.Main? <==> MainHolds(s.main))
    && (s.cfgMu.Main? <==> s.main.StopReadCancel? || s.main.ShutReadCancel?)
    && (s.cfgMu.Restart? <==> OwnerPc(s).ReadCancel? || OwnerPc(s).PublishedCancel?)
  }

  ghost predicate Known(s: State) {
    && MainKnows(s)
    && RestartKnows(s, OwnerPc(s))
    && (Booted(s) ==> s.wg < |s.sets|)
    && (Booted(s) ==> s.cancel == s.wg || OwnerPc(s) == PublishedCancel(s.cancel))
    && (Shutting(s.main) ==> s.runtimeCancelled)
    && (s.main.ShutDone? ==> !OwnerPc(s).Starting? && !BuildsSome(OwnerPc(s)))
  }

  /** Every set with a goroutine left is the published one, or in the hands of whoever builds it. */
  ghost predicate Accounted(s: State) {
    forall x :: 0 <= x < |s.sets| && s.sets[x].running ==>
      (Booted(s) && x == s.wg) || MainBuilds(s.main, x) || Builds(OwnerPc(s), x)
  }

  ghost predicate Inv(s: State) {
    LocksMatch(s) && Known(s) && Accounted(s)
  }

  lemma RestartStepOwner(s: State, i: nat, ok: bool)
    requires LocksMatch(s) && Enabled(s, RestartStep(i, ok))
    ensures Holds(s.restarts[i]) ==> OwnerPc(s) == s.restarts[i] && s.restartMu == Restart(i)
    ensures s.restarts[i].Waiting? ==> OwnerPc(s) == Done && s.restartMu == Free
    ensures var s' := ApplyRestart(s, i, ok);
      OwnerPc(s') == if s'.restarts[i].Done? then Done else s'.restarts[i]
  {
  }

  lemma RestartStepKeepsCfgMu(s: State, i: nat, ok: bool)
    requires Inv(s) && Enabled(s, RestartStep(i, ok))
    ensures var s' := ApplyRestart(s, i, ok);
      && (s'.cfgMu.Main? <==> s'.main.StopReadCancel? || s'.main.ShutReadCancel?)
      && (s'.cfgMu.Restart? <==> OwnerPc(s').ReadCancel? || OwnerPc(s').PublishedCancel?)
  {
    RestartStepOwner(s, i, ok);
  }

  lemma RestartStepKeepsLocks(s: State, i: nat, ok: bool)
    requires Inv(s) && Enabled(s, RestartStep(i, ok))
    ensures LocksMatch(ApplyRestart(s, i, ok))
  {
    RestartStepOwner(s, i, ok);
    RestartStepKeepsCfgMu(s, i, ok);
    var s' := ApplyRestart(s, i, ok);
    forall j | 0 <= j < |s'.restarts| ensures s'.restartMu == Restart(j) <==> Holds(s'.restarts[j]) {
      assert s.restartMu == Restart(j) <==> Holds(s.restarts[j]);
    }
  }

  /** The old set goes first, then a new one comes. */
  predicate TearsDown(pc: RestartPc) {
    pc.Waiting? || pc.Locked? || pc.ReadCancel? || pc.Snapshot? || pc.Draining?
  }

  lemma TearDownKeepsKnows(s: State, i: nat, ok: bool)
    requires Inv(s) && Enabled(s, RestartStep(i, ok)) && TearsDown(s.restarts[i])
    ensures var s' := ApplyRestart(s, i, ok);
      RestartKnows(s', OwnerPc(s'))
  {
    RestartStepOwner(s, i, ok);
    assert Booted(s);
  }

  lemma BuildUpKeepsKnows(s: State, i: nat, ok: bool)
    requires Inv(s) && Enabled(s, RestartStep(i, ok)) && !TearsDown(s.restarts[i])
    ensures var s' := ApplyRestart(s, i, ok);
      RestartKnows(s', OwnerPc(s'))
  {
    RestartStepOwner(s, i, ok);
    assert Booted(s);
  }

  lemma RestartStepKeepsKnows(s: State, i: nat, ok: bool)
    requires Inv(s) && Enabled(s, RestartStep(i, ok))
    ensures var s' := ApplyRestart(s, i, ok);
      RestartKnows(s', OwnerPc(s'))
  {
    if TearsDown(s.restarts[i]) {
      TearDownKeepsKnows(s, i, ok);
    } else {
      BuildUpKeepsKnows(s, i, ok);
    }
  }

  lemma RestartStepKeepsPublished(s: State, i: nat, ok: bool)
    requires Inv(s) && Enabled(s, RestartStep(i, ok))
    ensures var s' := ApplyRestart(s, i, ok);
      && s'.wg < |s'.sets| && (s'.cancel == s'.wg || OwnerPc(s') == PublishedCancel(s'.cancel))
      && (s'.main.ShutDone? ==> !OwnerPc(s').Starting? && !BuildsSome(OwnerPc(s')))
  {
    RestartStepOwner(s, i, ok);
    assert Booted(s);
  }

  lemma RestartStepKeepsMain(s: State, i: nat, ok: bool)
    requires Inv(s) && Enabled(s, RestartStep(i, ok))
    ensures MainKnows(ApplyRestart(s, i, ok))
  {
    RestartStepOwner(s, i, ok);
    assert Booted(s);
  }

  lemma RestartStepKeepsKnown(s: State, i: nat, ok: bool)
    requires Inv(s) && Enabled(s, RestartStep(i, ok))
    ensures Known(ApplyRestart(s, i, ok))
  {
    RestartStepKeepsKnows(s, i, ok);
    RestartStepKeepsPublished(s, i, ok);
    RestartStepKeepsMain(s, i, ok);
    assert Booted(s);
    assert ApplyRestart(s, i, ok).main == s.main && ApplyRestart(s, i, ok).runtimeCancelled == s.runtimeCancelled;
  }

  lemma RestartStepKeepsAccounted(s: State, i: nat, ok: bool)
    requires Inv(s) && Enabled(s, RestartStep(i, ok))
    ensures Accounted(ApplyRestart(s, i, ok))
  {
    RestartStepOwner(s, i, ok);
    var s' := ApplyRestart(s, i, ok);
    assert s'.main == s.main && Booted(s);
    forall x | 0 <= x < |s'.sets| && s'.sets[x].running
      ensures x == s'.wg || Builds(OwnerPc(s'), x)
    {
      if x < |s.sets| {
        assert s.sets[x].running && (x == s.wg || Builds(OwnerPc(s), x));
      }
    }
  }

  lemma RestartStepKeepsInv(s: State, i: nat, ok: bool)
    requires Inv(s) && Enabled(s, RestartStep(i, ok))
    ensures Inv(ApplyRestart(s, i, ok))
  {
    RestartStepKeepsLocks(s, i, ok);
    RestartStepKeepsKnown(s, i, ok);
    RestartStepKeepsAccounted(s, i, ok);
  }

  lemma MainStepKeepsLocks(s: State, ok: bool)
    requires Inv(s) && MainEnabled(s, ok)
    ensures LocksMatch(ApplyMain(s, ok)) && OwnerPc(ApplyMain(s, ok)) == OwnerPc(s)
  {
  }

  lemma MainStepKeepsMain(s: State, ok: bool)
    requires Inv(s) && MainEnabled(s, ok)
    ensures MainKnows(ApplyMain(s, ok))
  {
    MainStepKeepsLocks(s, ok);
  }

  lemma MainStepKeepsRestart(s: State, ok: bool)
    requires Inv(s) && MainEnabled(s, ok)
    ensures RestartKnows(ApplyMain(s, ok), OwnerPc(s))
  {
  }

  lemma MainStepKeepsKnown(s: State, ok: bool)
    requires Inv(s) && MainEnabled(s, ok)
    ensures Known(ApplyMain(s, ok))
  {
    MainStepKeepsLocks(s, ok);
    MainStepKeepsMain(s, ok);
    MainStepKeepsRestart(s, ok);
  }

  lemma MainStepKeepsAccounted(s: State, ok: bool)
    requires Inv(s) && MainEnabled(s, ok)
    ensures Accounted(ApplyMain(s, ok))
  {
    MainStepKeepsLocks(s, ok);
    var s' := ApplyMain(s, ok);
    forall x | 0 <= x < |s'.sets| && s'.sets[x].running
      ensures (Booted(s') && x == s'.wg) || MainBuilds(s'.main, x) || Builds(OwnerPc(s'), x)
    {
      assert x < |s.sets| ==> s.sets[x].running;
    }
  }

  lemma ReloadKeepsInv(s: State)
    requires Inv(s) && Enabled(s, Reload)
    ensures Inv(Apply(s, Reload))
  {
    var s' := Apply(s, Reload);
    assert OwnerPc(s') == OwnerPc(s);
    forall i | 0 <= i < |s'.restarts| ensures s'.restartMu == Restart(i) <==> Holds(s'.restarts[i]) {
      assert i < |s.restarts| ==> s'.restarts[i] == s.restarts[i];
    }
  }

  lemma CancelRuntimeKeepsInv(s: State)
    requires Inv(s)
    ensures Inv(Apply(s, CancelRuntime))
  {
    assert OwnerPc(Apply(s, CancelRuntime)) == OwnerPc(s);
  }

  lemma ExitKeepsInv(s: State, x: nat)
    requires Inv(s) && Enabled(s, Exit(x))
    ensures Inv(Apply(s, Exit(x)))
  {
    assert OwnerPc(Apply(s, Exit(x))) == OwnerPc(s);
  }

  lemma StepKeepsInv(s: State, step: Step)
    requires Inv(s) && Enabled(s, step)
    ensures Inv(Apply(s, step))
  {
    match step
    case Reload => ReloadKeepsInv(s);
    case CancelRuntime => CancelRuntimeKeepsInv(s);
    case Exit(x) => ExitKeepsInv(s, x);
    case RestartStep(i, ok) => RestartStepKeepsInv(s, i, ok);
    case MainStep(ok) =>
      MainStepKeepsLocks(s, ok);
      MainStepKeepsKnown(s, ok);
      MainStepKeepsAccounted(s, ok);
  }

  lemma {:induction false} RunKeepsInv(from: State, steps: seq<Step>, to: State)
    requires Inv(from) && Run(from, steps, to)
    ensures Inv(to)
    decreases |steps|
  {
    if steps != [] {
      StepKeepsInv(from, steps[0]);
      RunKeepsInv(Apply(from, steps[0]), steps[1..], to);
    }
  }

  lemma InitKeepsInv()
    ensures Inv(INIT)
  {
  }

  lemma ReachableKeepsInv(s: State)
    requires Reachable(s)
    ensures Inv(s)
  {
    var steps :| Run(INIT, steps, s);
    InitKeepsInv();
    RunKeepsInv(INIT, steps, s);
  }

  /** Over every interleaving of boot, reloads, failed restarts and shutdown, no two
      poller sets ever have goroutines at the same time. */
  lemma AtMostOneSetIsLive(s: State, x: nat, y: nat)
    requires Reachable(s) && x < |s.sets| && y < |s.sets| && s.sets[x].running && s.sets[y].running
    ensures x == y
  {
    ReachableKeepsInv(s);
    OneOwner(s, x, y);
  }

  lemma OneOwner(s: State, x: nat, y: nat)
    requires Inv(s) && x < |s.sets| && y < |s.sets| && s.sets[x].running && s.sets[y].running
    ensures x == y
  {
  }

  /** Once the shutdown defer has finished, no set is live, and none ever is again. */
  lemma NothingLivesAfterShutdown(s: State, steps: seq<Step>, later: State, x: nat)
    requires Reachable(s) && s.main.ShutDone? && Run(s, steps, later) && x < |later.sets|
    ensures !later.sets[x].running
  {
    ReachableKeepsInv(s);
    ShutDoneStays(s, steps, later);
    NoneLeft(later, x);
  }

  lemma NoneLeft(s: State, x: nat)
    requires Inv(s) && s.main.ShutDone? && x < |s.sets|
    ensures !s.sets[x].running
  {
  }

  lemma {:induction false} ShutDoneStays(s: State, steps: seq<Step>, later: State)
    requires Inv(s) && s.main.ShutDone? && Run(s, steps, later)
    ensures Inv(later) && later.main.ShutDone?
    decreases |steps|
  {
    if steps != [] {
      StepKeepsInv(s, steps[0]);
      ShutDoneStays(Apply(s, steps[0]), steps[1..], later);
    }
  }

  /** A step the daemon takes by itself. */
  predicate Internal(step: Step) {
    step.Exit? || step.RestartStep? || step.MainStep?
  }

  /** How many steps a restart has left at most, the exit of the set it starts included. */
  function RestartRank(pc: RestartPc): nat {
    match pc
    case Waiting => 13
    case Locked => 12
    case ReadCancel(_) => 11
    case Snapshot(_, _) => 10
    case Draining(_) => 9
    case Drained => 8
    case Starting => 7
    case Bridging(_) => 5
    case Failing(_) => 2
    case Started(_) => 4
    case Stopping(_) => 2
    case Publishing(_) => 3
    case PublishedCancel(_) => 2
    case Leaving => 1
    case Done => 0
  }

  function MainRank(pc: MainPc): nat {
    match pc
    case Boot => 13
    case BootBridging(_) => 11
    case BootFailing(_) => 1
    case Aborted => 0
    case Running => 10
    case StopReadCancel(_) => 9
    case StopSnapshot(_) => 8
    case StopCancelled => 7
    case ShutCancelled => 6
    case ShutLocked => 5
    case ShutReadCancel(_) => 4
    case ShutSnapshot(_, _) => 3
    case ShutDraining(_) => 2
    case ShutLeaving => 1
    case ShutDone => 0
  }

  function Ranks(restarts: seq<RestartPc>): nat {
    if restarts == [] then 0 else RestartRank(restarts[0]) + Ranks(restarts[1..])
  }

  function RunningSets(sets: seq<PollerSet>): nat {
    if sets == [] then 0 else (if sets[0].running then 1 else 0) + RunningSets(sets[1..])
  }

  function Measure(s: State): nat {
    MainRank(s.main) + Ranks(s.restarts) + RunningSets(s.sets)
  }

  lemma {:induction false} RanksUpdate(restarts: seq<RestartPc>, i: nat, pc: RestartPc)
    requires i < |restarts|
    ensures Ranks(restarts[i := pc]) == Ranks(restarts) - RestartRank(restarts[i]) + RestartRank(pc)
  {
    if i == 0 {
      assert restarts[i := pc][1..] == restarts[1..];
    } else {
      RanksUpdate(restarts[1..], i - 1, pc);
      assert restarts[i := pc][1..] == restarts[1..][i - 1 := pc];
    }
  }

  lemma {:induction false} RunningSetsUpdate(sets: seq<PollerSet>, x: nat, set': PollerSet)
    requires x < |sets|
    ensures RunningSets(sets[x := set']) ==
            RunningSets(sets) - (if sets[x].running then 1 else 0) + (if set'.running then 1 else 0)
  {
    if x == 0 {
      assert sets[x := set'][1..] == sets[1..];
    } else {
      RunningSetsUpdate(sets[1..], x - 1, set');
      assert sets[x := set'][1..] == sets[1..][x - 1 := set'];
    }
  }

  lemma {:induction false} RunningSetsAppend(sets: seq<PollerSet>)
    ensures RunningSets(sets + [PollerSet(false, true)]) == RunningSets(sets) + 1
  {
    if sets == [] {
      assert ([PollerSet(false, true)])[1..] == [];
    } else {
      RunningSetsAppend(sets[1..]);
      assert (sets + [PollerSet(false, true)])[1..] == sets[1..] + [PollerSet(false, true)];
    }
  }

  lemma CancelKeepsRunning(s: State, x: nat)
    ensures RunningSets(CancelSet(s, x)) == RunningSets(s.sets)
  {
    if x < |s.sets| {
      RunningSetsUpdate(s.sets, x, s.sets[x].(cancelled := true));
    }
  }

  lemma RestartStepSets(s: State, i: nat, ok: bool)
    requires i < |s.restarts| && RestartEnabled(s, s.restarts[i])
    ensures RunningSets(ApplyRestart(s, i, ok).sets) == RunningSets(s.sets) + (if s.restarts[i].Starting? then 1 else 0)
  {
    match s.restarts[i]
    case Snapshot(c, _) => CancelKeepsRunning(s, c);
    case Bridging(x) => CancelKeepsRunning(s, x);
    case Started(x) => CancelKeepsRunning(s, x);
    case Starting => RunningSetsAppend(s.sets);
    case _ =>
  }

  lemma RestartStepRank(s: State, i: nat, ok: bool)
    requires i < |s.restarts| && RestartEnabled(s, s.restarts[i])
    ensures var s' := ApplyRestart(s, i, ok);
      && s'.restarts == s.restarts[i := s'.restarts[i]] && s'.main == s.main
      && RestartRank(s'.restarts[i]) + (if s.restarts[i].Starting? then 1 else 0) < RestartRank(s.restarts[i])
  {
  }

  lemma RestartStepDescends(s: State, i: nat, ok: bool)
    requires i < |s.restarts| && RestartEnabled(s, s.restarts[i])
    ensures Measure(ApplyRestart(s, i, ok)) < Measure(s)
  {
    RestartStepSets(s, i, ok);
    RestartStepRank(s, i, ok);
    RanksUpdate(s.restarts, i, ApplyRestart(s, i, ok).restarts[i]);
  }

  lemma MainStepSets(s: State, ok: bool)
    requires MainEnabled(s, ok)
    ensures RunningSets(ApplyMain(s, ok).sets) == RunningSets(s.sets) + (if s.main.Boot? then 1 else 0)
  {
    match s.main
    case Boot => RunningSetsAppend(s.sets);
    case BootBridging(x) => CancelKeepsRunning(s, x);
    case StopSnapshot(c) => CancelKeepsRunning(s, c);
    case ShutSnapshot(c, _) => CancelKeepsRunning(s, c);
    case _ =>
  }

  lemma MainStepRank(s: State, ok: bool)
    requires MainEnabled(s, ok)
    ensures var s' := ApplyMain(s, ok);
      s'.restarts == s.restarts && MainRank(s'.main) + (if s.main.Boot? then 1 else 0) < MainRank(s.main)
  {
  }

  lemma MainStepDescends(s: State, ok: bool)
    requires MainEnabled(s, ok)
    ensures Measure(ApplyMain(s, ok)) < Measure(s)
  {
    MainStepSets(s, ok);
    MainStepRank(s, ok);
  }

  /** Every internal step brings the daemon closer to rest. */
  lemma InternalStepsDescend(s: State, step: Step)
    requires Enabled(s, step) && Internal(step)
    ensures Measure(Apply(s, step)) < Measure(s)
  {
    match step
    case Exit(x) => RunningSetsUpdate(s.sets, x, s.sets[x].(running := false));
    case RestartStep(i, ok) => RestartStepDescends(s, i, ok);
    case MainStep(ok) => MainStepDescends(s, ok);
  }

  /** Whatever shutdown waits for, some step other than a new reload can be taken. */
  lemma ShutdownIsNeverStuck(s: State) returns (step: Step)
    requires Reachable(s) && Shutting(s.main) && !s.main.ShutDone?
    ensures Enabled(s, step) && Internal(step)
  {
    ReachableKeepsInv(s);
    if s.main.ShutCancelled? && !s.restartMu.Free? {
      step := OwnerCanStep(s);
    } else if s.main.ShutLocked? && !s.cfgMu.Free? {
      assert false;
    } else if s.main.ShutDraining? {
      step := if s.sets[s.main.w].running then Exit(s.main.w) else MainStep(true);
    } else {
      step := MainStep(true);
    }
  }

  /** The restart that holds the lock can take a step, or the set it waits for can leave. */
  lemma OwnerCanStep(s: State) returns (step: Step)
    requires Inv(s) && Booted(s) && !s.cfgMu.Main? && s.restartMu.Restart?
    ensures Enabled(s, step) && (step.RestartStep? || step.Exit?)
  {
    var i := s.restartMu.i;
    match s.restarts[i]
    case Draining(w) => step := if s.sets[w].running then Exit(w) else RestartStep(i, true);
    case Failing(x) => step := if s.sets[x].running then Exit(x) else RestartStep(i, true);
    case Stopping(x) => step := if s.sets[x].running then Exit(x) else RestartStep(i, true);
    case _ => step := RestartStep(i, true);
  }

  /** Shutdown completes: from any state it has begun in, a run without further reloads
      has bounded length, and where it can go no further the defer has finished. */
  lemma {:induction false} ShutdownCompletes(s: State, steps: seq<Step>, to: State)
    requires Reachable(s) && Shutting(s.main) && Run(s, steps, to)
    requires forall i :: 0 <= i < |steps| ==> Internal(steps[i])
    ensures |steps| + Measure(to) <= Measure(s)
    ensures (forall step :: Enabled(to, step) ==> !Internal(step)) ==> to.main.ShutDone?
    decreases |steps|
  {
    if steps == [] {
      if !s.main.ShutDone? {
        var step := ShutdownIsNeverStuck(s);
      }
    } else {
      InternalStepsDescend(s, steps[0]);
      ReachableOneMore(s, steps[0]);
      ShutdownCompletes(Apply(s, steps[0]), steps[1..], to);
    }
  }

  lemma ReachableOneMore(s: State, step: Step)
    requires Reachable(s) && Enabled(s, step)
    ensures Reachable(Apply(s, step))
  {
    var before :| Run(INIT, before, s);
    RunSnoc(INIT, before, s, step);
  }

  lemma {:induction false} RunSnoc(from: State, steps: seq<Step>, to: State, step: Step)
    requires Run(from, steps, to) && Enabled(to, step)
    ensures Run(from, steps + [step], Apply(to, step))
    decreases |steps|
  {
    if steps == [] {
      assert [step][1..] == [];
    } else {
      RunSnoc(Apply(from, steps[0]), steps[1..], to, step);
      assert (steps + [step])[1..] == steps[1..] + [step];
    }
  }
}
