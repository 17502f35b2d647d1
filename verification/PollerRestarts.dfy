/** What a reload comes to: a new poller set is started, published, and left running. */
module PollerRestarts {
  import opened Pollers

  /** A boot whose start succeeds leaves the daemon running, with its first set published. */
  lemma BootPublishes() returns (s: State)
    ensures Reachable(s) && s.main.Running? && !s.runtimeCancelled
    ensures s.cancel == s.wg < |s.sets| && s.sets[s.wg] == PollerSet(false, true)
  {
    var steps := [MainStep(true), MainStep(true)];
    var booting := Apply(INIT, MainStep(true));
    s := Apply(booting, MainStep(true));
    assert steps[1..] == [MainStep(true)] && [MainStep(true)][1..] == [];
    assert Run(booting, [MainStep(true)], s);
    assert Run(INIT, steps, s);
  }

  predicate At(s: State, i: nat, step: Step) {
    step.RestartStep? && step.i == i && i < |s.restarts|
  }

  /** Restart i's start of a set fails at this step. */
  predicate FailsStart(s: State, i: nat, step: Step) {
    At(s, i, step) && s.restarts[i].Bridging? && !step.ok
  }

  /** Restart i completes the published pair at this step. */
  predicate Publishes(s: State, i: nat, step: Step) {
    At(s, i, step) && s.restarts[i].PublishedCancel?
  }

  /** Some restart cancels set w, which it found published, at this step. */
  predicate Calls(s: State, w: nat, step: Step) {
    step.RestartStep? && step.i < |s.restarts| && s.restarts[step.i].Snapshot? && s.restarts[step.i].c == w
  }

  ghost predicate EverPublishes(s: State, steps: seq<Step>, i: nat)
    decreases |steps|
  {
    steps != [] && Enabled(s, steps[0]) &&
    (Publishes(s, i, steps[0]) || EverPublishes(Apply(s, steps[0]), steps[1..], i))
  }

  ghost predicate EverFailsStart(s: State, steps: seq<Step>, i: nat)
    decreases |steps|
  {
    steps != [] && Enabled(s, steps[0]) &&
    (FailsStart(s, i, steps[0]) || EverFailsStart(Apply(s, steps[0]), steps[1..], i))
  }

  ghost predicate EverCalls(s: State, steps: seq<Step>, w: nat)
    decreases |steps|
  {
    steps != [] && Enabled(s, steps[0]) &&
    (Calls(s, w, steps[0]) || EverCalls(Apply(s, steps[0]), steps[1..], w))
  }

  lemma StepOfRestart(s: State, step: Step, i: nat)
    requires Enabled(s, step) && i < |s.restarts|
    ensures var s' := Apply(s, step);
      && i < |s'.restarts| && (s.runtimeCancelled ==> s'.runtimeCancelled)
      && (!At(s, i, step) ==> s'.restarts[i] == s.restarts[i])
  {
  }

  lemma {:induction false} RuntimeStaysCancelled(s: State, steps: seq<Step>, to: State)
    requires Run(s, steps, to) && s.runtimeCancelled
    ensures to.runtimeCancelled
    decreases |steps|
  {
    if steps != [] {
      RuntimeStaysCancelled(Apply(s, steps[0]), steps[1..], to);
    }
  }

  /** On the way to publishing a set. */
  predicate UnderWay(pc: RestartPc) {
    !pc.Failing? && !pc.Stopping? && !pc.Leaving? && !pc.Done?
  }

  lemma WayOut(s: State, step: Step, i: nat)
    requires Enabled(s, step) && i < |s.restarts| && UnderWay(s.restarts[i])
    ensures var s' := Apply(s, step);
      i < |s'.restarts| &&
      (UnderWay(s'.restarts[i]) || Publishes(s, i, step) || FailsStart(s, i, step) || s'.runtimeCancelled)
  {
  }

  /** A restart that ends has published a set, unless its start failed or the runtime was
      cancelled. */
  lemma {:induction false} RestartPublishesUnlessStopped(s: State, steps: seq<Step>, to: State, i: nat)
    requires Run(s, steps, to) && i < |s.restarts| && UnderWay(s.restarts[i])
    requires i < |to.restarts| && to.restarts[i].Done?
    ensures EverPublishes(s, steps, i) || EverFailsStart(s, steps, i) || to.runtimeCancelled
    decreases |steps|
  {
    if steps != [] {
      var s' := Apply(s, steps[0]);
      WayOut(s, steps[0], i);
      if s'.runtimeCancelled {
        RuntimeStaysCancelled(s', steps[1..], to);
      } else if UnderWay(s'.restarts[i]) {
        RestartPublishesUnlessStopped(s', steps[1..], to, i);
      }
    }
  }

  /** While the daemon runs, the set a restart builds is the latest one, and it has not been
      cancelled unless the restart gives it up. */
  predicate Tidy(s: State) {
    s.main.Running? && BuildsSome(OwnerPc(s)) ==>
      var x := OwnerPc(s).x;
      x + 1 == |s.sets| && (UnderWay(OwnerPc(s)) ==> !s.sets[x].cancelled)
  }

  /** Goroutines leave only when told to. */
  ghost predicate Alive(s: State) {
    forall x :: 0 <= x < |s.sets| && !s.sets[x].cancelled && !s.runtimeCancelled ==> s.sets[x].running
  }

  lemma TearDownKeepsTidy(s: State, i: nat, ok: bool)
    requires Inv(s) && Tidy(s) && Enabled(s, RestartStep(i, ok)) && !BuildsSome(s.restarts[i])
    ensures Tidy(ApplyRestart(s, i, ok))
  {
    RestartStepOwner(s, i, ok);
  }

  lemma BuildUpKeepsTidy(s: State, i: nat, ok: bool)
    requires Inv(s) && Tidy(s) && Enabled(s, RestartStep(i, ok)) && BuildsSome(s.restarts[i])
    ensures Tidy(ApplyRestart(s, i, ok))
  {
    RestartStepOwner(s, i, ok);
  }

  lemma OtherStepKeepsOwner(s: State, step: Step)
    requires Inv(s) && Enabled(s, step) && !step.RestartStep?
    ensures OwnerPc(Apply(s, step)) == OwnerPc(s)
    ensures Apply(s, step).main.Running? && !s.main.Running? ==> s.restarts == []
  {
    if step.MainStep? {
      MainStepKeepsLocks(s, step.ok);
    }
  }

  lemma StepKeepsTidy(s: State, step: Step)
    requires Inv(s) && Tidy(s) && Enabled(s, step)
    ensures Tidy(Apply(s, step))
  {
    if step.RestartStep? {
      if BuildsSome(s.restarts[step.i]) {
        BuildUpKeepsTidy(s, step.i, step.ok);
      } else {
        TearDownKeepsTidy(s, step.i, step.ok);
      }
    } else {
      OtherStepKeepsOwner(s, step);
    }
  }

  lemma StepKeepsAlive(s: State, step: Step)
    requires Alive(s) && Enabled(s, step)
    ensures Alive(Apply(s, step))
  {
    var s' := Apply(s, step);
    forall x | 0 <= x < |s'.sets| && !s'.sets[x].cancelled && !s'.runtimeCancelled ensures s'.sets[x].running {
      SetsChange(s, step, x);
    }
  }

  /** What a step does to a set. */
  lemma SetsChange(s: State, step: Step, x: nat)
    requires Enabled(s, step) && x < |Apply(s, step).sets|
    ensures var set' := Apply(s, step).sets[x];
      && |s.sets| <= |Apply(s, step).sets|
      && (x >= |s.sets| ==> set' == PollerSet(false, true))
      && (x < |s.sets| ==> (s.sets[x].cancelled ==> set'.cancelled))
      && (x < |s.sets| && s.sets[x].running && !set'.running ==> s.sets[x].cancelled || s.runtimeCancelled)
  {
  }

  ghost predicate Sound(s: State) {
    Inv(s) && Tidy(s) && Alive(s)
  }

  lemma StepKeepsSound(s: State, step: Step)
    requires Sound(s) && Enabled(s, step)
    ensures Sound(Apply(s, step))
  {
    StepKeepsInv(s, step);
    StepKeepsTidy(s, step);
    StepKeepsAlive(s, step);
  }

  lemma {:induction false} RunKeepsSound(s: State, steps: seq<Step>, to: State)
    requires Sound(s) && Run(s, steps, to)
    ensures Sound(to)
    decreases |steps|
  {
    if steps != [] {
      StepKeepsSound(s, steps[0]);
      RunKeepsSound(Apply(s, steps[0]), steps[1..], to);
    }
  }

  lemma ReachableIsSound(s: State)
    requires Reachable(s)
    ensures Sound(s)
  {
    var steps :| Run(INIT, steps, s);
    InitKeepsInv();
    RunKeepsSound(INIT, steps, s);
  }

  /** The daemon runs on: neither its runtime is cancelled nor does main take a step. */
  predicate Calm(steps: seq<Step>) {
    forall i :: 0 <= i < |steps| ==> steps[i].Reload? || steps[i].Exit? || steps[i].RestartStep?
  }

  ghost predicate RunsOn(s: State) {
    Sound(s) && s.main.Running? && !s.runtimeCancelled
  }

  /** While the daemon runs on, the published set only ever gives way to a later one, which
      is not cancelled then. */
  lemma PublishedMovesOn(s: State, step: Step)
    requires RunsOn(s) && Enabled(s, step) && (step.Reload? || step.Exit? || step.RestartStep?)
    ensures var s' := Apply(s, step);
      && RunsOn(s') && s.wg < |s.sets| <= |s'.sets| && s.wg <= s'.wg
      && (s'.wg != s.wg ==> s'.wg < |s.sets| && !s.sets[s'.wg].cancelled)
  {
    StepKeepsSound(s, step);
    assert Booted(s);
    if step.RestartStep? {
      RestartStepOwner(s, step.i, step.ok);
    }
  }

  /** Where restart i stands: any set it builds is new, and once it is done the published
      set is. */
  predicate Progress(s: State, i: nat, first: nat) {
    && i < |s.restarts| && first <= |s.sets|
    && !s.restarts[i].Failing? && !s.restarts[i].Stopping?
    && (BuildsSome(s.restarts[i]) ==> s.restarts[i].x >= first)
    && (s.restarts[i].Leaving? || s.restarts[i].Done? ==> s.wg >= first)
  }

  lemma StepKeepsProgress(s: State, step: Step, i: nat, first: nat)
    requires RunsOn(s) && Enabled(s, step) && (step.Reload? || step.Exit? || step.RestartStep?)
    requires Progress(s, i, first) && !FailsStart(s, i, step)
    ensures Progress(Apply(s, step), i, first)
  {
    PublishedMovesOn(s, step);
    StepOfRestart(s, step, i);
    if At(s, i, step) {
      assert Booted(s);
    }
  }

  lemma {:induction false} ProgressIsKept(s: State, steps: seq<Step>, to: State, i: nat, first: nat)
    requires RunsOn(s) && Run(s, steps, to) && Calm(steps)
    requires Progress(s, i, first) && !EverFailsStart(s, steps, i)
    ensures RunsOn(to) && Progress(to, i, first)
    decreases |steps|
  {
    if steps != [] {
      PublishedMovesOn(s, steps[0]);
      StepKeepsProgress(s, steps[0], i, first);
      ProgressIsKept(Apply(s, steps[0]), steps[1..], to, i, first);
    }
  }

  /** A set that was cancelled before it was published never is. */
  lemma {:induction false} GivenUpStaysUnpublished(s: State, steps: seq<Step>, to: State, w: nat)
    requires RunsOn(s) && Run(s, steps, to) && Calm(steps)
    requires w < |s.sets| && s.sets[w].cancelled && w != s.wg
    ensures to.wg != w
    decreases |steps|
  {
    if steps != [] {
      PublishedMovesOn(s, steps[0]);
      SetsChange(s, steps[0], w);
      GivenUpStaysUnpublished(Apply(s, steps[0]), steps[1..], to, w);
    }
  }

  /** How a set comes to be cancelled while the daemon runs on. */
  lemma WhyCancelled(s: State, step: Step, w: nat)
    requires RunsOn(s) && Enabled(s, step) && (step.Reload? || step.Exit? || step.RestartStep?)
    requires w < |Apply(s, step).sets| && Apply(s, step).sets[w].cancelled && (w < |s.sets| ==> !s.sets[w].cancelled)
    ensures Calls(s, w, step) || Apply(s, step).wg != w
  {
    assert Booted(s);
    SetsChange(s, step, w);
    if step.RestartStep? {
      RestartStepOwner(s, step.i, step.ok);
    }
  }

  lemma {:induction false} UncalledIsUncancelled(s: State, steps: seq<Step>, to: State, w: nat)
    requires RunsOn(s) && Run(s, steps, to) && Calm(steps) && !EverCalls(s, steps, w)
    requires to.wg == w && w < |to.sets| && (w < |s.sets| ==> !s.sets[w].cancelled)
    ensures !to.sets[w].cancelled
    decreases |steps|
  {
    if steps != [] {
      var s' := Apply(s, steps[0]);
      PublishedMovesOn(s, steps[0]);
      if w < |s'.sets| && s'.sets[w].cancelled {
        WhyCancelled(s, steps[0], w);
        GivenUpStaysUnpublished(s', steps[1..], to, w);
        assert false;
      }
      UncalledIsUncancelled(s', steps[1..], to, w);
    }
  }

  /** A reload is served: once its restart is done, and unless its start failed, the published
      pair names a set started since, or a later restart is just replacing the pair; and that
      set runs, unless a later restart has cancelled it. */
  lemma RestartPublishesNewSet(s: State, steps: seq<Step>, to: State, i: nat)
    requires Reachable(s) && s.main.Running? && !s.runtimeCancelled
    requires i < |s.restarts| && s.restarts[i].Waiting?
    requires Run(s, steps, to) && Calm(steps) && !EverFailsStart(s, steps, i)
    requires i < |to.restarts| && to.restarts[i].Done?
    ensures |s.sets| <= to.wg < |to.sets|
    ensures to.cancel == to.wg || OwnerPc(to) == PublishedCancel(to.cancel)
    ensures !EverCalls(s, steps, to.wg) ==> to.sets[to.wg] == PollerSet(false, true)
  {
    ReachableIsSound(s);
    ProgressIsKept(s, steps, to, i, |s.sets|);
    assert Booted(to);
    if !EverCalls(s, steps, to.wg) {
      UncalledIsUncancelled(s, steps, to, to.wg);
      assert to.sets[to.wg].running;
    }
  }

  /** Some restart is not done: then one can take a step, or the set it waits for can leave. */
  lemma SomeRestartCanStep(s: State, i: nat) returns (step: Step)
    requires Inv(s) && s.main.Running? && i < |s.restarts| && !s.restarts[i].Done?
    ensures Enabled(s, step) && (step.RestartStep? || step.Exit?)
  {
    if s.restartMu.Restart? {
      step := OwnerCanStep(s);
    } else {
      step := RestartStep(i, true);
    }
  }

  /** No restart can take a step, and no set can leave. */
  ghost predicate Settled(s: State) {
    forall step :: Enabled(s, step) ==> !step.RestartStep? && !step.Exit?
  }

  predicate AllDone(s: State) {
    forall i :: 0 <= i < |s.restarts| ==> s.restarts[i].Done?
  }

  lemma SettledIsDone(s: State)
    requires Inv(s) && s.main.Running? && Settled(s)
    ensures AllDone(s)
  {
    forall i | 0 <= i < |s.restarts| ensures s.restarts[i].Done? {
      if !s.restarts[i].Done? {
        var step := SomeRestartCanStep(s, i);
      }
    }
  }

  /** Every reload is served in the end: while main runs, restarts take a bounded number of
      steps, and where they can go no further all of them are done. */
  lemma {:induction false} RestartsFinish(s: State, steps: seq<Step>, to: State)
    requires Reachable(s) && s.main.Running? && Run(s, steps, to)
    requires forall i :: 0 <= i < |steps| ==> steps[i].RestartStep? || steps[i].Exit?
    ensures |steps| + Measure(to) <= Measure(s)
    ensures Settled(to) ==> AllDone(to)
    decreases |steps|
  {
    if steps == [] {
      ReachableKeepsInv(s);
      if Settled(s) {
        SettledIsDone(s);
      }
    } else {
      InternalStepsDescend(s, steps[0]);
      ReachableOneMore(s, steps[0]);
      RestartsFinish(Apply(s, steps[0]), steps[1..], to);
    }
  }

  lemma {:induction false} CalmRunsOn(s: State, steps: seq<Step>, to: State)
    requires RunsOn(s) && Run(s, steps, to) && Calm(steps)
    ensures RunsOn(to) && |s.restarts| <= |to.restarts|
    decreases |steps|
  {
    if steps != [] {
      PublishedMovesOn(s, steps[0]);
      CalmRunsOn(Apply(s, steps[0]), steps[1..], to);
    }
  }

  /** From a reload to where its restart and all others have come to rest: what is published
      then was started since, and runs, unless some start has failed. */
  lemma ReloadIsServed(s: State, steps: seq<Step>, to: State)
    requires Reachable(s) && s.main.Running? && !s.runtimeCancelled
    requires steps != [] && steps[0].Reload? && Calm(steps) && Run(s, steps, to) && Settled(to)
    requires !EverFailsStart(s, steps, |s.restarts|)
    ensures |s.sets| <= to.wg < |to.sets| && to.cancel == to.wg
    ensures !EverCalls(s, steps, to.wg) ==> to.sets[to.wg] == PollerSet(false, true)
  {
    var s', i := Apply(s, Reload), |s.restarts|;
    ReachableOneMore(s, Reload);
    ReachableIsSound(s');
    CalmRunsOn(s', steps[1..], to);
    SettledIsDone(to);
    RestartPublishesNewSet(s', steps[1..], to, i);
  }

  /** Main stops the producers: what it is about to cancel, and has cancelled then. */
  predicate Stopping(s: State, c: nat) {
    c < |s.sets| &&
    match s.main
    case StopReadCancel(x) => x == c
    case StopSnapshot(x) => x == c
    case StopCancelled => s.sets[c].cancelled
    case _ => false
  }

  /** The stop of the producers cancels the set that was published when it took the lock. */
  lemma {:induction false} StopReachesPublished(s: State, steps: seq<Step>, to: State, c: nat)
    requires Stopping(s, c) && Run(s, steps, to) && to.main.StopCancelled?
    ensures Cancelled(to, c)
    decreases |steps|
  {
    if steps != [] {
      var s' := Apply(s, steps[0]);
      SetsChange(s, steps[0], c);
      if s'.main.ShutCancelled? {
        StopIsPast(s', steps[1..], to);
      } else {
        StopReachesPublished(s', steps[1..], to, c);
      }
    }
  }

  lemma {:induction false} StopIsPast(s: State, steps: seq<Step>, to: State)
    requires Shutting(s.main) && Run(s, steps, to)
    ensures Shutting(to.main)
    decreases |steps|
  {
    if steps != [] {
      StopIsPast(Apply(s, steps[0]), steps[1..], to);
    }
  }

  /** It takes the lock while a set is published, whole, and names that set. */
  lemma StopReadsPublished(s: State)
    requires Reachable(s) && s.main.Running? && Enabled(s, MainStep(true))
    ensures Stopping(Apply(s, MainStep(true)), s.wg)
  {
    ReachableKeepsInv(s);
    assert Booted(s);
  }
}
