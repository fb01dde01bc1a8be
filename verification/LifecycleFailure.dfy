/** What the published state is worth: how long Failed lasts, and what a late or second call does to it. */
module LifecycleFailure {
  import opened Tallies
  import opened Lifecycle
  import opened LifecycleShape
  import opened LifecycleSync
  import opened LifecycleProgress

  // ----- how long Failed lasts -----

  /** A thread has read the state before it was Failed and will store over it. */
  ghost predicate StaleLoad(s: Service) {
    || (exists w :: 0 <= w < |s.workers| && s.workers[w].pc.CompletionStore?)
    || s.supervisor.StoreStopped?
    || s.caller.RequestStore? || s.caller.StopStore?
  }

  /** Failed with nobody about to store over it, or stop() is past its last look at the state. */
  ghost predicate FailureSafe(s: Service) { Released(s.caller) || (s.phase.Failed? && !StaleLoad(s)) }

  lemma LoopKeepsPhase(cfg: Config, s: Service, w: nat, o: Outcome)
    requires WorkerEnabled(s, w, o) && InLoop(s.workers[w].pc) && |cfg.thresholds| == |s.workers|
    ensures LoopNext(cfg, s, w, o).phase == s.phase
  {
  }

  /** A worker's step leaves Failed alone unless it carries a stale load, and takes none while the state is Failed. */
  lemma WorkerKeepsFailed(cfg: Config, s: Service, w: nat, o: Outcome)
    requires s.phase.Failed? && WorkerEnabled(s, w, o) && |cfg.thresholds| == |s.workers| && !s.workers[w].pc.CompletionStore?
    ensures var t := WorkerNext(cfg, s, w, o);
            && t.phase.Failed? && w < |t.workers| && t.workers == s.workers[w := t.workers[w]]
            && !t.workers[w].pc.CompletionStore?
  {
    WorkerStepAdvances(cfg, s, w, o);
    if InLoop(s.workers[w].pc) {
      LoopKeepsPhase(cfg, s, w, o);
      LoopNeverStores(cfg, s, w, o);
    } else if AtBarrier(s.workers[w].pc) {
      BarrierKeepsFailed(s, w, o);
    } else {
      EndingKeepsFailed(s, w, o);
    }
  }

  lemma BarrierKeepsFailed(s: Service, w: nat, o: Outcome)
    requires s.phase.Failed? && WorkerEnabled(s, w, o) && AtBarrier(s.workers[w].pc)
    ensures var t := BarrierNext(s, w, o); t.phase.Failed? && w < |t.workers| && !t.workers[w].pc.CompletionStore?
  {
  }

  lemma EndingKeepsFailed(s: Service, w: nat, o: Outcome)
    requires s.phase.Failed? && WorkerEnabled(s, w, o) && !AtBarrier(s.workers[w].pc) && !InLoop(s.workers[w].pc)
    requires !s.workers[w].pc.CompletionStore?
    ensures var t := EndingNext(s, w, o); t.phase.Failed? && w < |t.workers| && !t.workers[w].pc.CompletionStore?
  {
  }

  lemma FlushNeverStores(s: Service, w: nat, part: nat, next: WorkerPc)
    requires w < |s.workers| && !next.CompletionStore?
    ensures var t := FlushPart(s, w, part, next); w < |t.workers| && !t.workers[w].pc.CompletionStore?
  {
  }

  lemma LoopNeverStores(cfg: Config, s: Service, w: nat, o: Outcome)
    requires WorkerEnabled(s, w, o) && InLoop(s.workers[w].pc) && |cfg.thresholds| == |s.workers|
    ensures var t := LoopNext(cfg, s, w, o); w < |t.workers| && !t.workers[w].pc.CompletionStore?
  {
    var pc := s.workers[w].pc;
    if pc.Flush? {
      FlushNeverStores(s, w, pc.part, if pc.part < 2 then Flush(pc.part + 1, pc.after) else AfterFlush(pc.after));
    }
  }

  lemma WorkerKeepsSafe(cfg: Config, s: Service, w: nat, o: Outcome)
    requires FailureSafe(s) && !Released(s.caller) && WorkerEnabled(s, w, o) && |cfg.thresholds| == |s.workers|
    ensures FailureSafe(WorkerNext(cfg, s, w, o))
  {
    assert !s.workers[w].pc.CompletionStore?;
    WorkerKeepsFailed(cfg, s, w, o);
    WorkerStepLocal(cfg, s, w, o);
  }

  lemma SupervisorKeepsSafe(s: Service, throws: bool)
    requires Sound(s) && FailureSafe(s) && !Released(s.caller) && SupervisorEnabled(s, throws)
    ensures FailureSafe(SupervisorNext(s, throws))
  {
  }

  lemma StepKeepsSafe(cfg: Config, s: Service, step: Step)
    requires Sound(s) && FailureSafe(s) && Enabled(s, step) && |cfg.thresholds| == |s.workers|
    ensures FailureSafe(Apply(cfg, s, step))
  {
    match step
    case WorkerStep(w, o) =>
      if Released(s.caller) {
        WorkerStepLocal(cfg, s, w, o);
      } else {
        WorkerKeepsSafe(cfg, s, w, o);
      }
    case SupervisorStep(throws) =>
      if !Released(s.caller) {
        SupervisorKeepsSafe(s, throws);
      }
    case SpuriousWakeup =>
    case CallerStep(_) =>
    case SecondStop =>
  }

  lemma {:induction false} SafeForGood(cfg: Config, run: seq<Service>, i: nat, j: nat)
    requires IsRun(cfg, run) && i <= j < |run| && FailureSafe(run[i])
    ensures FailureSafe(run[j])
    decreases j
  {
    if i < j {
      SafeForGood(cfg, run, i, j - 1);
      RunIsSound(cfg, run, j - 1);
      assert Follows(cfg, run, j);
      var step: Step :| Enabled(run[j - 1], step) && run[j] == Apply(cfg, run[j - 1], step);
      StepKeepsSafe(cfg, run[j - 1], step);
    }
  }

  /** A failure stays visible: if Failed is published and no store of an older reading is under way, the state reads
      Failed at every later moment of the run, until stop() has taken the supervisor over. */
  lemma FailedStays(cfg: Config, run: seq<Service>, i: nat, j: nat)
    requires IsRun(cfg, run) && i <= j < |run| && run[i].phase.Failed? && !StaleLoad(run[i])
    ensures run[j].phase.Failed? || Released(run[j].caller)
  {
    SafeForGood(cfg, run, i, j);
  }

  /** With a stale load the very next step can overwrite Failed. */
  lemma StaleLoadOverwrites(cfg: Config, s: Service) returns (step: Step)
    requires StaleLoad(s) && |cfg.thresholds| == |s.workers|
    ensures Enabled(s, step) && !Apply(cfg, s, step).phase.Failed?
    ensures !Released(s.caller) ==> !Released(Apply(cfg, s, step).caller)
  {
    if s.caller.RequestStore? || s.caller.StopStore? {
      step := CallerStep(false);
    } else if s.supervisor.StoreStopped? {
      step := SupervisorStep(false);
    } else {
      var w :| 0 <= w < |s.workers| && s.workers[w].pc.CompletionStore?;
      step := WorkerStep(w, Normal);
    }
  }

  ghost predicate Continues(cfg: Config, run: seq<Service>, longer: seq<Service>) {
    IsRun(cfg, longer) && |run| <= |longer| && longer[..|run|] == run
  }

  ghost predicate ShowsFailure(longer: seq<Service>, from: nat) {
    forall j: nat :: from <= j < |longer| ==> longer[j].phase.Failed? || Released(longer[j].caller)
  }

  /** Exactly when a failure can be relied on: at the end of a run that reads Failed, every continuation shows Failed until
      stop() has taken over if and only if no thread holds a stale load. */
  lemma FailedIsLastingExactly(cfg: Config, run: seq<Service>)
    requires IsRun(cfg, run) && run[|run| - 1].phase.Failed? && !Released(run[|run| - 1].caller)
    ensures !StaleLoad(run[|run| - 1]) <==>
            forall longer: seq<Service> :: Continues(cfg, run, longer) ==> ShowsFailure(longer, |run| - 1)
  {
    var last := |run| - 1;
    if StaleLoad(run[last]) {
      LosingContinuation(cfg, run);
    } else {
      forall longer: seq<Service> | Continues(cfg, run, longer) ensures ShowsFailure(longer, last) {
        assert longer[last] == longer[..|run|][last];
        forall j: nat | last <= j < |longer| ensures longer[j].phase.Failed? || Released(longer[j].caller) {
          FailedStays(cfg, longer, last, j);
        }
      }
    }
  }

  lemma LosingContinuation(cfg: Config, run: seq<Service>)
    requires IsRun(cfg, run) && StaleLoad(run[|run| - 1]) && !Released(run[|run| - 1].caller)
    ensures exists longer: seq<Service> :: Continues(cfg, run, longer) && !ShowsFailure(longer, |run| - 1)
  {
    RunIsSound(cfg, run, |run| - 1);
    var step := StaleLoadOverwrites(cfg, run[|run| - 1]);
    var longer := Extend(cfg, run, step);
    assert longer[..|run|] == run;
    assert !(longer[|run|].phase.Failed? || Released(longer[|run|].caller));
    assert Continues(cfg, run, longer) && !ShowsFailure(longer, |run| - 1);
  }

  lemma Extend(cfg: Config, run: seq<Service>, step: Step) returns (next: seq<Service>)
    requires IsRun(cfg, run) && |run[|run| - 1].workers| == |cfg.thresholds| && Enabled(run[|run| - 1], step)
    ensures next == run + [Apply(cfg, run[|run| - 1], step)] && IsRun(cfg, next)
  {
    next := run + [Apply(cfg, run[|run| - 1], step)];
    forall i: nat | 0 < i < |next| ensures Follows(cfg, next, i) {
      assert i < |run| ==> Follows(cfg, run, i);
    }
  }

  /** One worker, about to connect. */
  predicate OneConnecting(s: Service) {
    && |s.workers| == 1 && s.workers[0].pc.Connect? && s.phase.Connecting? && !s.stop
    && s.supervisor.Spawn? && s.caller.Idle? && !s.registered && !s.workers[0].stop
  }

  const ONE := Config([1], false)

  lemma StartsConnecting() returns (run: seq<Service>)
    ensures IsRun(ONE, run) && OneConnecting(run[|run| - 1]) && run[|run| - 1].connected == 0
  {
    run := [Started(1)];
    run := Extend(ONE, run, SupervisorStep(false));
    run := Extend(ONE, run, SupervisorStep(false));
    run := Extend(ONE, run, SupervisorStep(false));
  }

  /** request_stop has read Connecting and is about to store Stopping. */
  predicate AboutToStore(s: Service, pc: WorkerPc) {
    |s.workers| == 1 && s.caller.RequestStore? && !s.stop && s.workers[0].pc == pc
  }

  lemma RequestReadsEarly() returns (run: seq<Service>)
    ensures IsRun(ONE, run) && AboutToStore(run[|run| - 1], Connect)
  {
    run := StartsConnecting();
    run := Extend(ONE, run, CallerStep(false));
    run := Extend(ONE, run, CallerStep(false));
  }

  lemma ConnectIsRefused() returns (run: seq<Service>)
    ensures IsRun(ONE, run) && AboutToStore(run[|run| - 1], ErrorCount)
  {
    run := RequestReadsEarly();
    run := Extend(ONE, run, WorkerStep(0, Throws));
    assert AboutToStore(run[|run| - 1], Flush(0, ToError));
    run := Extend(ONE, run, WorkerStep(0, Normal));
    assert AboutToStore(run[|run| - 1], Flush(1, ToError));
    run := Extend(ONE, run, WorkerStep(0, Normal));
    assert AboutToStore(run[|run| - 1], Flush(2, ToError));
    run := Extend(ONE, run, WorkerStep(0, Normal));
  }

  /** Failed is not sticky: a run in which the refused connection publishes Failed and request_stop then overwrites it. */
  lemma FailedCanBeLost() returns (run: seq<Service>)
    ensures IsRun(ONE, run) && |run| > 1
    ensures run[|run| - 2].phase.Failed? && run[|run| - 1].phase.Stopping? && run[|run| - 1].errors > 0
  {
    run := ConnectIsRefused();
    run := Extend(ONE, run, WorkerStep(0, Normal));
    run := Extend(ONE, run, WorkerStep(0, Normal));
    run := Extend(ONE, run, CallerStep(false));
  }

  // ----- a late request_stop -----

  /** A request that comes before the supervisor has looked at the token: it ends at once, and shows Stopped. */
  lemma StopsBeforeStarting(cfg: Config) returns (run: seq<Service>)
    requires forall w :: 0 <= w < |cfg.thresholds| ==> cfg.thresholds[w] > 0
    ensures IsRun(cfg, run) && Ended(run[|run| - 1]) && run[|run| - 1].phase.Stopped?
    ensures |run[|run| - 1].workers| == |cfg.thresholds|
  {
    run := [Started(|cfg.thresholds|)];
    run := Extend(cfg, run, CallerStep(false));
    run := Extend(cfg, run, CallerStep(false));
    run := Extend(cfg, run, CallerStep(false));
    run := Extend(cfg, run, CallerStep(false));
    run := Extend(cfg, run, SupervisorStep(false));
    run := Extend(cfg, run, SupervisorStep(false));
  }

  /** The supervisor has ended, and no call is in progress. */
  predicate Ended(s: Service) { s.supervisor.Gone? && s.caller.Idle? && s.stop }

  lemma RequestAgain(cfg: Config, run: seq<Service>) returns (longer: seq<Service>)
    requires IsRun(cfg, run) && Ended(run[|run| - 1]) && run[|run| - 1].phase.Stopped? && |run[|run| - 1].workers| == |cfg.thresholds|
    ensures IsRun(cfg, longer) && |longer| == |run| + 4 && longer[..|run|] == run
    ensures longer[|longer| - 1] == run[|run| - 1].(phase := Stopping)
  {
    longer := Extend(cfg, run, CallerStep(false));
    longer := Extend(cfg, longer, CallerStep(false));
    longer := Extend(cfg, longer, CallerStep(false));
    longer := Extend(cfg, longer, CallerStep(false));
  }

  /** In every configuration there is a run whose state reads Stopped when everything has ended, and Stopping after a
      request_stop that comes later. */
  lemma LateRequestShowsStopping(cfg: Config) returns (run: seq<Service>)
    requires forall w :: 0 <= w < |cfg.thresholds| ==> cfg.thresholds[w] > 0
    ensures IsRun(cfg, run) && |run| > 4
    ensures var before, after := run[|run| - 5], run[|run| - 1];
            Ended(before) && before.phase.Stopped? && after == before.(phase := Stopping)
  {
    var stopped := StopsBeforeStarting(cfg);
    run := RequestAgain(cfg, stopped);
    assert run[|stopped| - 1] == run[..|stopped|][|stopped| - 1];
  }

  lemma GoneStepKeepsStopping(cfg: Config, s: Service, step: Step)
    requires Sound(s) && Enabled(s, step) && |cfg.thresholds| == |s.workers|
    requires Released(s.caller) || (s.supervisor.Gone? && s.phase.Stopping?)
    ensures var t := Apply(cfg, s, step); Released(t.caller) || (t.supervisor.Gone? && t.phase.Stopping?)
  {
    if step.WorkerStep? {
      WorkerStepLocal(cfg, s, step.worker, step.outcome);
    }
  }

  /** Nobody corrects it: once the supervisor has ended under a state that reads Stopping, it reads Stopping at every later
      moment of the run until a stop() has come to its join. */
  lemma {:induction false} StoppingStays(cfg: Config, run: seq<Service>, i: nat, j: nat)
    requires IsRun(cfg, run) && i <= j < |run| && run[i].supervisor.Gone? && run[i].phase.Stopping?
    ensures Released(run[j].caller) || (run[j].supervisor.Gone? && run[j].phase.Stopping?)
    decreases j
  {
    if i < j {
      StoppingStays(cfg, run, i, j - 1);
      RunIsSound(cfg, run, j - 1);
      assert Follows(cfg, run, j);
      var step: Step :| Enabled(run[j - 1], step) && run[j] == Apply(cfg, run[j - 1], step);
      GoneStepKeepsStopping(cfg, run[j - 1], step);
    }
  }

  // ----- a second stop() -----

  ghost predicate SomethingRuns(s: Service) {
    exists step: Step :: Enabled(s, step) && (step.WorkerStep? || step.SupervisorStep?)
  }

  /** A stop() that finds the supervisor already taken over stores Stopped and returns at once. It returns into a service
      at rest if and only if the first stop() has joined the supervisor, or could. */
  lemma SecondStopIsSafeExactly(cfg: Config, s: Service)
    requires Sound(s) && Enabled(s, SecondStop) && |cfg.thresholds| == |s.workers|
    ensures Apply(cfg, s, SecondStop) == s.(phase := Stopped)
    ensures !SomethingRuns(Apply(cfg, s, SecondStop)) <==> s.supervisor.Gone?
  {
    var t := Apply(cfg, s, SecondStop);
    StepKeepsShape(cfg, s, SecondStop);
    StepKeepsSync(cfg, s, SecondStop);
    if !s.supervisor.Gone? {
      HelpfulStepAdvances(cfg, t);
      assert Enabled(t, Helpful(t)) && (Helpful(t).WorkerStep? || Helpful(t).SupervisorStep?);
    }
  }

  predicate OneAt(s: Service, pc: WorkerPc) {
    |s.workers| == 1 && s.workers[0].pc == pc && !s.workers[0].stop && !s.registered
  }

  lemma StartsRunning() returns (run: seq<Service>)
    ensures IsRun(ONE, run) && OneAt(run[|run| - 1], Head) && run[|run| - 1].phase.Running? && run[|run| - 1].caller.Idle?
  {
    run := StartsConnecting();
    run := LastArrives(run);
    run := Extend(ONE, run, WorkerStep(0, Normal));
    run := Extend(ONE, run, WorkerStep(0, Normal));
  }

  lemma LastArrives(start: seq<Service>) returns (run: seq<Service>)
    requires IsRun(ONE, start) && OneConnecting(start[|start| - 1]) && start[|start| - 1].connected == 0
    ensures IsRun(ONE, run) && OneAt(run[|run| - 1], StampStart)
    ensures run[|run| - 1].phase.Connecting? && run[|run| - 1].caller.Idle?
  {
    run := Extend(ONE, start, WorkerStep(0, Normal));
    assert OneAt(run[|run| - 1], Arrived(1));
    run := Extend(ONE, run, WorkerStep(0, Normal));
  }

  lemma StartsSending() returns (run: seq<Service>)
    ensures IsRun(ONE, run) && OneAt(run[|run| - 1], Send) && run[|run| - 1].phase.Running? && run[|run| - 1].caller.Idle?
  {
    run := StartsRunning();
    run := Extend(ONE, run, WorkerStep(0, Normal));
    run := Extend(ONE, run, WorkerStep(0, Normal));
    run := Extend(ONE, run, WorkerStep(0, Normal));
  }

  lemma FirstStopJoins() returns (run: seq<Service>)
    ensures IsRun(ONE, run) && OneAt(run[|run| - 1], Send) && run[|run| - 1].caller.JoinSupervisor?
  {
    run := StartsSending();
    run := Extend(ONE, run, CallerStep(true));
    run := Extend(ONE, run, CallerStep(true));
    assert OneAt(run[|run| - 1], Send) && run[|run| - 1].caller.StopStore?;
    run := Extend(ONE, run, CallerStep(true));
    run := Extend(ONE, run, CallerStep(true));
    assert OneAt(run[|run| - 1], Send) && run[|run| - 1].caller.StopRelease?;
    run := Extend(ONE, run, CallerStep(true));
  }

  /** A second stop() can return, and show Stopped, while a worker is about to send; the worker then sends. */
  lemma SecondStopCanReturnEarly(batch: Tally) returns (run: seq<Service>)
    ensures IsRun(ONE, run) && |run| > 1
    ensures run[|run| - 2].phase.Stopped? && OneAt(run[|run| - 2], Send)
    ensures OneAt(run[|run| - 1], Count(batch))
  {
    run := FirstStopJoins();
    run := Extend(ONE, run, SecondStop);
    run := Extend(ONE, run, WorkerStep(0, Acknowledged(batch)));
  }
}
