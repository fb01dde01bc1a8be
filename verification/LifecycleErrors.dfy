/** What exceptions and limits do to a run: each exception is counted once, and whoever meets either ends the run. */
module LifecycleErrors {
  import opened Lifecycle
  import opened LifecycleShape

  /** A run with the steps it takes. */
  ghost predicate IsTrace(cfg: Config, run: seq<Service>, steps: seq<Step>) {
    && |run| == |steps| + 1 && run[0] == Started(|cfg.thresholds|)
    && forall i: nat :: i < |steps| ==> Takes(cfg, run, steps, i)
  }

  ghost predicate Takes(cfg: Config, run: seq<Service>, steps: seq<Step>, i: nat)
    requires i < |steps| && |run| == |steps| + 1
  {
    |cfg.thresholds| == |run[i].workers| && Enabled(run[i], steps[i]) && run[i + 1] == Apply(cfg, run[i], steps[i])
  }

  predicate WorkerThrows(step: Step) { step.WorkerStep? && step.outcome.Throws? }

  predicate Throws(step: Step) { WorkerThrows(step) || (step.SupervisorStep? && step.throws) }

  // ----- every exception of a worker is counted once -----

  /** Exceptions of workers among these steps. */
  function Exceptions(steps: seq<Step>): nat {
    if steps == [] then 0
    else Exceptions(steps[..|steps| - 1]) + (if WorkerThrows(steps[|steps| - 1]) then 1 else 0)
  }

  /** Has met an exception that is not counted yet. */
  predicate OnErrorPath(k: Worker) { (k.pc.Flush? && k.pc.after.ToError?) || k.pc.ErrorCount? }

  function Uncounted(workers: seq<Worker>): nat {
    if workers == [] then 0
    else Uncounted(workers[..|workers| - 1]) + (if OnErrorPath(workers[|workers| - 1]) then 1 else 0)
  }

  lemma {:induction false} UncountedUpdate(workers: seq<Worker>, w: nat, k: Worker)
    requires w < |workers|
    ensures Uncounted(workers[w := k]) + (if OnErrorPath(workers[w]) then 1 else 0)
            == Uncounted(workers) + (if OnErrorPath(k) then 1 else 0)
  {
    var n := |workers| - 1;
    if w < n {
      UncountedUpdate(workers[..n], w, k);
      assert workers[w := k][..n] == workers[..n][w := k];
    } else {
      assert workers[w := k][..n] == workers[..n];
    }
  }

  lemma {:induction false} NothingUncounted(workers: seq<Worker>)
    requires forall w :: 0 <= w < |workers| ==> !OnErrorPath(workers[w])
    ensures Uncounted(workers) == 0
  {
    if workers != [] {
      NothingUncounted(workers[..|workers| - 1]);
    }
  }

  /** What a worker's step does to the error count and to its own place on the error path. */
  ghost predicate Accounts(s: Service, t: Service, w: nat, o: Outcome) {
    && w < |s.workers| == |t.workers| && t.workers == s.workers[w := t.workers[w]]
    && t.errors + (if OnErrorPath(t.workers[w]) then 1 else 0)
       == s.errors + (if OnErrorPath(s.workers[w]) then 1 else 0) + (if o.Throws? then 1 else 0)
  }

  lemma BarrierAccounts(s: Service, w: nat, o: Outcome)
    requires WorkerEnabled(s, w, o) && AtBarrier(s.workers[w].pc)
    ensures Accounts(s, BarrierNext(s, w, o), w, o)
  {
    var pc := s.workers[w].pc;
    if pc.Swap? {
      SwapAccounts(s, w, o);
    } else if pc.Connect? {
      ConnectAccounts(s, w, o);
    }
  }

  lemma SwapAccounts(s: Service, w: nat, o: Outcome)
    requires WorkerEnabled(s, w, o) && s.workers[w].pc.Swap?
    ensures Accounts(s, BarrierNext(s, w, o), w, o)
  {
  }

  lemma ConnectAccounts(s: Service, w: nat, o: Outcome)
    requires WorkerEnabled(s, w, o) && s.workers[w].pc.Connect?
    ensures Accounts(s, BarrierNext(s, w, o), w, o)
  {
  }

  lemma LoopAccounts(cfg: Config, s: Service, w: nat, o: Outcome)
    requires WorkerEnabled(s, w, o) && InLoop(s.workers[w].pc) && |cfg.thresholds| == |s.workers|
    ensures Accounts(s, LoopNext(cfg, s, w, o), w, o)
  {
    var pc := s.workers[w].pc;
    if pc.Flush? {
      FlushAccounts(s, w, pc.part, if pc.part < 2 then Flush(pc.part + 1, pc.after) else AfterFlush(pc.after));
    } else if pc.Send? || pc.Count? {
      SendAccounts(cfg, s, w, o);
    }
  }

  lemma FlushAccounts(s: Service, w: nat, part: nat, next: WorkerPc)
    requires w < |s.workers| && s.workers[w].pc.Flush?
    requires var pc := s.workers[w].pc; next == if pc.part < 2 then Flush(pc.part + 1, pc.after) else AfterFlush(pc.after)
    ensures Accounts(s, FlushPart(s, w, part, next), w, Normal)
  {
  }

  lemma SendAccounts(cfg: Config, s: Service, w: nat, o: Outcome)
    requires WorkerEnabled(s, w, o) && |cfg.thresholds| == |s.workers| && (s.workers[w].pc.Send? || s.workers[w].pc.Count?)
    ensures Accounts(s, LoopNext(cfg, s, w, o), w, o)
  {
  }

  lemma EndingAccounts(s: Service, w: nat, o: Outcome)
    requires WorkerEnabled(s, w, o) && !AtBarrier(s.workers[w].pc) && !InLoop(s.workers[w].pc)
    ensures Accounts(s, EndingNext(s, w, o), w, o)
  {
  }

  lemma WorkerAccounts(cfg: Config, s: Service, w: nat, o: Outcome)
    requires WorkerEnabled(s, w, o) && |cfg.thresholds| == |s.workers|
    ensures Accounts(s, WorkerNext(cfg, s, w, o), w, o)
  {
    if AtBarrier(s.workers[w].pc) {
      BarrierAccounts(s, w, o);
    } else if InLoop(s.workers[w].pc) {
      LoopAccounts(cfg, s, w, o);
    } else {
      EndingAccounts(s, w, o);
    }
  }

  lemma SupervisorAccounts(s: Service, throws: bool)
    requires Shape(s) && SupervisorEnabled(s, throws)
    ensures var t := SupervisorNext(s, throws); t.errors == s.errors && Uncounted(t.workers) == Uncounted(s.workers)
  {
    match s.supervisor
    case Spawn(i) =>
      if i < |s.workers| && !throws {
        UncountedUpdate(s.workers, i, s.workers[i].(pc := Connect));
      }
    case StopWorkers(i) => StopFlagAccounts(s, i);
    case UnwindStop(i, m) => StopFlagAccounts(s, i);
    case _ =>
  }

  lemma StopFlagAccounts(s: Service, w: nat)
    ensures var t := RequestWorkerStop(s, w); t.errors == s.errors && Uncounted(t.workers) == Uncounted(s.workers)
  {
    if w < |s.workers| {
      UncountedUpdate(s.workers, w, s.workers[w].(stop := true));
    }
  }

  lemma StepAccounts(cfg: Config, s: Service, step: Step)
    requires Shape(s) && Enabled(s, step) && |cfg.thresholds| == |s.workers|
    ensures var t := Apply(cfg, s, step);
            t.errors + Uncounted(t.workers) == s.errors + Uncounted(s.workers) + (if WorkerThrows(step) then 1 else 0)
  {
    match step
    case WorkerStep(w, o) =>
      WorkerAccounts(cfg, s, w, o);
      UncountedUpdate(s.workers, w, WorkerNext(cfg, s, w, o).workers[w]);
    case SupervisorStep(throws) => SupervisorAccounts(s, throws);
    case SpuriousWakeup =>
    case CallerStep(_) =>
    case SecondStop =>
  }

  lemma {:induction false} TraceShape(cfg: Config, run: seq<Service>, steps: seq<Step>, i: nat)
    requires IsTrace(cfg, run, steps) && i <= |steps|
    ensures Shape(run[i]) && |run[i].workers| == |cfg.thresholds|
  {
    if i > 0 {
      TraceShape(cfg, run, steps, i - 1);
      assert Takes(cfg, run, steps, i - 1);
      StepKeepsShape(cfg, run[i - 1], steps[i - 1]);
    }
  }

  /** At every moment the error counter and the workers on their way to it add up to the exceptions that workers have met;
      limits and stops do not count. */
  lemma {:induction false} ErrorsCountExceptions(cfg: Config, run: seq<Service>, steps: seq<Step>, i: nat)
    requires IsTrace(cfg, run, steps) && i <= |steps|
    ensures run[i].errors + Uncounted(run[i].workers) == Exceptions(steps[..i])
  {
    if i == 0 {
      NothingUncounted(run[0].workers);
    } else {
      ErrorsCountExceptions(cfg, run, steps, i - 1);
      assert Takes(cfg, run, steps, i - 1);
      TraceShape(cfg, run, steps, i - 1);
      StepAccounts(cfg, run[i - 1], steps[i - 1]);
      assert steps[..i][..i - 1] == steps[..i - 1];
    }
  }

  // ----- Failed means that there was an exception -----

  ghost predicate ThrewBefore(steps: seq<Step>, i: nat)
    requires i <= |steps|
  {
    exists j :: 0 <= j < i && Throws(steps[j])
  }

  predicate Unhappy(p: SupervisorPc) { p.UnwindStop? || p.UnwindJoin? || p.FailStore? || p.FailSignal? }

  /** Somebody is handling an exception, or has published Failed. */
  ghost predicate Troubled(s: Service) {
    || s.phase.Failed? || Unhappy(s.supervisor)
    || exists w :: 0 <= w < |s.workers| && (OnErrorPath(s.workers[w]) || s.workers[w].pc.ErrorStore?)
  }

  predicate InTrouble(k: Worker) { OnErrorPath(k) || k.pc.ErrorStore? }

  lemma BarrierTrouble(s: Service, w: nat, o: Outcome)
    requires WorkerEnabled(s, w, o) && AtBarrier(s.workers[w].pc) && !o.Throws? && !s.phase.Failed?
    ensures var t := BarrierNext(s, w, o); !t.phase.Failed? && w < |t.workers| && !InTrouble(t.workers[w])
  {
  }

  lemma LoopTrouble(cfg: Config, s: Service, w: nat, o: Outcome)
    requires WorkerEnabled(s, w, o) && InLoop(s.workers[w].pc) && |cfg.thresholds| == |s.workers|
    requires !o.Throws? && !s.phase.Failed? && !InTrouble(s.workers[w])
    ensures var t := LoopNext(cfg, s, w, o); !t.phase.Failed? && w < |t.workers| && !InTrouble(t.workers[w])
  {
    LoopAccounts(cfg, s, w, o);
    LoopTroubleFree(cfg, s, w, o);
  }

  lemma LoopTroubleFree(cfg: Config, s: Service, w: nat, o: Outcome)
    requires WorkerEnabled(s, w, o) && InLoop(s.workers[w].pc) && |cfg.thresholds| == |s.workers|
    ensures var t := LoopNext(cfg, s, w, o); t.phase == s.phase && t.errors == s.errors && w < |t.workers| && !t.workers[w].pc.ErrorStore?
  {
  }

  lemma EndingTrouble(s: Service, w: nat, o: Outcome)
    requires WorkerEnabled(s, w, o) && !AtBarrier(s.workers[w].pc) && !InLoop(s.workers[w].pc)
    requires !s.phase.Failed? && !InTrouble(s.workers[w])
    ensures var t := EndingNext(s, w, o); !t.phase.Failed? && w < |t.workers| && !InTrouble(t.workers[w])
  {
  }

  lemma QuietStepStaysQuiet(cfg: Config, s: Service, step: Step)
    requires Shape(s) && Enabled(s, step) && |cfg.thresholds| == |s.workers| && !Throws(step) && !Troubled(s)
    ensures !Troubled(Apply(cfg, s, step))
  {
    match step
    case WorkerStep(w, o) =>
      WorkerStepLocal(cfg, s, w, o);
      assert !InTrouble(s.workers[w]);
      if AtBarrier(s.workers[w].pc) {
        BarrierTrouble(s, w, o);
      } else if InLoop(s.workers[w].pc) {
        LoopTrouble(cfg, s, w, o);
      } else {
        EndingTrouble(s, w, o);
      }
    case SupervisorStep(_) => QuietSupervisor(s);
    case SpuriousWakeup =>
    case CallerStep(_) =>
    case SecondStop =>
  }

  lemma QuietSupervisor(s: Service)
    requires Shape(s) && SupervisorEnabled(s, false) && !Troubled(s)
    ensures !Troubled(SupervisorNext(s, false))
  {
  }

  /** As long as nobody has met an exception, the state does not read Failed and no error is counted; a limit is no failure. */
  lemma {:induction false} NoFailureWithoutException(cfg: Config, run: seq<Service>, steps: seq<Step>, i: nat)
    requires IsTrace(cfg, run, steps) && i <= |steps| && !ThrewBefore(steps, i)
    ensures !Troubled(run[i]) && !run[i].phase.Failed?
  {
    if i > 0 {
      assert forall j :: 0 <= j < i - 1 ==> !Throws(steps[j]);
      NoFailureWithoutException(cfg, run, steps, i - 1);
      assert Takes(cfg, run, steps, i - 1);
      TraceShape(cfg, run, steps, i - 1);
      QuietStepStaysQuiet(cfg, run[i - 1], steps[i - 1]);
    }
  }

  // ----- a limit or an exception ends the run -----

  /** The state no longer says that the run goes on. */
  predicate Ended(phase: Phase) { phase.Stopping? || phase.Stopped? || phase.Failed? }

  lemma EndedStays(cfg: Config, s: Service, step: Step)
    requires Enabled(s, step) && |cfg.thresholds| == |s.workers| && Ended(s.phase)
    ensures Ended(Apply(cfg, s, step).phase)
  {
  }

  /** Has left the loop by a limit or an exception, and publishes the end and asks for the stop, or has done so. */
  predicate GivenUp(k: Worker, stop: bool, phase: Phase) {
    || (k.pc.Flush? && (k.pc.after.ToLimit? || k.pc.after.ToError?))
    || k.pc.CompletionLoad? || k.pc.CompletionStore? || k.pc.ErrorCount? || k.pc.ErrorStore?
    || (k.pc.Signal? && Ended(phase))
    || ((k.pc.Callback? || k.pc.Done?) && stop && Ended(phase))
  }

  ghost predicate GaveUp(s: Service, w: nat) {
    w < |s.workers| && GivenUp(s.workers[w], s.stop, s.phase)
  }

  lemma GivenUpStays(cfg: Config, s: Service, w: nat, o: Outcome)
    requires WorkerEnabled(s, w, o) && |cfg.thresholds| == |s.workers| && GaveUp(s, w)
    ensures GaveUp(WorkerNext(cfg, s, w, o), w)
  {
  }

  lemma RefusalGivesUp(cfg: Config, s: Service, w: nat, o: Outcome)
    requires WorkerEnabled(s, w, o) && |cfg.thresholds| == |s.workers| && (o.Throws? || o.AtLimit?)
    ensures GaveUp(WorkerNext(cfg, s, w, o), w)
  {
  }

  lemma StopStays(cfg: Config, s: Service, step: Step)
    requires Enabled(s, step) && |cfg.thresholds| == |s.workers| && s.stop
    ensures Apply(cfg, s, step).stop
  {
  }

  lemma OthersKeepPlace(cfg: Config, s: Service, step: Step, w: nat)
    requires Shape(s) && Enabled(s, step) && |cfg.thresholds| == |s.workers| && w < |s.workers| && !s.workers[w].pc.Unborn?
    requires !(step.WorkerStep? && step.worker == w)
    ensures var t := Apply(cfg, s, step); w < |t.workers| && t.workers[w].pc == s.workers[w].pc
  {
    match step
    case WorkerStep(v, o) => WorkerStepLocal(cfg, s, v, o);
    case SupervisorStep(throws) => SupervisorKeepsPlace(s, throws, w);
    case SpuriousWakeup =>
    case CallerStep(_) =>
    case SecondStop =>
  }

  lemma SupervisorKeepsPlace(s: Service, throws: bool, w: nat)
    requires Shape(s) && SupervisorEnabled(s, throws) && w < |s.workers| && !s.workers[w].pc.Unborn?
    ensures var t := SupervisorNext(s, throws); w < |t.workers| && t.workers[w].pc == s.workers[w].pc
  {
  }

  lemma OthersKeepGivenUp(cfg: Config, s: Service, step: Step, w: nat)
    requires Shape(s) && Enabled(s, step) && |cfg.thresholds| == |s.workers| && GaveUp(s, w)
    requires !(step.WorkerStep? && step.worker == w)
    ensures GaveUp(Apply(cfg, s, step), w)
  {
    if s.stop {
      StopStays(cfg, s, step);
    }
    if Ended(s.phase) {
      EndedStays(cfg, s, step);
    }
    OthersKeepPlace(cfg, s, step, w);
  }

  /** A worker that meets a limit or an exception never sends again; before it has ended, the state has left Running for good,
      and the stop of the whole run is requested. */
  lemma {:induction false} RefusalEndsTheRun(cfg: Config, run: seq<Service>, steps: seq<Step>, i: nat, j: nat, w: nat)
    requires IsTrace(cfg, run, steps) && i < j <= |steps|
    requires steps[i] == WorkerStep(w, AtLimit) || steps[i] == WorkerStep(w, Outcome.Throws)
    ensures GaveUp(run[j], w)
    decreases j
  {
    assert Takes(cfg, run, steps, j - 1);
    if i == j - 1 {
      RefusalGivesUp(cfg, run[i], w, steps[i].outcome);
    } else {
      RefusalEndsTheRun(cfg, run, steps, i, j - 1, w);
      TraceShape(cfg, run, steps, j - 1);
      if steps[j - 1].WorkerStep? && steps[j - 1].worker == w {
        GivenUpStays(cfg, run[j - 1], w, steps[j - 1].outcome);
      } else {
        OthersKeepGivenUp(cfg, run[j - 1], steps[j - 1], w);
      }
    }
  }

  /** On the way from an exception to the publication of Failed. */
  predicate Failing(k: Worker) { (k.pc.Flush? && k.pc.after.ToError?) || k.pc.ErrorCount? || k.pc.ErrorStore? }

  predicate PastFailing(k: Worker) { k.pc.Signal? || k.pc.Callback? || k.pc.Done? }

  lemma FailingStep(cfg: Config, s: Service, w: nat, o: Outcome)
    requires WorkerEnabled(s, w, o) && |cfg.thresholds| == |s.workers| && (Failing(s.workers[w]) || PastFailing(s.workers[w]))
    ensures var t := WorkerNext(cfg, s, w, o);
            && w < |t.workers|
            && (PastFailing(s.workers[w]) ==> PastFailing(t.workers[w]))
            && (Failing(s.workers[w]) ==> Failing(t.workers[w]) || (PastFailing(t.workers[w]) && t.phase.Failed?))
  {
  }

  lemma ThrowingStep(cfg: Config, s: Service, w: nat)
    requires WorkerEnabled(s, w, Outcome.Throws) && |cfg.thresholds| == |s.workers|
    ensures var t := WorkerNext(cfg, s, w, Outcome.Throws); w < |t.workers| && Failing(t.workers[w])
  {
  }

  /** An exception shows: between it and the worker's stop request there is a moment at which the state reads Failed. */
  lemma {:induction false} ExceptionShowsFailed(cfg: Config, run: seq<Service>, steps: seq<Step>, i: nat, j: nat, w: nat) returns (k: nat)
    requires IsTrace(cfg, run, steps) && i < j <= |steps| && steps[i] == WorkerStep(w, Outcome.Throws)
    ensures i < k <= j && w < |run[j].workers|
    ensures Failing(run[j].workers[w]) || (PastFailing(run[j].workers[w]) && run[k].phase.Failed?)
    decreases j
  {
    assert Takes(cfg, run, steps, j - 1);
    k := j;
    if i == j - 1 {
      ThrowingStep(cfg, run[i], w);
    } else {
      k := ExceptionShowsFailed(cfg, run, steps, i, j - 1, w);
      TraceShape(cfg, run, steps, j - 1);
      if steps[j - 1].WorkerStep? && steps[j - 1].worker == w {
        FailingStep(cfg, run[j - 1], w, steps[j - 1].outcome);
        if Failing(run[j - 1].workers[w]) {
          k := j;
        }
      } else {
        OthersKeepPlace(cfg, run[j - 1], steps[j - 1], w);
      }
    }
  }

  // ----- a stop before the supervisor looks for it -----

  /** Nobody was started, and nobody will be. */
  ghost predicate Unstarted(s: Service) {
    && s.stop
    && (forall w :: 0 <= w < |s.workers| ==> s.workers[w].pc.Unborn?)
    && (s.supervisor.Prepare? || s.supervisor.CheckStop? || s.supervisor.FailStore? || s.supervisor.FailSignal? || s.supervisor.Gone?)
  }

  lemma UnstartedStays(cfg: Config, s: Service, step: Step)
    requires Enabled(s, step) && |cfg.thresholds| == |s.workers| && Unstarted(s)
    ensures Unstarted(Apply(cfg, s, step))
  {
    StopStays(cfg, s, step);
  }

  /** If the stop is requested before the supervisor has looked for it, no worker is ever started. */
  lemma {:induction false} EarlyStopStartsNobody(cfg: Config, run: seq<Service>, steps: seq<Step>, i: nat, j: nat)
    requires IsTrace(cfg, run, steps) && i <= j <= |steps|
    requires run[i].stop && (run[i].supervisor.Prepare? || run[i].supervisor.CheckStop?)
    ensures Unstarted(run[j])
    decreases j
  {
    if i == j {
      TraceShape(cfg, run, steps, i);
    } else {
      EarlyStopStartsNobody(cfg, run, steps, i, j - 1);
      assert Takes(cfg, run, steps, j - 1);
      UnstartedStays(cfg, run[j - 1], steps[j - 1]);
    }
  }

  // ----- a worker that was told to stop sends nothing more -----

  /** Told to stop, and not in a call of its transport. */
  predicate Halted(k: Worker) { k.stop && !k.pc.Send? }

  lemma HaltedStays(cfg: Config, s: Service, w: nat, o: Outcome)
    requires WorkerEnabled(s, w, o) && |cfg.thresholds| == |s.workers| && Halted(s.workers[w])
    ensures var t := WorkerNext(cfg, s, w, o); w < |t.workers| && Halted(t.workers[w])
  {
  }

  lemma OthersKeepHalted(cfg: Config, s: Service, step: Step, w: nat)
    requires Shape(s) && Enabled(s, step) && |cfg.thresholds| == |s.workers| && w < |s.workers| && Halted(s.workers[w])
    requires !(step.WorkerStep? && step.worker == w)
    ensures var t := Apply(cfg, s, step); w < |t.workers| && Halted(t.workers[w])
  {
    match step
    case WorkerStep(v, o) => WorkerStepLocal(cfg, s, v, o);
    case SupervisorStep(throws) => SupervisorKeepsHalted(s, throws, w);
    case SpuriousWakeup =>
    case CallerStep(_) =>
    case SecondStop =>
  }

  lemma SupervisorKeepsHalted(s: Service, throws: bool, w: nat)
    requires Shape(s) && SupervisorEnabled(s, throws) && w < |s.workers| && Halted(s.workers[w])
    ensures var t := SupervisorNext(s, throws); w < |t.workers| && Halted(t.workers[w])
  {
  }

  lemma {:induction false} StaysHalted(cfg: Config, run: seq<Service>, steps: seq<Step>, i: nat, j: nat, w: nat)
    requires IsTrace(cfg, run, steps) && i <= j <= |steps| && w < |run[i].workers| && Halted(run[i].workers[w])
    ensures w < |run[j].workers| && Halted(run[j].workers[w])
    decreases j
  {
    if i < j {
      StaysHalted(cfg, run, steps, i, j - 1, w);
      assert Takes(cfg, run, steps, j - 1);
      TraceShape(cfg, run, steps, j - 1);
      if steps[j - 1].WorkerStep? && steps[j - 1].worker == w {
        HaltedStays(cfg, run[j - 1], w, steps[j - 1].outcome);
      } else {
        OthersKeepHalted(cfg, run[j - 1], steps[j - 1], w);
      }
    }
  }

  /** Once the supervisor has told a worker to stop, its transport acknowledges at most the batch of a call in progress: at a
      moment without such a call, and at every later one, the worker's step is no send. */
  lemma StoppedWorkerSendsNothing(cfg: Config, run: seq<Service>, steps: seq<Step>, i: nat, j: nat, w: nat)
    requires IsTrace(cfg, run, steps) && i <= j < |steps| && w < |run[i].workers| && Halted(run[i].workers[w])
    ensures !(steps[j].WorkerStep? && steps[j].worker == w && (steps[j].outcome.Acknowledged? || steps[j].outcome.AtLimit?))
  {
    StaysHalted(cfg, run, steps, i, j, w);
    assert Takes(cfg, run, steps, j);
  }
}
