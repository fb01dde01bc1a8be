/** Stopping: no wake-up is lost, every schedule finishes, and nothing happens after stop() has returned. */
module LifecycleSync {
  import opened Lifecycle
  import opened LifecycleShape

  predicate InCallback(c: CallerPc) { c.RequestCallback? || c.StopCallback? }

  /** The stop callback exists. */
  predicate Listening(p: SupervisorPc) {
    p.Acquire? || p.Checking? || p.FallAsleep? || p.Asleep? || AfterStop(p)
  }

  predicate AfterStop(p: SupervisorPc) {
    p.StopWorkers? || p.Join? || p.StampEnd? || p.LoadState? || p.StoreStopped? || p.Deregister?
  }

  predicate HasSignalled(c: CallerPc) {
    c.StopRelease? || c.JoinSupervisor? || c.FinalStore? || c.Returned?
  }

  /** Exactly the thread that turned the token on while the callback was registered is obliged to run the callback. */
  ghost predicate NotifierOk(s: Service) {
    && (s.notifier.ByCaller? <==> InCallback(s.caller))
    && (forall w :: 0 <= w < |s.workers| ==> (s.workers[w].pc.Callback? <==> s.notifier == ByWorker(w)))
    && (s.notifier.ByWorker? ==> s.notifier.worker < |s.workers|)
    && (!s.notifier.Nobody? ==> s.stop && s.registered)
  }

  /** No lost wake-up: a supervisor that sleeps, or has decided to, after the token is on has its wake-up still coming. */
  ghost predicate WakeUpComing(s: Service) {
    (s.supervisor.FallAsleep? || s.supervisor.Asleep?) && s.stop ==> !s.notifier.Nobody?
  }

  ghost predicate ThreadsOk(s: Service) {
    && (s.registered <==> Listening(s.supervisor))
    && (AfterStop(s.supervisor) || HasSignalled(s.caller) ==> s.stop)
    && (s.caller.FinalStore? || s.caller.Returned? ==> s.supervisor.Gone?)
    && (s.caller.Returned? ==> s.phase.Stopped?)
    && (s.phase.Failed? ==> !s.supervisor.Prepare? && !s.supervisor.CheckStop?)
  }

  ghost predicate Sync(s: Service) { NotifierOk(s) && WakeUpComing(s) && ThreadsOk(s) }

  /** A worker's step outside the stop protocol. */
  ghost predicate Quiet(s: Service, t: Service, w: nat) {
    && w < |s.workers| == |t.workers| && t.workers == s.workers[w := t.workers[w]]
    && !s.workers[w].pc.Callback? && !t.workers[w].pc.Callback?
    && t.stop == s.stop && t.registered == s.registered && t.notifier == s.notifier
    && t.supervisor == s.supervisor && t.caller == s.caller
  }

  lemma BarrierStepQuiet(s: Service, w: nat, o: Outcome)
    requires WorkerEnabled(s, w, o) && AtBarrier(s.workers[w].pc)
    ensures Quiet(s, BarrierNext(s, w, o), w)
  {
  }

  lemma LoopStepQuiet(cfg: Config, s: Service, w: nat, o: Outcome)
    requires WorkerEnabled(s, w, o) && InLoop(s.workers[w].pc) && |cfg.thresholds| == |s.workers|
    ensures Quiet(s, LoopNext(cfg, s, w, o), w)
  {
  }

  predicate Publishing(pc: WorkerPc) {
    pc.CompletionLoad? || pc.CompletionStore? || pc.ErrorCount? || pc.ErrorStore?
  }

  lemma PublishStepQuiet(s: Service, w: nat, o: Outcome)
    requires WorkerEnabled(s, w, o) && Publishing(s.workers[w].pc)
    ensures Quiet(s, EndingNext(s, w, o), w)
  {
  }

  lemma QuietKeepsSync(s: Service, t: Service, w: nat)
    requires Shape(s) && Sync(s) && w < |s.workers| && !Resting(s.workers[w]) && Quiet(s, t, w)
    ensures Sync(t)
  {
  }

  lemma WorkerSignalKeepsSync(s: Service, w: nat)
    requires Shape(s) && Sync(s) && w < |s.workers| && s.workers[w].pc.Signal?
    ensures Sync(EndingNext(s, w, Normal))
  {
  }

  lemma WorkerCallbackKeepsSync(s: Service, w: nat)
    requires Sync(s) && WorkerEnabled(s, w, Normal) && s.workers[w].pc.Callback?
    ensures Sync(EndingNext(s, w, Normal))
  {
    assert s.notifier == ByWorker(w);
  }

  lemma WorkerStepKeepsSync(cfg: Config, s: Service, w: nat, o: Outcome)
    requires Shape(s) && Sync(s) && WorkerEnabled(s, w, o) && |cfg.thresholds| == |s.workers|
    ensures Sync(WorkerNext(cfg, s, w, o))
  {
    var pc := s.workers[w].pc;
    if AtBarrier(pc) {
      BarrierStepQuiet(s, w, o);
      QuietKeepsSync(s, BarrierNext(s, w, o), w);
    } else if InLoop(pc) {
      LoopStepQuiet(cfg, s, w, o);
      QuietKeepsSync(s, LoopNext(cfg, s, w, o), w);
    } else if Publishing(pc) {
      PublishStepQuiet(s, w, o);
      QuietKeepsSync(s, EndingNext(s, w, o), w);
    } else if pc.Signal? {
      WorkerSignalKeepsSync(s, w);
    } else {
      WorkerCallbackKeepsSync(s, w);
    }
  }

  lemma StopFlagKeepsNotifier(s: Service, w: nat)
    requires NotifierOk(s)
    ensures NotifierOk(RequestWorkerStop(s, w))
  {
  }

  lemma StartKeepsSync(s: Service, throws: bool)
    requires Shape(s) && Sync(s) && SupervisorEnabled(s, throws) && BeforeWaiting(s.supervisor)
    ensures Sync(SupervisorNext(s, throws))
  {
  }

  lemma EndKeepsSync(s: Service, throws: bool)
    requires Shape(s) && Sync(s) && SupervisorEnabled(s, throws) && !BeforeWaiting(s.supervisor)
    ensures Sync(SupervisorNext(s, throws))
  {
    match s.supervisor
    case StopWorkers(i) => StopFlagKeepsNotifier(s, i);
    case UnwindStop(i, _) => StopFlagKeepsNotifier(s, i);
    case _ =>
  }

  lemma SupervisorStepKeepsSync(s: Service, throws: bool)
    requires Shape(s) && Sync(s) && SupervisorEnabled(s, throws)
    ensures Sync(SupervisorNext(s, throws))
  {
    if BeforeWaiting(s.supervisor) {
      StartKeepsSync(s, throws);
    } else {
      EndKeepsSync(s, throws);
    }
  }

  lemma CallerStepKeepsSync(s: Service, stopping: bool)
    requires Sync(s) && CallerEnabled(s, stopping)
    ensures Sync(CallerNext(s, stopping))
  {
  }

  lemma StepKeepsSync(cfg: Config, s: Service, step: Step)
    requires Shape(s) && Sync(s) && Enabled(s, step) && |cfg.thresholds| == |s.workers|
    ensures Sync(Apply(cfg, s, step))
  {
    match step
    case WorkerStep(w, o) => WorkerStepKeepsSync(cfg, s, w, o);
    case SupervisorStep(throws) => SupervisorStepKeepsSync(s, throws);
    case SpuriousWakeup =>
    case SecondStop =>
    case CallerStep(stopping) => CallerStepKeepsSync(s, stopping);
  }

  ghost predicate Sound(s: Service) { Shape(s) && Sync(s) }

  lemma StepIsSound(cfg: Config, s: Service, t: Service)
    requires Sound(s) && |cfg.thresholds| == |s.workers|
    requires exists step: Step :: Enabled(s, step) && t == Apply(cfg, s, step)
    ensures Sound(t) && |t.workers| == |s.workers|
  {
    var step: Step :| Enabled(s, step) && t == Apply(cfg, s, step);
    StepKeepsShape(cfg, s, step);
    StepKeepsSync(cfg, s, step);
  }

  lemma {:induction false} RunIsSound(cfg: Config, run: seq<Service>, i: nat)
    requires IsRun(cfg, run) && i < |run|
    ensures |run[i].workers| == |cfg.thresholds| && Sound(run[i])
  {
    if i > 0 {
      RunIsSound(cfg, run, i - 1);
      assert Follows(cfg, run, i);
      StepIsSound(cfg, run[i - 1], run[i]);
    }
  }
}

/** Every schedule finishes: a measure that no step of a stopping run raises, and a step that always lowers it. */
module LifecycleProgress {
  import opened Options
  import opened Lifecycle
  import opened LifecycleShape
  import opened LifecycleSync

  function Left(n: nat, i: nat): nat { if i <= n then n - i else 0 }

  /** Beyond the loop: the worker ends whether or not it was told to stop. */
  predicate Ending(pc: WorkerPc) {
    pc.Done? || pc.Callback? || pc.Signal? || Publishing(pc) || (pc.Flush? && !pc.after.ToHead?)
  }

  function PlaceRank(pc: WorkerPc): (rank: nat)
    ensures rank <= 30
  {
    match pc
    case Done => 0
    case Callback => 1
    case Signal => 2
    case CompletionStore => 3
    case ErrorStore => 3
    case CompletionLoad => 4
    case ErrorCount => 4
    case Flush(part, after) => (if after.ToExit? then 1 else if after.ToHead? then 9 else 5) + Left(2, part)
    case Head => 8
    case Count(_) => 12
    case Send => 13
    case AfterWait => 14
    case Build => 15
    case Recheck => 16
    case Spin => 17
    case Swap => 17
    case StampStart => 18
    case Arrived(_) => 19
    case Connect => 20
    case Unborn => 30
  }

  /** What a worker may still do; one that is not told to stop may go round its loop for ever. */
  function Rank(k: Worker): nat { if k.stop || Ending(k.pc) then PlaceRank(k.pc) else 30 }

  function TotalRank(workers: seq<Worker>): nat {
    if workers == [] then 0 else TotalRank(workers[..|workers| - 1]) + Rank(workers[|workers| - 1])
  }

  lemma {:induction false} TotalRankUpdate(workers: seq<Worker>, w: nat, k: Worker)
    requires w < |workers|
    ensures TotalRank(workers[w := k]) + Rank(workers[w]) == TotalRank(workers) + Rank(k)
  {
    var n := |workers| - 1;
    if w < n {
      TotalRankUpdate(workers[..n], w, k);
      assert workers[w := k][..n] == workers[..n][w := k];
    } else {
      assert workers[w := k][..n] == workers[..n];
    }
  }

  predicate Waiting(p: SupervisorPc) { p.Acquire? || p.Checking? || p.FallAsleep? || p.Asleep? }

  /** Before the token is on, the supervisor may wake and fall asleep again for ever. */
  function SupervisorRank(p: SupervisorPc, n: nat, stop: bool): nat {
    if Waiting(p) && !stop then 2 * n + 11 else
    match p
    case Gone => 0
    case Deregister => 1
    case StoreStopped => 2
    case LoadState => 3
    case StampEnd => 4
    case Join(i) => 5 + Left(n, i)
    case StopWorkers(i) => 6 + n + Left(n, i)
    case Checking => 2 * n + 8
    case Acquire => 2 * n + 9
    case Asleep => 2 * n + 10
    case FallAsleep => 2 * n + 11
    case Register => 2 * n + 12
    case Spawn(i) => 2 * n + 13 + Left(n, i)
    case CheckStop => 3 * n + 15
    case Prepare => 3 * n + 16
    case FailSignal => 1
    case FailStore => 2
    case UnwindStop(i, m) => 3 + 2 * Left(m, i)
    case UnwindJoin(i, m) => 2 + 2 * Left(m, i)
  }

  function CallerRank(c: CallerPc): nat {
    match c
    case Idle => 0
    case RequestCallback => 1
    case RequestSignal => 2
    case RequestStore => 3
    case RequestLoad => 4
    case Returned => 0
    case FinalStore => 1
    case JoinSupervisor => 2
    case StopRelease => 3
    case StopCallback => 4
    case StopSignal => 5
    case StopStore => 6
    case StopLoad => 7
  }

  function Measure(s: Service): nat {
    TotalRank(s.workers) + SupervisorRank(s.supervisor, |s.workers|, s.stop) + CallerRank(s.caller)
  }

  // ----- workers -----

  /** A worker that ends, or is told to stop, is nearer its end after any step. */
  ghost predicate Advances(s: Service, t: Service, w: nat) {
    && w < |s.workers| == |t.workers| && t.workers == s.workers[w := t.workers[w]]
    && t.workers[w].stop == s.workers[w].stop
    && (s.workers[w].stop || Ending(s.workers[w].pc) ==> Rank(t.workers[w]) < Rank(s.workers[w]))
    && Rank(t.workers[w]) <= Rank(s.workers[w])
    && t.caller == s.caller && (s.stop ==> t.stop)
    && (t.supervisor == s.supervisor || (s.supervisor.Asleep? && t.supervisor.Acquire?))
  }

  predicate AtGate(pc: WorkerPc) { pc.Swap? || pc.Spin? || pc.Recheck? }

  lemma ArrivalAdvances(s: Service, w: nat, o: Outcome)
    requires WorkerEnabled(s, w, o) && AtBarrier(s.workers[w].pc) && !AtGate(s.workers[w].pc)
    ensures Advances(s, BarrierNext(s, w, o), w)
  {
  }

  lemma GateAdvances(s: Service, w: nat, o: Outcome)
    requires WorkerEnabled(s, w, o) && AtGate(s.workers[w].pc)
    ensures Advances(s, BarrierNext(s, w, o), w)
  {
    var k := s.workers[w];
    if k.pc.Spin? && !k.stop && s.phase.Connecting? {
      assert s.workers[w := k] == s.workers;
    }
  }

  lemma BarrierStepAdvances(s: Service, w: nat, o: Outcome)
    requires WorkerEnabled(s, w, o) && AtBarrier(s.workers[w].pc)
    ensures Advances(s, BarrierNext(s, w, o), w)
  {
    if AtGate(s.workers[w].pc) {
      GateAdvances(s, w, o);
    } else {
      ArrivalAdvances(s, w, o);
    }
  }

  lemma FlushAdvances(s: Service, w: nat, next: WorkerPc)
    requires w < |s.workers| && s.workers[w].pc.Flush?
    requires var pc := s.workers[w].pc; next == if pc.part < 2 then Flush(pc.part + 1, pc.after) else AfterFlush(pc.after)
    ensures Advances(s, FlushPart(s, w, s.workers[w].pc.part, next), w)
  {
  }

  lemma RoundAdvances(cfg: Config, s: Service, w: nat, o: Outcome)
    requires WorkerEnabled(s, w, o) && |cfg.thresholds| == |s.workers|
    requires var pc := s.workers[w].pc; pc.Head? || pc.Build? || pc.AfterWait?
    ensures Advances(s, LoopNext(cfg, s, w, o), w)
  {
  }

  lemma SendAdvances(cfg: Config, s: Service, w: nat, o: Outcome)
    requires WorkerEnabled(s, w, o) && |cfg.thresholds| == |s.workers| && (s.workers[w].pc.Send? || s.workers[w].pc.Count?)
    ensures Advances(s, LoopNext(cfg, s, w, o), w)
  {
  }

  lemma LoopStepAdvances(cfg: Config, s: Service, w: nat, o: Outcome)
    requires WorkerEnabled(s, w, o) && InLoop(s.workers[w].pc) && |cfg.thresholds| == |s.workers|
    ensures Advances(s, LoopNext(cfg, s, w, o), w)
  {
    var pc := s.workers[w].pc;
    if pc.Flush? {
      FlushAdvances(s, w, if pc.part < 2 then Flush(pc.part + 1, pc.after) else AfterFlush(pc.after));
    } else if pc.Send? || pc.Count? {
      SendAdvances(cfg, s, w, o);
    } else {
      RoundAdvances(cfg, s, w, o);
    }
  }

  lemma CompletionAdvances(s: Service, w: nat, o: Outcome)
    requires WorkerEnabled(s, w, o) && (s.workers[w].pc.CompletionLoad? || s.workers[w].pc.CompletionStore?)
    ensures Advances(s, EndingNext(s, w, o), w)
  {
  }

  lemma ErrorAdvances(s: Service, w: nat, o: Outcome)
    requires WorkerEnabled(s, w, o) && (s.workers[w].pc.ErrorCount? || s.workers[w].pc.ErrorStore?)
    ensures Advances(s, EndingNext(s, w, o), w)
  {
  }

  lemma PublishStepAdvances(s: Service, w: nat, o: Outcome)
    requires WorkerEnabled(s, w, o) && Publishing(s.workers[w].pc)
    ensures Advances(s, EndingNext(s, w, o), w)
  {
    if s.workers[w].pc.ErrorCount? || s.workers[w].pc.ErrorStore? {
      ErrorAdvances(s, w, o);
    } else {
      CompletionAdvances(s, w, o);
    }
  }

  lemma SignalAdvances(s: Service, w: nat)
    requires w < |s.workers| && s.workers[w].pc.Signal?
    ensures Advances(s, EndingNext(s, w, Normal), w)
  {
  }

  lemma CallbackAdvances(s: Service, w: nat)
    requires WorkerEnabled(s, w, Normal) && s.workers[w].pc.Callback?
    ensures Advances(s, EndingNext(s, w, Normal), w)
  {
  }

  lemma EndingStepAdvances(s: Service, w: nat, o: Outcome)
    requires WorkerEnabled(s, w, o) && !AtBarrier(s.workers[w].pc) && !InLoop(s.workers[w].pc)
    ensures Advances(s, EndingNext(s, w, o), w)
  {
    if Publishing(s.workers[w].pc) {
      PublishStepAdvances(s, w, o);
    } else if s.workers[w].pc.Signal? {
      SignalAdvances(s, w);
    } else {
      CallbackAdvances(s, w);
    }
  }

  lemma WorkerStepAdvances(cfg: Config, s: Service, w: nat, o: Outcome)
    requires WorkerEnabled(s, w, o) && |cfg.thresholds| == |s.workers|
    ensures Advances(s, WorkerNext(cfg, s, w, o), w)
  {
    if AtBarrier(s.workers[w].pc) {
      BarrierStepAdvances(s, w, o);
    } else if InLoop(s.workers[w].pc) {
      LoopStepAdvances(cfg, s, w, o);
    } else {
      EndingStepAdvances(s, w, o);
    }
  }

  lemma AdvanceMeasure(s: Service, t: Service, w: nat)
    requires Advances(s, t, w)
    ensures Measure(t) <= Measure(s)
    ensures s.workers[w].stop || Ending(s.workers[w].pc) ==> Measure(t) < Measure(s)
  {
    TotalRankUpdate(s.workers, w, t.workers[w]);
  }

  // ----- supervisor -----

  lemma MoveSupervisor(s: Service, t: Service)
    requires t.workers == s.workers && t.caller == s.caller
    requires SupervisorRank(t.supervisor, |s.workers|, t.stop) < SupervisorRank(s.supervisor, |s.workers|, s.stop)
    ensures Measure(t) < Measure(s)
  {
  }

  lemma StopFlagMeasure(s: Service, w: nat, next: SupervisorPc)
    requires SupervisorRank(next, |s.workers|, s.stop) < SupervisorRank(s.supervisor, |s.workers|, s.stop)
    ensures Measure(At(RequestWorkerStop(s, w), next)) < Measure(s)
  {
    if w < |s.workers| {
      TotalRankUpdate(s.workers, w, s.workers[w].(stop := true));
    }
  }

  lemma SpawnMeasure(s: Service, i: nat)
    requires s.supervisor == Spawn(i) && i < |s.workers| && s.workers[i].pc.Unborn?
    ensures Measure(At(Go(s, i, Connect), Spawn(i + 1))) < Measure(s)
  {
    TotalRankUpdate(s.workers, i, s.workers[i].(pc := Connect));
  }

  /** The steps that change workers. */
  predicate TouchesWorker(s: Service, throws: bool) {
    match s.supervisor
    case Spawn(i) => i < |s.workers| && !throws
    case StopWorkers(i) => i < |s.workers|
    case UnwindStop(i, m) => i < m
    case _ => false
  }

  lemma TouchMeasure(s: Service, throws: bool)
    requires Shape(s) && SupervisorEnabled(s, throws) && TouchesWorker(s, throws)
    ensures Measure(SupervisorNext(s, throws)) < Measure(s)
  {
    match s.supervisor
    case Spawn(i) => SpawnMeasure(s, i);
    case StopWorkers(i) => StopFlagMeasure(s, i, StopWorkers(i + 1));
    case UnwindStop(i, m) => StopFlagMeasure(s, i, UnwindJoin(i, m));
  }

  predicate Idling(s: Service) { Waiting(s.supervisor) && !s.stop }

  lemma StartMeasure(s: Service, throws: bool)
    requires Shape(s) && SupervisorEnabled(s, throws) && !Idling(s)
    requires BeforeWaiting(s.supervisor) && !TouchesWorker(s, throws)
    ensures Measure(SupervisorNext(s, throws)) < Measure(s)
  {
    MoveSupervisor(s, SupervisorNext(s, throws));
  }

  lemma EndMeasure(s: Service, throws: bool)
    requires Shape(s) && SupervisorEnabled(s, throws)
    requires !BeforeWaiting(s.supervisor) && !TouchesWorker(s, throws)
    ensures Measure(SupervisorNext(s, throws)) < Measure(s)
  {
    MoveSupervisor(s, SupervisorNext(s, throws));
  }

  /** Every step of the supervisor counts, but for waiting before the token is on. */
  lemma SupervisorMeasure(s: Service, throws: bool)
    requires Shape(s) && SupervisorEnabled(s, throws)
    ensures Measure(SupervisorNext(s, throws)) <= Measure(s)
    ensures !Idling(s) ==> Measure(SupervisorNext(s, throws)) < Measure(s)
  {
    if Idling(s) {
      assert SupervisorNext(s, throws).workers == s.workers;
    } else if TouchesWorker(s, throws) {
      TouchMeasure(s, throws);
    } else if BeforeWaiting(s.supervisor) {
      StartMeasure(s, throws);
    } else {
      EndMeasure(s, throws);
    }
  }

  lemma CallerMeasure(s: Service, stopping: bool)
    requires CallerEnabled(s, stopping) && !s.caller.Idle?
    ensures Measure(CallerNext(s, stopping)) < Measure(s)
  {
  }

  // ----- main results -----

  predicate Unwinding(p: SupervisorPc) { p.UnwindStop? || p.UnwindJoin? || p.FailStore? || p.FailSignal? }

  /** The run is on its way out: stop is requested, a call is about to request it, or the supervisor failed. */
  predicate Ends(s: Service) { s.stop || LifecycleHeld(s.caller) || Unwinding(s.supervisor) }

  predicate NewCall(s: Service, step: Step) { s.caller.Idle? && step.CallerStep? }

  lemma EndsForGood(cfg: Config, s: Service, step: Step)
    requires Sound(s) && Ends(s) && Enabled(s, step) && |cfg.thresholds| == |s.workers|
    ensures Ends(Apply(cfg, s, step))
  {
    match step
    case WorkerStep(w, o) =>
      var pc := s.workers[w].pc;
      if AtBarrier(pc) {
        BarrierStepQuiet(s, w, o);
      } else if InLoop(pc) {
        LoopStepQuiet(cfg, s, w, o);
      } else if Publishing(pc) {
        PublishStepQuiet(s, w, o);
      }
    case SupervisorStep(_) =>
    case SpuriousWakeup =>
    case SecondStop =>
    case CallerStep(_) =>
  }

  /** No schedule goes backwards: no step but a fresh call raises the measure. */
  lemma NoStepRaises(cfg: Config, s: Service, step: Step)
    requires Sound(s) && Enabled(s, step) && !NewCall(s, step) && |cfg.thresholds| == |s.workers|
    ensures Measure(Apply(cfg, s, step)) <= Measure(s)
  {
    match step
    case WorkerStep(w, o) =>
      WorkerStepAdvances(cfg, s, w, o);
      AdvanceMeasure(s, WorkerNext(cfg, s, w, o), w);
    case SupervisorStep(throws) => SupervisorMeasure(s, throws);
    case SpuriousWakeup =>
    case SecondStop =>
    case CallerStep(stopping) => CallerMeasure(s, stopping);
  }

  /** Something is left to do for the threads of this run or for a call under way. */
  predicate Unfinished(s: Service) { !s.supervisor.Gone? || !(s.caller.Idle? || s.caller.Returned?) }

  function AwaitedWorker(s: Service): Option<nat> {
    match s.supervisor
    case Asleep => if s.notifier.ByWorker? then Some(s.notifier.worker) else None
    case Join(i) => if i < |s.workers| && !s.workers[i].pc.Done? then Some(i) else None
    case UnwindJoin(i, _) => if i < |s.workers| && !s.workers[i].pc.Done? then Some(i) else None
    case _ => None
  }

  /** The step everybody waits for: a call in progress first, unless it needs the supervisor's mutex; then the worker
      the supervisor waits for; then the supervisor. */
  function Helpful(s: Service): Step {
    if LifecycleHeld(s.caller) then
      (if InCallback(s.caller) && WaitMutexHeld(s.supervisor) then SupervisorStep(false) else CallerStep(false))
    else if s.supervisor.Gone? then CallerStep(false)
    else match AwaitedWorker(s)
      case Some(w) => WorkerStep(w, if w < |s.workers| && s.workers[w].pc.Send? then AtLimit else Normal)
      case None => SupervisorStep(false)
  }

  lemma AwaitedWorkerIsEnding(s: Service, w: nat)
    requires Sound(s) && AwaitedWorker(s) == Some(w) && !LifecycleHeld(s.caller)
    ensures w < |s.workers| && (s.workers[w].stop || Ending(s.workers[w].pc))
    ensures Enabled(s, Helpful(s)) && Helpful(s).WorkerStep? && Helpful(s).worker == w
  {
  }

  lemma HelpfulSupervisor(s: Service)
    requires Sound(s) && Ends(s) && Unfinished(s) && Helpful(s).SupervisorStep?
    ensures Helpful(s) == SupervisorStep(false) && SupervisorEnabled(s, false) && !Idling(s)
  {
  }

  lemma HelpfulCaller(s: Service)
    requires Sound(s) && Unfinished(s) && Helpful(s).CallerStep?
    ensures Helpful(s) == CallerStep(false) && CallerEnabled(s, false) && !s.caller.Idle?
  {
  }

  /** Stop always completes: on the way out, as long as a thread or a call is unfinished, the helpful step is enabled and
      brings the end nearer, even if nobody ever wakes spuriously. */
  lemma HelpfulStepAdvances(cfg: Config, s: Service)
    requires Sound(s) && Ends(s) && Unfinished(s) && |cfg.thresholds| == |s.workers|
    ensures Enabled(s, Helpful(s)) && !NewCall(s, Helpful(s)) && !Helpful(s).SpuriousWakeup? && !Helpful(s).SecondStop?
    ensures Measure(Apply(cfg, s, Helpful(s))) < Measure(s)
  {
    match Helpful(s)
    case WorkerStep(w, o) =>
      AwaitedWorkerIsEnding(s, w);
      WorkerStepAdvances(cfg, s, w, o);
      AdvanceMeasure(s, WorkerNext(cfg, s, w, o), w);
    case SupervisorStep(_) =>
      HelpfulSupervisor(s);
      SupervisorMeasure(s, false);
    case CallerStep(_) =>
      HelpfulCaller(s);
      CallerMeasure(s, false);
  }

  lemma IdleWorkerIsNotAwaited(cfg: Config, s: Service, w: nat, o: Outcome)
    requires Sound(s) && WorkerEnabled(s, w, o) && |cfg.thresholds| == |s.workers|
    requires !s.workers[w].stop && !Ending(s.workers[w].pc)
    ensures Helpful(WorkerNext(cfg, s, w, o)) == Helpful(s)
  {
    if AtBarrier(s.workers[w].pc) {
      BarrierStepQuiet(s, w, o);
      QuietKeepsHelpful(s, BarrierNext(s, w, o), w);
    } else {
      LoopStepQuiet(cfg, s, w, o);
      QuietKeepsHelpful(s, LoopNext(cfg, s, w, o), w);
    }
  }

  lemma QuietKeepsHelpful(s: Service, t: Service, w: nat)
    requires Sound(s) && Quiet(s, t, w) && !s.workers[w].stop && !s.workers[w].pc.Callback?
    ensures Helpful(t) == Helpful(s)
  {
  }

  /** A step that brings the end no nearer leaves the helpful step as it is, so a fair scheduler gets to it. */
  lemma HelpfulStays(cfg: Config, s: Service, step: Step)
    requires Sound(s) && Ends(s) && Enabled(s, step) && !NewCall(s, step) && |cfg.thresholds| == |s.workers|
    ensures Measure(Apply(cfg, s, step)) < Measure(s) || Helpful(Apply(cfg, s, step)) == Helpful(s)
  {
    match step
    case WorkerStep(w, o) =>
      var t := WorkerNext(cfg, s, w, o);
      WorkerStepAdvances(cfg, s, w, o);
      AdvanceMeasure(s, t, w);
      if Measure(t) == Measure(s) {
        IdleWorkerIsNotAwaited(cfg, s, w, o);
      }
    case SupervisorStep(throws) => SupervisorMeasure(s, throws);
    case SpuriousWakeup =>
    case SecondStop =>
    case CallerStep(stopping) => CallerMeasure(s, stopping);
  }
}
