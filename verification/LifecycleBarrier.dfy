/** The start barrier: nobody sends before everybody is connected and Running is published. */
module LifecycleBarrier {
  import opened Lifecycle
  import opened LifecycleShape

  function CountArrived(workers: seq<Worker>): nat {
    if workers == [] then 0
    else CountArrived(workers[..|workers| - 1]) + (if workers[|workers| - 1].arrived then 1 else 0)
  }

  lemma {:induction false} CountBound(workers: seq<Worker>)
    ensures CountArrived(workers) <= |workers|
    ensures (exists w :: 0 <= w < |workers| && !workers[w].arrived) ==> CountArrived(workers) < |workers|
  {
    if workers != [] {
      var n := |workers| - 1;
      CountBound(workers[..n]);
      if w :| 0 <= w < |workers| && !workers[w].arrived {
        assert w < n ==> workers[..n][w] == workers[w];
      }
    }
  }

  lemma {:induction false} CountUpdate(workers: seq<Worker>, w: nat, k: Worker)
    requires w < |workers|
    ensures CountArrived(workers[w := k]) + (if workers[w].arrived then 1 else 0)
            == CountArrived(workers) + (if k.arrived then 1 else 0)
  {
    var n := |workers| - 1;
    if w < n {
      CountUpdate(workers[..n], w, k);
      assert workers[w := k][..n] == workers[..n][w := k];
    } else {
      assert workers[w := k][..n] == workers[..n];
    }
  }

  lemma {:induction false} NobodyArrived(workers: seq<Worker>)
    requires forall w :: 0 <= w < |workers| ==> !workers[w].arrived
    ensures CountArrived(workers) == 0
  {
    if workers != [] {
      NobodyArrived(workers[..|workers| - 1]);
    }
  }

  /** Inside the sending loop, or leaving it other than by an error. */
  predicate PassedBarrier(pc: WorkerPc) {
    pc.Head? || pc.Build? || pc.AfterWait? || pc.Send? || pc.Count? || (pc.Flush? && !pc.after.ToError?)
  }

  /** What a worker's place says about the barrier. */
  ghost predicate PlaceOk(k: Worker, connected: nat, n: nat, entries: nat) {
    && (k.pc.Unborn? || k.pc.Connect? ==> !k.arrived && !k.refused && !k.entered)
    && (k.refused ==> !k.arrived)
    && (k.pc.Arrived? ==> k.arrived && k.pc.ready <= connected)
    && (k.pc.StampStart? || k.pc.Swap? ==> k.arrived && connected == n)
    && (k.pc.Spin? || k.pc.Recheck? ==> k.arrived)
    && (PassedBarrier(k.pc) ==> k.entered)
    && (k.entered ==> k.arrived && entries == 1)
  }

  ghost predicate PlacesOk(s: Service) {
    forall w :: 0 <= w < |s.workers| ==> PlaceOk(s.workers[w], s.connected, |s.workers|, s.runningEntries)
  }

  ghost predicate GateOk(s: Service) {
    && s.connected == CountArrived(s.workers)
    && s.runningEntries <= 1
    && (s.phase.Connecting? ==> s.runningEntries == 0)
    && (s.phase.Running? ==> s.runningEntries == 1)
    && (s.runningEntries == 1 ==> s.connected == |s.workers|)
  }

  ghost predicate Barrier(s: Service) { PlacesOk(s) && GateOk(s) }

  /** A step that moves one worker, adds no arrival and keeps the gate. */
  lemma MoveKeepsPlaces(s: Service, w: nat, k: Worker)
    requires Barrier(s) && w < |s.workers|
    requires k.arrived == s.workers[w].arrived && PlaceOk(k, s.connected, |s.workers|, s.runningEntries)
    ensures Barrier(Put(s, w, k))
  {
    CountUpdate(s.workers, w, k);
  }

  lemma ConnectKeepsBarrier(s: Service, w: nat)
    requires Barrier(s) && w < |s.workers| && s.workers[w].pc.Connect?
    ensures Barrier(BarrierNext(s, w, Normal))
  {
    assert PlaceOk(s.workers[w], s.connected, |s.workers|, s.runningEntries);
    var k := s.workers[w].(pc := Arrived(s.connected + 1), arrived := true);
    CountBound(s.workers);
    CountUpdate(s.workers, w, k);
    assert s.connected < |s.workers|;
  }

  lemma SwapKeepsBarrier(s: Service, w: nat)
    requires Barrier(s) && w < |s.workers| && s.workers[w].pc.Swap?
    ensures Barrier(BarrierNext(s, w, Normal))
  {
    var k := s.workers[w];
    assert PlaceOk(k, s.connected, |s.workers|, s.runningEntries);
    if s.phase.Connecting? {
      CountUpdate(s.workers, w, k.(pc := Head, entered := true));
      assert forall v :: 0 <= v < |s.workers| ==> !s.workers[v].entered;
    } else {
      MoveKeepsPlaces(s, w, k.(pc := Done));
    }
  }

  lemma BarrierStepKeeps(s: Service, w: nat, o: Outcome)
    requires Barrier(s) && WorkerEnabled(s, w, o) && AtBarrier(s.workers[w].pc)
    ensures Barrier(BarrierNext(s, w, o))
  {
    var k := s.workers[w];
    assert PlaceOk(k, s.connected, |s.workers|, s.runningEntries);
    match k.pc
    case Connect =>
      if o.Throws? {
        MoveKeepsPlaces(s, w, k.(pc := Flush(0, ToError), refused := true));
      } else {
        ConnectKeepsBarrier(s, w);
      }
    case Arrived(ready) =>
      CountBound(s.workers);
      MoveKeepsPlaces(s, w, k.(pc := if ready == |s.workers| then StampStart else Spin));
    case StampStart => MoveKeepsPlaces(s, w, k.(pc := Swap));
    case Swap => SwapKeepsBarrier(s, w);
    case Spin => MoveKeepsPlaces(s, w, k.(pc := Recheck));
    case Recheck => MoveKeepsPlaces(s, w, if s.phase.Running? then k.(pc := Head, entered := true) else k.(pc := Done));
  }

  /** Beyond the barrier nothing the barrier depends on changes, except that the state may move away from Running. */
  ghost predicate GateSame(s: Service, t: Service) {
    && t.connected == s.connected && t.runningEntries == s.runningEntries
    && (t.phase == s.phase || t.phase.Stopped? || t.phase.Stopping? || t.phase.Failed?)
  }

  ghost predicate SamePlace(k: Worker, l: Worker) {
    && l.arrived == k.arrived && l.refused == k.refused && l.entered == k.entered
    && !AtBarrier(l.pc) && !l.pc.Unborn?
    && (PassedBarrier(l.pc) ==> PassedBarrier(k.pc))
  }

  lemma FlushPlace(s: Service, w: nat, next: WorkerPc)
    requires w < |s.workers| && s.workers[w].pc.Flush?
    requires var pc := s.workers[w].pc; next == if pc.part < 2 then Flush(pc.part + 1, pc.after) else AfterFlush(pc.after)
    ensures var t := FlushPart(s, w, s.workers[w].pc.part, next);
            && GateSame(s, t) && t.workers == s.workers[w := t.workers[w]] && SamePlace(s.workers[w], t.workers[w])
  {
  }

  lemma RoundPlace(cfg: Config, s: Service, w: nat, o: Outcome)
    requires WorkerEnabled(s, w, o) && InLoop(s.workers[w].pc) && |cfg.thresholds| == |s.workers|
    requires var pc := s.workers[w].pc; pc.Head? || pc.Build? || pc.AfterWait?
    ensures var t := LoopNext(cfg, s, w, o);
            && GateSame(s, t) && t.workers == s.workers[w := t.workers[w]] && SamePlace(s.workers[w], t.workers[w])
  {
  }

  lemma SendPlace(cfg: Config, s: Service, w: nat, o: Outcome)
    requires WorkerEnabled(s, w, o) && |cfg.thresholds| == |s.workers| && (s.workers[w].pc.Send? || s.workers[w].pc.Count?)
    ensures var t := LoopNext(cfg, s, w, o);
            && GateSame(s, t) && t.workers == s.workers[w := t.workers[w]] && SamePlace(s.workers[w], t.workers[w])
  {
  }

  lemma LoopStepPlace(cfg: Config, s: Service, w: nat, o: Outcome)
    requires WorkerEnabled(s, w, o) && InLoop(s.workers[w].pc) && |cfg.thresholds| == |s.workers|
    ensures var t := LoopNext(cfg, s, w, o);
            && GateSame(s, t) && t.workers == s.workers[w := t.workers[w]] && SamePlace(s.workers[w], t.workers[w])
  {
    var pc := s.workers[w].pc;
    if pc.Flush? {
      FlushPlace(s, w, if pc.part < 2 then Flush(pc.part + 1, pc.after) else AfterFlush(pc.after));
    } else if pc.Send? || pc.Count? {
      SendPlace(cfg, s, w, o);
    } else {
      RoundPlace(cfg, s, w, o);
    }
  }

  lemma SignalStepPlace(s: Service, w: nat, o: Outcome)
    requires WorkerEnabled(s, w, o) && (s.workers[w].pc.Signal? || s.workers[w].pc.Callback?)
    ensures var t := EndingNext(s, w, o);
            && GateSame(s, t) && t.workers == s.workers[w := t.workers[w]] && SamePlace(s.workers[w], t.workers[w])
  {
  }

  lemma CompletionStepPlace(s: Service, w: nat, o: Outcome)
    requires WorkerEnabled(s, w, o) && (s.workers[w].pc.CompletionLoad? || s.workers[w].pc.CompletionStore?)
    ensures var t := EndingNext(s, w, o);
            && GateSame(s, t) && t.workers == s.workers[w := t.workers[w]] && SamePlace(s.workers[w], t.workers[w])
  {
  }

  lemma EndingStepPlace(s: Service, w: nat, o: Outcome)
    requires WorkerEnabled(s, w, o) && !AtBarrier(s.workers[w].pc) && !InLoop(s.workers[w].pc)
    ensures var t := EndingNext(s, w, o);
            && GateSame(s, t) && t.workers == s.workers[w := t.workers[w]] && SamePlace(s.workers[w], t.workers[w])
  {
    if s.workers[w].pc.Signal? || s.workers[w].pc.Callback? {
      SignalStepPlace(s, w, o);
    } else if s.workers[w].pc.CompletionLoad? || s.workers[w].pc.CompletionStore? {
      CompletionStepPlace(s, w, o);
    }
  }

  lemma GateSameKeeps(s: Service, t: Service, w: nat)
    requires Barrier(s) && w < |s.workers| == |t.workers|
    requires GateSame(s, t) && t.workers == s.workers[w := t.workers[w]] && SamePlace(s.workers[w], t.workers[w])
    ensures Barrier(t)
  {
    assert PlaceOk(s.workers[w], s.connected, |s.workers|, s.runningEntries);
    MoveKeepsPlaces(s, w, t.workers[w]);
  }

  /** Supervisor and caller only start workers, set stop flags and move the state away. */
  lemma StopFlagKeeps(s: Service, w: nat)
    requires Barrier(s)
    ensures Barrier(RequestWorkerStop(s, w))
  {
    if w < |s.workers| {
      assert PlaceOk(s.workers[w], s.connected, |s.workers|, s.runningEntries);
      MoveKeepsPlaces(s, w, s.workers[w].(stop := true));
    }
  }

  lemma QuietSupervisorKeeps(s: Service, throws: bool)
    requires Barrier(s) && SupervisorEnabled(s, throws)
    requires !s.supervisor.Spawn? && !s.supervisor.StopWorkers? && !s.supervisor.UnwindStop?
    ensures Barrier(SupervisorNext(s, throws))
  {
    assert SupervisorNext(s, throws).workers == s.workers && GateSame(s, SupervisorNext(s, throws));
  }

  lemma SupervisorStepKeeps(s: Service, throws: bool)
    requires Shape(s) && Barrier(s) && SupervisorEnabled(s, throws)
    ensures Barrier(SupervisorNext(s, throws))
  {
    match s.supervisor
    case Spawn(i) =>
      if i < |s.workers| && !throws {
        assert s.workers[i].pc.Unborn?;
        assert PlaceOk(s.workers[i], s.connected, |s.workers|, s.runningEntries);
        MoveKeepsPlaces(s, i, s.workers[i].(pc := Connect));
      }
    case StopWorkers(i) => StopFlagKeeps(s, i);
    case UnwindStop(i, m) => StopFlagKeeps(s, i);
    case _ => QuietSupervisorKeeps(s, throws);
  }

  lemma CallerStepKeeps(s: Service, stopping: bool)
    requires Barrier(s) && CallerEnabled(s, stopping)
    ensures Barrier(CallerNext(s, stopping))
  {
  }

  lemma StepKeepsBarrier(cfg: Config, s: Service, step: Step)
    requires Shape(s) && Barrier(s) && Enabled(s, step) && |cfg.thresholds| == |s.workers|
    ensures Barrier(Apply(cfg, s, step))
  {
    match step
    case WorkerStep(w, o) =>
      if AtBarrier(s.workers[w].pc) {
        BarrierStepKeeps(s, w, o);
      } else if InLoop(s.workers[w].pc) {
        LoopStepPlace(cfg, s, w, o);
        GateSameKeeps(s, LoopNext(cfg, s, w, o), w);
      } else {
        EndingStepPlace(s, w, o);
        GateSameKeeps(s, EndingNext(s, w, o), w);
      }
    case SupervisorStep(throws) => SupervisorStepKeeps(s, throws);
    case SpuriousWakeup =>
    case SecondStop =>
    case CallerStep(stopping) => CallerStepKeeps(s, stopping);
  }

  lemma {:induction false} RunKeepsBarrier(cfg: Config, run: seq<Service>, i: nat)
    requires IsRun(cfg, run) && i < |run|
    ensures |run[i].workers| == |cfg.thresholds| && Shape(run[i]) && Barrier(run[i])
  {
    if i == 0 {
      NobodyArrived(run[0].workers);
    } else {
      RunKeepsBarrier(cfg, run, i - 1);
      assert Follows(cfg, run, i);
      var step: Step :| Enabled(run[i - 1], step) && run[i] == Apply(cfg, run[i - 1], step);
      StepKeepsShape(cfg, run[i - 1], step);
      StepKeepsBarrier(cfg, run[i - 1], step);
    }
  }

  /** Running is entered at most once in a run. */
  lemma RunningOnce(cfg: Config, run: seq<Service>, i: nat)
    requires IsRun(cfg, run) && i < |run|
    ensures run[i].runningEntries <= 1 && (run[i].phase.Running? ==> run[i].runningEntries == 1)
  {
    RunKeepsBarrier(cfg, run, i);
  }

  /** If any worker is about to send, all workers are connected and Running was published, exactly once. */
  lemma NobodySendsEarly(cfg: Config, run: seq<Service>, i: nat, w: nat)
    requires IsRun(cfg, run) && i < |run| && w < |run[i].workers| && run[i].workers[w].pc.Send?
    ensures run[i].connected == |run[i].workers| && run[i].runningEntries == 1
    ensures forall v :: 0 <= v < |run[i].workers| ==> run[i].workers[v].arrived
  {
    RunKeepsBarrier(cfg, run, i);
    assert PlaceOk(run[i].workers[w], run[i].connected, |run[i].workers|, run[i].runningEntries);
    CountBound(run[i].workers);
  }

  /** The run can no longer start: a connection was refused, or the state left Connecting without reaching Running. */
  ghost predicate Aborted(s: Service) {
    s.runningEntries == 0 && (!s.phase.Connecting? || exists w :: 0 <= w < |s.workers| && s.workers[w].refused)
  }

  lemma AbortedStep(cfg: Config, s: Service, step: Step)
    requires Barrier(s) && Aborted(s) && Enabled(s, step) && |cfg.thresholds| == |s.workers|
    ensures Aborted(Apply(cfg, s, step))
  {
    var t := Apply(cfg, s, step);
    if w :| 0 <= w < |s.workers| && s.workers[w].refused {
      assert PlaceOk(s.workers[w], s.connected, |s.workers|, s.runningEntries);
      CountBound(s.workers);
      RefusedStays(cfg, s, step, w);
      assert t.workers[w].refused;
    }
    match step
    case WorkerStep(w, o) =>
      if AtBarrier(s.workers[w].pc) {
        assert PlaceOk(s.workers[w], s.connected, |s.workers|, s.runningEntries);
        NoSwapWhenAborted(s, w, o);
      } else if InLoop(s.workers[w].pc) {
        LoopStepPlace(cfg, s, w, o);
      } else {
        EndingStepPlace(s, w, o);
      }
    case SupervisorStep(_) =>
    case SpuriousWakeup =>
    case SecondStop =>
    case CallerStep(_) =>
  }

  lemma NoSwapWhenAborted(s: Service, w: nat, o: Outcome)
    requires WorkerEnabled(s, w, o) && AtBarrier(s.workers[w].pc)
    requires s.workers[w].pc.Swap? ==> !s.phase.Connecting?
    ensures var t := BarrierNext(s, w, o); t.runningEntries == s.runningEntries && t.phase == s.phase
  {
  }

  lemma WorkerRefusedStays(cfg: Config, s: Service, v: nat, o: Outcome, w: nat)
    requires WorkerEnabled(s, v, o) && |cfg.thresholds| == |s.workers| && w < |s.workers| && s.workers[w].refused
    ensures var t := WorkerNext(cfg, s, v, o); |t.workers| == |s.workers| && t.workers[w].refused
  {
    if AtBarrier(s.workers[v].pc) {
      BarrierStepLocal(s, v, o);
    } else if InLoop(s.workers[v].pc) {
      LoopStepPlace(cfg, s, v, o);
    } else {
      EndingStepPlace(s, v, o);
    }
  }

  lemma SupervisorRefusedStays(s: Service, throws: bool, w: nat)
    requires SupervisorEnabled(s, throws) && w < |s.workers| && s.workers[w].refused
    ensures var t := SupervisorNext(s, throws); |t.workers| == |s.workers| && t.workers[w].refused
  {
  }

  lemma RefusedStays(cfg: Config, s: Service, step: Step, w: nat)
    requires Enabled(s, step) && |cfg.thresholds| == |s.workers| && w < |s.workers| && s.workers[w].refused
    ensures var t := Apply(cfg, s, step); |t.workers| == |s.workers| && t.workers[w].refused
  {
    match step
    case WorkerStep(v, o) => WorkerRefusedStays(cfg, s, v, o, w);
    case SupervisorStep(throws) => SupervisorRefusedStays(s, throws, w);
    case SpuriousWakeup =>
    case SecondStop =>
    case CallerStep(_) =>
  }

  lemma AbortedNext(cfg: Config, s: Service, t: Service)
    requires Aborted(s) && Barrier(s) && |cfg.thresholds| == |s.workers|
    requires exists step: Step :: Enabled(s, step) && t == Apply(cfg, s, step)
    ensures Aborted(t)
  {
    var step: Step :| Enabled(s, step) && t == Apply(cfg, s, step);
    AbortedStep(cfg, s, step);
  }

  lemma {:induction false} AbortedForever(cfg: Config, run: seq<Service>, i: nat, j: nat)
    requires IsRun(cfg, run) && i <= j < |run| && Aborted(run[i])
    ensures Aborted(run[j])
    decreases j
  {
    if i < j {
      AbortedForever(cfg, run, i, j - 1);
      RunKeepsBarrier(cfg, run, j - 1);
      assert Follows(cfg, run, j);
      AbortedNext(cfg, run[j - 1], run[j]);
    }
  }

  /** Once a connect has thrown, or the state has left Connecting for anything but Running, no worker of the run ever sends. */
  lemma AbortedRunNeverSends(cfg: Config, run: seq<Service>, i: nat, j: nat, w: nat)
    requires IsRun(cfg, run) && i <= j < |run| && Aborted(run[i]) && w < |run[j].workers|
    ensures !PassedBarrier(run[j].workers[w].pc)
  {
    AbortedForever(cfg, run, i, j);
    RunKeepsBarrier(cfg, run, j);
    assert PlaceOk(run[j].workers[w], run[j].connected, |run[j].workers|, run[j].runningEntries);
  }
}
