/** The three counters of the statistics. */
module Tallies {
  datatype Counter = Messages | Datagrams | Bytes

  datatype Tally = Tally(messages: nat, datagrams: nat, bytes: nat) {
    function Plus(other: Tally): Tally {
      Tally(messages + other.messages, datagrams + other.datagrams, bytes + other.bytes)
    }

    function Of(counter: Counter): nat {
      match counter
      case Messages => messages
      case Datagrams => datagrams
      case Bytes => bytes
    }
  }

  const ZERO := Tally(0, 0, 0)
}

/** One run of the stress-test service: the caller of start, request_stop and stop, the supervisor thread and the
    worker threads. One step is one atomic access, one action under a mutex, or one call into a transport. */
module Lifecycle {
  import opened Tallies

  datatype Phase = Stopped | Connecting | Running | Stopping | Failed

  /** Where a flush continues. */
  datatype After = ToHead | ToExit | ToLimit | ToError

  datatype WorkerPc =
    | Unborn
    | Connect
    | Arrived(ready: nat)        // has incremented the connected counter
    | StampStart                 // last to arrive: notes the start time under the lifecycle mutex
    | Swap                       // compare-exchange from Connecting to Running
    | Spin                       // waits for the state to leave Connecting
    | Recheck                    // loads the state once more
    | Head
    | Build                      // renders a batch and paces it
    | AfterWait
    | Send
    | Count(batch: Tally)        // acknowledged, not yet counted
    | Flush(part: nat, after: After)
    | CompletionLoad
    | CompletionStore
    | ErrorCount
    | ErrorStore
    | Signal
    | Callback                   // runs the supervisor's stop callback
    | Done

  /** The history fields say what happened: arrival at the barrier, a refused connection, passing the barrier,
      acknowledged batches and what was published of them. */
  datatype Worker = Worker(pc: WorkerPc, stop: bool, local: Tally, arrived: bool, refused: bool, entered: bool, acked: Tally, published: Tally)

  datatype SupervisorPc =
    | Prepare
    | CheckStop
    | Spawn(next: nat)
    | Register
    | Acquire
    | Checking                   // holds the wait mutex
    | FallAsleep                 // holds the wait mutex, has seen no stop
    | Asleep
    | StopWorkers(next: nat)
    | Join(next: nat)
    | StampEnd
    | LoadState
    | StoreStopped
    | Deregister
    | UnwindStop(next: nat, spawned: nat)
    | UnwindJoin(next: nat, spawned: nat)
    | FailStore
    | FailSignal
    | Gone

  datatype CallerPc =
    | Idle
    | RequestLoad | RequestStore | RequestSignal | RequestCallback
    | StopLoad | StopStore | StopSignal | StopCallback | StopRelease
    | JoinSupervisor | FinalStore | Returned

  datatype Notifier = Nobody | ByCaller | ByWorker(worker: nat)

  datatype Service = Service(
    phase: Phase, stop: bool, registered: bool, connected: nat, notifier: Notifier,
    supervisor: SupervisorPc, caller: CallerPc, workers: seq<Worker>,
    totals: Tally, errors: nat, runningEntries: nat)

  /** Constants of a run: publish threshold per worker, and whether every batch is published at once (FILE). */
  datatype Config = Config(thresholds: seq<nat>, publishAlways: bool)

  /** Outcome of a call whose result the program does not determine. */
  datatype Outcome = Normal | Throws | Acknowledged(batch: Tally) | AtLimit

  datatype Step =
    | WorkerStep(worker: nat, outcome: Outcome)
    | SupervisorStep(throws: bool)
    | SpuriousWakeup
    | CallerStep(stopping: bool)
    | SecondStop                 // another thread's whole stop() while or after the first one joins

  const NEWBORN := Worker(Unborn, false, ZERO, false, false, false, ZERO, ZERO)

  /** The state that start() leaves when it has created the supervisor. */
  function Started(workers: nat): Service {
    Service(Connecting, false, false, 0, Nobody, Prepare, Idle, seq(workers, _ => NEWBORN), ZERO, 0, 0)
  }

  predicate LifecycleHeld(c: CallerPc) {
    c.RequestLoad? || c.RequestStore? || c.RequestSignal? || c.RequestCallback?
    || c.StopLoad? || c.StopStore? || c.StopSignal? || c.StopCallback? || c.StopRelease?
  }

  /** stop() has moved the supervisor's thread object out: for everybody else there is nothing to join. */
  predicate Released(c: CallerPc) { c.JoinSupervisor? || c.FinalStore? || c.Returned? }

  predicate WaitMutexHeld(p: SupervisorPc) { p.Checking? || p.FallAsleep? }

  // ----- workers -----

  predicate WorkerEnabled(s: Service, w: nat, o: Outcome) {
    && w < |s.workers|
    && match s.workers[w].pc
       case Unborn => false
       case Done => false
       case Connect => o.Normal? || o.Throws?
       case StampStart => o.Normal? && !LifecycleHeld(s.caller)
       case Build => o.Normal? || o.Throws?
       case Send => !o.Normal?
       case Callback => o.Normal? && !WaitMutexHeld(s.supervisor)
       case _ => o.Normal?
  }

  function Put(s: Service, w: nat, worker: Worker): Service
    requires w < |s.workers|
  {
    s.(workers := s.workers[w := worker])
  }

  function Go(s: Service, w: nat, pc: WorkerPc): Service
    requires w < |s.workers|
  {
    Put(s, w, s.workers[w].(pc := pc))
  }

  /** One fetch-and-add of a flush; the local counter it clears is visible to this worker only. */
  function FlushPart(s: Service, w: nat, part: nat, next: WorkerPc): Service
    requires w < |s.workers|
  {
    var k := s.workers[w];
    var moved := if part == 0 then Tally(k.local.messages, 0, 0)
                 else if part == 1 then Tally(0, k.local.datagrams, 0)
                 else Tally(0, 0, k.local.bytes);
    var left := if part == 0 then k.local.(messages := 0)
                else if part == 1 then k.local.(datagrams := 0)
                else k.local.(bytes := 0);
    Put(s, w, k.(pc := next, local := left, published := k.published.Plus(moved))).(totals := s.totals.Plus(moved))
  }

  function AfterFlush(after: After): WorkerPc {
    match after
    case ToHead => Head
    case ToExit => Done
    case ToLimit => CompletionLoad
    case ToError => ErrorCount
  }

  /** The first request turns the token on and, if a callback is registered, obliges this thread to run it. */
  function SignalBy(s: Service, who: Notifier): Service {
    if s.stop then s else s.(stop := true, notifier := if s.registered then who else Nobody)
  }

  predicate MustNotify(s: Service) { !s.stop && s.registered }

  /** The callback takes the wait mutex and wakes the supervisor if it sleeps. */
  function Notify(s: Service): Service {
    s.(notifier := Nobody, supervisor := if s.supervisor.Asleep? then Acquire else s.supervisor)
  }

  predicate AtBarrier(pc: WorkerPc) {
    pc.Connect? || pc.Arrived? || pc.StampStart? || pc.Swap? || pc.Spin? || pc.Recheck?
  }

  predicate InLoop(pc: WorkerPc) {
    pc.Head? || pc.Build? || pc.AfterWait? || pc.Send? || pc.Count? || pc.Flush?
  }

  function BarrierNext(s: Service, w: nat, o: Outcome): Service
    requires WorkerEnabled(s, w, o) && AtBarrier(s.workers[w].pc)
  {
    var k := s.workers[w];
    match k.pc
    case Connect =>
      if o.Throws? then Put(s, w, k.(pc := Flush(0, ToError), refused := true))
      else Put(s, w, k.(pc := Arrived(s.connected + 1), arrived := true)).(connected := s.connected + 1)
    case Arrived(ready) => Go(s, w, if ready == |s.workers| then StampStart else Spin)
    case StampStart => Go(s, w, Swap)
    case Swap =>
      if s.phase.Connecting? then
        Put(s, w, k.(pc := Head, entered := true)).(phase := Running, runningEntries := s.runningEntries + 1)
      else Go(s, w, Done)
    case Spin => if !k.stop && s.phase.Connecting? then s else Go(s, w, Recheck)
    case Recheck => if s.phase.Running? then Put(s, w, k.(pc := Head, entered := true)) else Go(s, w, Done)
  }

  function LoopNext(cfg: Config, s: Service, w: nat, o: Outcome): Service
    requires WorkerEnabled(s, w, o) && InLoop(s.workers[w].pc) && |cfg.thresholds| == |s.workers|
  {
    var k := s.workers[w];
    match k.pc
    case Head => Go(s, w, if k.stop then Flush(0, ToExit) else Build)
    case Build => Go(s, w, if o.Throws? then Flush(0, ToError) else AfterWait)
    case AfterWait => Go(s, w, if k.stop then Flush(0, ToExit) else Send)
    case Send =>
      (match o
       case Acknowledged(batch) => Put(s, w, k.(pc := Count(batch), acked := k.acked.Plus(batch)))
       case AtLimit => Go(s, w, Flush(0, ToLimit))
       case _ => Go(s, w, Flush(0, ToError)))
    case Count(batch) =>
      var local := k.local.Plus(batch);
      Put(s, w, k.(pc := if cfg.publishAlways || local.messages >= cfg.thresholds[w] then Flush(0, ToHead) else Head, local := local))
    case Flush(part, after) => FlushPart(s, w, part, if part < 2 then Flush(part + 1, after) else AfterFlush(after))
  }

  /** publish_completion and publish_error. */
  function EndingNext(s: Service, w: nat, o: Outcome): Service
    requires WorkerEnabled(s, w, o) && !AtBarrier(s.workers[w].pc) && !InLoop(s.workers[w].pc)
  {
    match s.workers[w].pc
    case CompletionLoad => Go(s, w, if s.phase.Failed? then Signal else CompletionStore)
    case CompletionStore => Go(s, w, Signal).(phase := Stopping)
    case ErrorCount => Go(s, w, ErrorStore).(errors := s.errors + 1)
    case ErrorStore => Go(s, w, Signal).(phase := Failed)
    case Signal => SignalBy(Go(s, w, if MustNotify(s) then Callback else Done), ByWorker(w))
    case Callback => Notify(Go(s, w, Done))
  }

  function WorkerNext(cfg: Config, s: Service, w: nat, o: Outcome): Service
    requires WorkerEnabled(s, w, o) && |cfg.thresholds| == |s.workers|
  {
    if AtBarrier(s.workers[w].pc) then BarrierNext(s, w, o)
    else if InLoop(s.workers[w].pc) then LoopNext(cfg, s, w, o)
    else EndingNext(s, w, o)
  }

  // ----- supervisor -----

  predicate SupervisorEnabled(s: Service, throws: bool) {
    match s.supervisor
    case Prepare => true
    case Spawn(_) => true
    case Asleep => false
    case Gone => false
    case Join(i) => !throws && (i < |s.workers| ==> s.workers[i].pc.Done?)
    case UnwindJoin(i, _) => !throws && (i < |s.workers| ==> s.workers[i].pc.Done?)
    case StampEnd => !throws && !LifecycleHeld(s.caller)
    case Deregister => !throws && s.notifier.Nobody?
    case _ => !throws
  }

  function At(s: Service, pc: SupervisorPc): Service { s.(supervisor := pc) }

  function RequestWorkerStop(s: Service, w: nat): Service {
    if w < |s.workers| then Put(s, w, s.workers[w].(stop := true)) else s
  }

  function SupervisorNext(s: Service, throws: bool): Service
    requires SupervisorEnabled(s, throws)
  {
    var n := |s.workers|;
    match s.supervisor
    case Prepare => At(s, if throws then FailStore else CheckStop)
    case CheckStop => if s.stop then At(s, Gone).(phase := Stopped) else At(s, Spawn(0))
    case Spawn(i) =>
      if i >= n then At(s, Register)
      else if throws then At(s, UnwindStop(0, i))
      else At(Go(s, i, Connect), Spawn(i + 1))
    case Register => At(s.(registered := true), Acquire)
    case Acquire => At(s, Checking)
    case Checking => At(s, if s.stop then StopWorkers(0) else FallAsleep)
    case FallAsleep => At(s, Asleep)
    case StopWorkers(i) => if i >= n then At(s, Join(0)) else At(RequestWorkerStop(s, i), StopWorkers(i + 1))
    case Join(i) => At(s, if i >= n then StampEnd else Join(i + 1))
    case StampEnd => At(s, LoadState)
    case LoadState => At(s, if s.phase.Failed? then Deregister else StoreStopped)
    case StoreStopped => At(s, Deregister).(phase := Stopped)
    case Deregister => At(s.(registered := false), Gone)
    case UnwindStop(i, m) => if i >= m then At(s, FailStore) else At(RequestWorkerStop(s, i), UnwindJoin(i, m))
    case UnwindJoin(i, m) => At(s, UnwindStop(i + 1, m))
    case FailStore => At(s, FailSignal).(phase := Failed)
    case FailSignal => SignalBy(At(s, Gone), Nobody)
  }

  // ----- caller -----

  predicate CallerEnabled(s: Service, stopping: bool) {
    match s.caller
    case Idle => true
    case RequestCallback => !WaitMutexHeld(s.supervisor)
    case StopCallback => !WaitMutexHeld(s.supervisor)
    case JoinSupervisor => s.supervisor.Gone?
    case Returned => false
    case _ => true
  }

  function CallerNext(s: Service, stopping: bool): Service
    requires CallerEnabled(s, stopping)
  {
    match s.caller
    case Idle => s.(caller := if stopping then StopLoad else RequestLoad)
    case RequestLoad => s.(caller := if s.phase.Failed? then RequestSignal else RequestStore)
    case RequestStore => s.(caller := RequestSignal, phase := Stopping)
    case RequestSignal => SignalBy(s.(caller := if MustNotify(s) then RequestCallback else Idle), ByCaller)
    case RequestCallback => Notify(s.(caller := Idle))
    case StopLoad => s.(caller := if s.phase.Failed? then StopSignal else StopStore)
    case StopStore => s.(caller := StopSignal, phase := Stopping)
    case StopSignal => SignalBy(s.(caller := if MustNotify(s) then StopCallback else StopRelease), ByCaller)
    case StopCallback => Notify(s.(caller := StopRelease))
    case StopRelease => s.(caller := JoinSupervisor)
    case JoinSupervisor => s.(caller := FinalStore)
    case FinalStore => s.(caller := Returned, phase := Stopped)
  }

  predicate Enabled(s: Service, step: Step) {
    match step
    case WorkerStep(w, o) => WorkerEnabled(s, w, o)
    case SupervisorStep(throws) => SupervisorEnabled(s, throws)
    case SpuriousWakeup => s.supervisor.Asleep?
    case CallerStep(stopping) => CallerEnabled(s, stopping)
    case SecondStop => Released(s.caller)
  }

  function Apply(cfg: Config, s: Service, step: Step): Service
    requires Enabled(s, step) && |cfg.thresholds| == |s.workers|
  {
    match step
    case WorkerStep(w, o) => WorkerNext(cfg, s, w, o)
    case SupervisorStep(throws) => SupervisorNext(s, throws)
    case SpuriousWakeup => At(s, Acquire)
    case CallerStep(stopping) => CallerNext(s, stopping)
    case SecondStop => s.(phase := Stopped)
  }

  /** Interleavings of a run. */
  ghost predicate Follows(cfg: Config, run: seq<Service>, i: nat)
    requires 0 < i < |run|
  {
    var before := run[i - 1];
    |cfg.thresholds| == |before.workers| && exists step: Step :: Enabled(before, step) && run[i] == Apply(cfg, before, step)
  }

  ghost predicate IsRun(cfg: Config, run: seq<Service>) {
    && run != []
    && (forall w :: 0 <= w < |cfg.thresholds| ==> cfg.thresholds[w] > 0)
    && run[0] == Started(|cfg.thresholds|)
    && forall i: nat :: 0 < i < |run| ==> Follows(cfg, run, i)
  }
}

/** Which workers exist at each point of the supervisor. */
module LifecycleShape {
  import opened Lifecycle

  /** Unborn or finished: not a running thread. */
  predicate Resting(k: Worker) { k.pc.Unborn? || k.pc.Done? }

  ghost predicate Born(workers: seq<Worker>, count: nat) {
    forall w :: 0 <= w < |workers| ==> (w < count <==> !workers[w].pc.Unborn?)
  }

  ghost predicate DoneUpTo(workers: seq<Worker>, count: nat) {
    forall w :: 0 <= w < |workers| && w < count ==> workers[w].pc.Done?
  }

  ghost predicate ToldToStop(workers: seq<Worker>, count: nat) {
    forall w :: 0 <= w < |workers| && w < count ==> workers[w].stop
  }

  ghost predicate AllResting(workers: seq<Worker>) {
    forall w :: 0 <= w < |workers| ==> Resting(workers[w])
  }

  ghost predicate Shape(s: Service) {
    var n := |s.workers|;
    match s.supervisor
    case Prepare => Born(s.workers, 0)
    case CheckStop => Born(s.workers, 0)
    case Spawn(i) => i <= n && Born(s.workers, i)
    case Register => Born(s.workers, n)
    case Acquire => Born(s.workers, n)
    case Checking => Born(s.workers, n)
    case FallAsleep => Born(s.workers, n)
    case Asleep => Born(s.workers, n)
    case StopWorkers(i) => i <= n && Born(s.workers, n) && ToldToStop(s.workers, i)
    case Join(i) => i <= n && Born(s.workers, n) && ToldToStop(s.workers, n) && DoneUpTo(s.workers, i)
    case StampEnd => AllResting(s.workers)
    case LoadState => AllResting(s.workers)
    case StoreStopped => AllResting(s.workers)
    case Deregister => AllResting(s.workers)
    case UnwindStop(i, m) => i <= m <= n && Born(s.workers, m) && DoneUpTo(s.workers, i)
    case UnwindJoin(i, m) => i < m <= n && Born(s.workers, m) && DoneUpTo(s.workers, i) && s.workers[i].stop
    case FailStore => AllResting(s.workers)
    case FailSignal => AllResting(s.workers)
    case Gone => AllResting(s.workers)
  }

  /** A worker's step touches its own record, never revives it, and leaves the stop flags alone. */
  ghost predicate Local(s: Service, t: Service, w: nat) {
    && w < |s.workers| == |t.workers|
    && (forall v :: 0 <= v < |s.workers| && v != w ==> t.workers[v] == s.workers[v])
    && t.workers[w].stop == s.workers[w].stop
    && !t.workers[w].pc.Unborn? && !Resting(s.workers[w])
    && t.caller == s.caller && t.registered == s.registered
    && (t.supervisor == s.supervisor || (s.supervisor.Asleep? && t.supervisor.Acquire?))
  }

  lemma ConnectStepLocal(s: Service, w: nat, o: Outcome)
    requires WorkerEnabled(s, w, o) && s.workers[w].pc.Connect?
    ensures Local(s, BarrierNext(s, w, o), w)
  {
  }

  lemma SwapStepLocal(s: Service, w: nat, o: Outcome)
    requires WorkerEnabled(s, w, o) && s.workers[w].pc.Swap?
    ensures Local(s, BarrierNext(s, w, o), w)
  {
  }

  lemma WaitStepLocal(s: Service, w: nat, o: Outcome)
    requires WorkerEnabled(s, w, o) && AtBarrier(s.workers[w].pc) && !s.workers[w].pc.Connect? && !s.workers[w].pc.Swap?
    ensures Local(s, BarrierNext(s, w, o), w)
  {
  }

  lemma BarrierStepLocal(s: Service, w: nat, o: Outcome)
    requires WorkerEnabled(s, w, o) && AtBarrier(s.workers[w].pc)
    ensures Local(s, BarrierNext(s, w, o), w)
  {
    if s.workers[w].pc.Connect? {
      ConnectStepLocal(s, w, o);
    } else if s.workers[w].pc.Swap? {
      SwapStepLocal(s, w, o);
    } else {
      WaitStepLocal(s, w, o);
    }
  }

  lemma LoopStepLocal(cfg: Config, s: Service, w: nat, o: Outcome)
    requires WorkerEnabled(s, w, o) && InLoop(s.workers[w].pc) && |cfg.thresholds| == |s.workers|
    ensures Local(s, LoopNext(cfg, s, w, o), w)
  {
  }

  lemma EndingStepLocal(s: Service, w: nat, o: Outcome)
    requires WorkerEnabled(s, w, o) && !AtBarrier(s.workers[w].pc) && !InLoop(s.workers[w].pc)
    ensures Local(s, EndingNext(s, w, o), w)
  {
  }

  lemma WorkerStepLocal(cfg: Config, s: Service, w: nat, o: Outcome)
    requires WorkerEnabled(s, w, o) && |cfg.thresholds| == |s.workers|
    ensures Local(s, WorkerNext(cfg, s, w, o), w)
  {
    if AtBarrier(s.workers[w].pc) {
      BarrierStepLocal(s, w, o);
    } else if InLoop(s.workers[w].pc) {
      LoopStepLocal(cfg, s, w, o);
    } else {
      EndingStepLocal(s, w, o);
    }
  }

  lemma LocalKeepsShape(s: Service, t: Service, w: nat)
    requires Shape(s) && Local(s, t, w)
    ensures Shape(t)
  {
  }

  ghost predicate BeforeWaiting(p: SupervisorPc) {
    p.Prepare? || p.CheckStop? || p.Spawn? || p.Register? || p.Acquire? || p.Checking? || p.FallAsleep? || p.Asleep?
  }

  lemma SupervisorStartsShape(s: Service, throws: bool)
    requires Shape(s) && SupervisorEnabled(s, throws) && BeforeWaiting(s.supervisor)
    ensures Shape(SupervisorNext(s, throws))
  {
  }

  lemma StopFlagShape(s: Service, i: nat)
    requires Shape(s) && s.supervisor == StopWorkers(i)
    ensures Shape(SupervisorNext(s, false))
  {
  }

  lemma JoinShape(s: Service, i: nat)
    requires Shape(s) && s.supervisor == Join(i) && SupervisorEnabled(s, false)
    ensures Shape(SupervisorNext(s, false))
  {
  }

  lemma UnwindStopShape(s: Service, i: nat, m: nat)
    requires Shape(s) && s.supervisor == UnwindStop(i, m)
    ensures Shape(SupervisorNext(s, false))
  {
  }

  lemma UnwindJoinShape(s: Service, i: nat, m: nat)
    requires Shape(s) && s.supervisor == UnwindJoin(i, m) && SupervisorEnabled(s, false)
    ensures Shape(SupervisorNext(s, false))
  {
  }

  lemma SupervisorEndsShape(s: Service, throws: bool)
    requires Shape(s) && SupervisorEnabled(s, throws) && !BeforeWaiting(s.supervisor)
    ensures Shape(SupervisorNext(s, throws))
  {
    match s.supervisor
    case StopWorkers(i) => StopFlagShape(s, i);
    case Join(i) => JoinShape(s, i);
    case UnwindStop(i, m) => UnwindStopShape(s, i, m);
    case UnwindJoin(i, m) => UnwindJoinShape(s, i, m);
    case _ =>
  }

  lemma SupervisorStepLength(s: Service, throws: bool)
    requires SupervisorEnabled(s, throws)
    ensures |SupervisorNext(s, throws).workers| == |s.workers|
  {
  }

  lemma StepKeepsShape(cfg: Config, s: Service, step: Step)
    requires Shape(s) && Enabled(s, step) && |cfg.thresholds| == |s.workers|
    ensures Shape(Apply(cfg, s, step)) && |Apply(cfg, s, step).workers| == |s.workers|
  {
    match step
    case WorkerStep(w, o) =>
      WorkerStepLocal(cfg, s, w, o);
      LocalKeepsShape(s, WorkerNext(cfg, s, w, o), w);
    case SupervisorStep(throws) =>
      SupervisorStepLength(s, throws);
      if BeforeWaiting(s.supervisor) {
        SupervisorStartsShape(s, throws);
      } else {
        SupervisorEndsShape(s, throws);
      }
    case SpuriousWakeup =>
    case CallerStep(_) =>
    case SecondStop =>
  }
}
