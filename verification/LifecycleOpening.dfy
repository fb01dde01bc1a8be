/** What a run does when nothing disturbs it: the barrier opens, and every worker sends again and again. */
module LifecycleOpening {
  import opened Tallies
  import opened Lifecycle
  import opened LifecycleShape
  import opened LifecycleBarrier
  import opened LifecycleProgress
  import opened LifecycleCompletion
  import opened Progressing

  /** No exception, no limit, no call from outside. */
  predicate CalmStep(step: Step) {
    match step
    case WorkerStep(_, o) => o.Normal? || o.Acknowledged?
    case SupervisorStep(throws) => !throws
    case SpuriousWakeup => true
    case CallerStep(_) => false
    case SecondStop => false
  }

  /** The last worker to arrive, on its way to publishing Running. */
  predicate Opener(k: Worker, n: nat) { k.pc == Arrived(n) || k.pc.StampStart? || k.pc.Swap? }

  predicate CalmWorker(k: Worker, phase: Phase) {
    && !k.stop
    && (k.pc.Unborn? || AtBarrier(k.pc) || InLoop(k.pc))
    && (k.pc.Recheck? ==> phase.Running?)
    && (k.pc.Flush? ==> k.pc.after.ToHead? && k.pc.part <= 2)
  }

  ghost predicate AllCalm(s: Service) {
    forall w :: 0 <= w < |s.workers| ==> CalmWorker(s.workers[w], s.phase)
  }

  ghost predicate SomeOpener(s: Service) { exists w :: 0 <= w < |s.workers| && Opener(s.workers[w], |s.workers|) }

  /** While the state is Connecting and all have arrived, exactly one worker is about to publish Running; afterwards none is. */
  ghost predicate OneOpener(s: Service) {
    && (forall v, w :: 0 <= v < |s.workers| && 0 <= w < |s.workers| && Opener(s.workers[v], |s.workers|) && Opener(s.workers[w], |s.workers|) ==> v == w)
    && (SomeOpener(s) ==> s.phase.Connecting?)
    && (s.phase.Connecting? && s.connected == |s.workers| > 0 ==> SomeOpener(s))
  }

  ghost predicate CalmSurroundings(s: Service) {
    && (s.phase.Connecting? || s.phase.Running?) && !s.stop && s.caller.Idle? && BeforeWaiting(s.supervisor)
  }

  ghost predicate Calm(s: Service) {
    Shape(s) && Barrier(s) && CalmSurroundings(s) && AllCalm(s) && OneOpener(s)
  }

  lemma OpenerMeansAll(s: Service, w: nat)
    requires Barrier(s) && w < |s.workers| && Opener(s.workers[w], |s.workers|)
    ensures s.connected == |s.workers|
  {
    assert PlaceOk(s.workers[w], s.connected, |s.workers|, s.runningEntries);
    CountBound(s.workers);
  }

  // ----- calm steps keep the calm -----

  lemma CalmConnect(s: Service, w: nat)
    requires Calm(s) && w < |s.workers| && s.workers[w].pc.Connect?
    ensures var t := BarrierNext(s, w, Normal); CalmSurroundings(t) && AllCalm(t) && OneOpener(t)
  {
    var t := BarrierNext(s, w, Normal);
    assert PlaceOk(s.workers[w], s.connected, |s.workers|, s.runningEntries);
    CountBound(s.workers);
    assert s.connected < |s.workers|;
    forall v | 0 <= v < |t.workers| && Opener(t.workers[v], |t.workers|) ensures v == w {
      if v != w {
        OpenerMeansAll(s, v);
      }
    }
    assert t.workers[w].pc == Arrived(t.connected);
    if t.connected == |t.workers| {
      assert Opener(t.workers[w], |t.workers|);
    }
  }

  /** A worker that was no opener, moved to a place that is none. */
  lemma CalmMove(s: Service, w: nat, k: Worker)
    requires Calm(s) && w < |s.workers| && CalmWorker(k, s.phase)
    requires Opener(k, |s.workers|) <==> Opener(s.workers[w], |s.workers|)
    ensures var t := Put(s, w, k); CalmSurroundings(t) && AllCalm(t) && OneOpener(t)
  {
    var t := Put(s, w, k);
    forall v | 0 <= v < |s.workers| ensures Opener(t.workers[v], |t.workers|) <==> Opener(s.workers[v], |s.workers|) {
    }
    if v :| 0 <= v < |s.workers| && Opener(s.workers[v], |s.workers|) {
      assert Opener(t.workers[v], |t.workers|);
    }
  }

  lemma CalmSwap(s: Service, w: nat)
    requires Calm(s) && w < |s.workers| && s.workers[w].pc.Swap?
    ensures s.phase.Connecting?
    ensures var t := BarrierNext(s, w, Normal); CalmSurroundings(t) && AllCalm(t) && OneOpener(t)
  {
    var t := BarrierNext(s, w, Normal);
    assert Opener(s.workers[w], |s.workers|);
    assert SomeOpener(s);
    forall v | 0 <= v < |t.workers| ensures !Opener(t.workers[v], |t.workers|) {
      assert v != w ==> t.workers[v] == s.workers[v];
    }
    forall v | 0 <= v < |t.workers| ensures CalmWorker(t.workers[v], t.phase) {
      assert v != w ==> CalmWorker(s.workers[v], s.phase);
    }
  }

  lemma CalmBarrierStep(s: Service, w: nat, o: Outcome)
    requires Calm(s) && WorkerEnabled(s, w, o) && AtBarrier(s.workers[w].pc) && !o.Throws?
    ensures var t := BarrierNext(s, w, o); CalmSurroundings(t) && AllCalm(t) && OneOpener(t)
  {
    var k := s.workers[w];
    assert CalmWorker(k, s.phase);
    assert PlaceOk(k, s.connected, |s.workers|, s.runningEntries);
    match k.pc
    case Connect => CalmConnect(s, w);
    case Arrived(ready) => CalmMove(s, w, k.(pc := if ready == |s.workers| then StampStart else Spin));
    case StampStart => CalmMove(s, w, k.(pc := Swap));
    case Swap => CalmSwap(s, w);
    case Spin =>
      if !s.phase.Connecting? {
        CalmMove(s, w, k.(pc := Recheck));
      }
    case Recheck => CalmMove(s, w, k.(pc := Head, entered := true));
  }

  /** A step in the loop that is calm stays in the loop and touches its own record only. */
  lemma CalmLoopStep(cfg: Config, s: Service, w: nat, o: Outcome)
    requires Calm(s) && WorkerEnabled(s, w, o) && InLoop(s.workers[w].pc) && CalmStep(WorkerStep(w, o)) && |cfg.thresholds| == |s.workers|
    ensures var t := LoopNext(cfg, s, w, o);
            && |t.workers| == |s.workers| && InLoop(t.workers[w].pc) && CalmWorker(t.workers[w], s.phase)
            && t.(totals := s.totals) == Put(s, w, t.workers[w])
  {
    assert CalmWorker(s.workers[w], s.phase);
  }

  lemma TotalsAside(s: Service, t: Service)
    requires CalmSurroundings(s) && AllCalm(s) && OneOpener(s) && s == t.(totals := s.totals)
    ensures CalmSurroundings(t) && AllCalm(t) && OneOpener(t)
  {
    assert t.workers == s.workers;
    assert SomeOpener(t) <==> SomeOpener(s);
  }

  lemma CalmWorkerStep(cfg: Config, s: Service, w: nat, o: Outcome)
    requires Calm(s) && WorkerEnabled(s, w, o) && CalmStep(WorkerStep(w, o)) && |cfg.thresholds| == |s.workers|
    ensures var t := WorkerNext(cfg, s, w, o); CalmSurroundings(t) && AllCalm(t) && OneOpener(t)
  {
    assert CalmWorker(s.workers[w], s.phase);
    if AtBarrier(s.workers[w].pc) {
      CalmBarrierStep(s, w, o);
    } else {
      CalmLoopStep(cfg, s, w, o);
      var t := LoopNext(cfg, s, w, o);
      CalmMove(s, w, t.workers[w]);
      TotalsAside(Put(s, w, t.workers[w]), t);
    }
  }

  lemma CalmSupervisorStep(s: Service)
    requires Calm(s) && SupervisorEnabled(s, false)
    ensures var t := SupervisorNext(s, false); CalmSurroundings(t) && AllCalm(t) && OneOpener(t)
  {
    if s.supervisor.Spawn? && s.supervisor.next < |s.workers| {
      var i := s.supervisor.next;
      assert CalmWorker(s.workers[i], s.phase) && s.workers[i].pc.Unborn?;
      CalmMove(s, i, s.workers[i].(pc := Connect));
      SameWorkers(Put(s, i, s.workers[i].(pc := Connect)), SupervisorNext(s, false));
    } else {
      SameWorkers(s, SupervisorNext(s, false));
    }
  }

  lemma SameWorkers(s: Service, t: Service)
    requires CalmSurroundings(s) && AllCalm(s) && OneOpener(s)
    requires t.workers == s.workers && t.phase == s.phase && t.connected == s.connected
    requires !t.stop && t.caller.Idle? && BeforeWaiting(t.supervisor)
    ensures CalmSurroundings(t) && AllCalm(t) && OneOpener(t)
  {
    assert SomeOpener(t) <==> SomeOpener(s);
  }

  lemma CalmStays(cfg: Config, s: Service, step: Step)
    requires Calm(s) && Enabled(s, step) && CalmStep(step) && |cfg.thresholds| == |s.workers|
    ensures Calm(Apply(cfg, s, step)) && |Apply(cfg, s, step).workers| == |s.workers|
  {
    StepKeepsShape(cfg, s, step);
    StepKeepsBarrier(cfg, s, step);
    match step
    case WorkerStep(w, o) => CalmWorkerStep(cfg, s, w, o);
    case SupervisorStep(_) => CalmSupervisorStep(s);
    case SpuriousWakeup => SameWorkers(s, At(s, Acquire));
  }

  // ----- the barrier opens -----

  /** A worker that looks at the state again enters its loop if it reads Running, whatever else goes on, and ends otherwise. */
  lemma GateLetsIn(cfg: Config, s: Service, w: nat, o: Outcome)
    requires WorkerEnabled(s, w, o) && s.workers[w].pc.Recheck? && |cfg.thresholds| == |s.workers|
    ensures var k := WorkerNext(cfg, s, w, o).workers[w];
            if s.phase.Running? then k.pc.Head? && k.entered else k.pc.Done? && k.entered == s.workers[w].entered
  {
  }

  /** How far a worker is from its loop. */
  function GateRank(pc: WorkerPc): nat {
    match pc
    case Unborn => 7
    case Connect => 6
    case Arrived(_) => 5
    case StampStart => 4
    case Swap => 3
    case Spin => 2
    case Recheck => 1
    case _ => 0
  }

  function RankSum(workers: seq<Worker>): nat {
    if workers == [] then 0 else RankSum(workers[..|workers| - 1]) + GateRank(workers[|workers| - 1].pc)
  }

  lemma {:induction false} RankUpdate(workers: seq<Worker>, w: nat, k: Worker)
    requires w < |workers|
    ensures RankSum(workers[w := k]) + GateRank(workers[w].pc) == RankSum(workers) + GateRank(k.pc)
  {
    var n := |workers| - 1;
    if w < n {
      RankUpdate(workers[..n], w, k);
      assert workers[w := k][..n] == workers[..n][w := k];
    } else {
      assert workers[w := k][..n] == workers[..n];
    }
  }

  predicate Starting(p: SupervisorPc) { p.Prepare? || p.CheckStop? || p.Spawn? }

  function StartRank(p: SupervisorPc, n: nat): nat {
    match p
    case Prepare => n + 3
    case CheckStop => n + 2
    case Spawn(i) => if i <= n then n + 1 - i else 0
    case _ => 0
  }

  function Distance(s: Service): nat { StartRank(s.supervisor, |s.workers|) + RankSum(s.workers) }

  /** Every worker is in its sending loop. */
  ghost predicate Opened(s: Service) { forall w :: 0 <= w < |s.workers| ==> InLoop(s.workers[w].pc) }

  predicate Early(pc: WorkerPc) { pc.Connect? || pc.Arrived? || pc.StampStart? || pc.Swap? }

  predicate Late(pc: WorkerPc) { pc.Spin? || pc.Recheck? }

  function FirstEarly(workers: seq<Worker>): (w: nat)
    ensures w <= |workers| && (w < |workers| ==> Early(workers[w].pc))
    ensures w == |workers| ==> forall v :: 0 <= v < |workers| ==> !Early(workers[v].pc)
  {
    if workers == [] then 0
    else
      var w := FirstEarly(workers[..|workers| - 1]);
      if w == |workers| - 1 && !Early(workers[w].pc) then |workers| else w
  }

  function FirstLate(workers: seq<Worker>): (w: nat)
    ensures w <= |workers| && (w < |workers| ==> Late(workers[w].pc))
    ensures w == |workers| ==> forall v :: 0 <= v < |workers| ==> !Late(workers[v].pc)
  {
    if workers == [] then 0
    else
      var w := FirstLate(workers[..|workers| - 1]);
      if w == |workers| - 1 && !Late(workers[w].pc) then |workers| else w
  }

  lemma {:induction false} FirstsSame(a: seq<Worker>, b: seq<Worker>)
    requires |a| == |b|
    requires forall w :: 0 <= w < |a| ==> (Early(a[w].pc) <==> Early(b[w].pc)) && (Late(a[w].pc) <==> Late(b[w].pc))
    ensures FirstEarly(a) == FirstEarly(b) && FirstLate(a) == FirstLate(b)
  {
    if a != [] {
      FirstsSame(a[..|a| - 1], b[..|b| - 1]);
    }
  }

  /** The thread whose move brings the opening nearer. */
  function OpeningHelper(s: Service): (t: Thread)
    ensures t.WorkerThread? || t.SupervisorThread?
  {
    if Starting(s.supervisor) then SupervisorThread
    else if FirstEarly(s.workers) < |s.workers| then WorkerThread(FirstEarly(s.workers))
    else WorkerThread(FirstLate(s.workers))
  }

  lemma {:induction false} AllArrived(workers: seq<Worker>)
    requires forall w :: 0 <= w < |workers| ==> workers[w].arrived
    ensures CountArrived(workers) == |workers|
  {
    if workers != [] {
      AllArrived(workers[..|workers| - 1]);
    }
  }

  /** With nobody on the way to the barrier, those who wait at it see Running. */
  lemma WaitersSeeRunning(s: Service)
    requires Calm(s) && !Starting(s.supervisor) && FirstEarly(s.workers) == |s.workers| > 0
    ensures s.phase.Running?
  {
    forall w | 0 <= w < |s.workers| ensures s.workers[w].arrived {
      assert CalmWorker(s.workers[w], s.phase);
      assert PlaceOk(s.workers[w], s.connected, |s.workers|, s.runningEntries);
      assert !Early(s.workers[w].pc);
    }
    AllArrived(s.workers);
    if s.phase.Connecting? {
      NoOpener(s);
    }
  }

  lemma NoOpener(s: Service)
    requires FirstEarly(s.workers) == |s.workers|
    ensures !SomeOpener(s)
  {
  }

  /** Until the barrier is open the helper is somebody: the supervisor, or a worker in front of its loop. */
  lemma HelperIsWaiting(s: Service)
    requires Calm(s) && !Opened(s) && !Starting(s.supervisor)
    ensures OpeningHelper(s).WorkerThread?
    ensures var w := OpeningHelper(s).worker;
            w < |s.workers| && AtBarrier(s.workers[w].pc) && (Late(s.workers[w].pc) ==> s.phase.Running?)
  {
    var v :| 0 <= v < |s.workers| && !InLoop(s.workers[v].pc);
    assert CalmWorker(s.workers[v], s.phase);
    if FirstEarly(s.workers) == |s.workers| {
      WaitersSeeRunning(s);
      assert Late(s.workers[v].pc);
    }
  }

  lemma GateStepLowers(s: Service, w: nat, o: Outcome)
    requires Calm(s) && WorkerEnabled(s, w, o) && AtBarrier(s.workers[w].pc) && !o.Throws?
    requires s.workers[w].pc.Spin? ==> !s.phase.Connecting?
    ensures Distance(BarrierNext(s, w, o)) < Distance(s)
  {
    var t := BarrierNext(s, w, o);
    if s.workers[w].pc.Swap? {
      CalmSwap(s, w);
    }
    assert CalmWorker(s.workers[w], s.phase);
    assert t.workers == s.workers[w := t.workers[w]] && t.supervisor == s.supervisor;
    RankUpdate(s.workers, w, t.workers[w]);
  }

  lemma StartStepLowers(s: Service)
    requires Calm(s) && Starting(s.supervisor)
    ensures Distance(SupervisorNext(s, false)) < Distance(s)
  {
    if s.supervisor.Spawn? && s.supervisor.next < |s.workers| {
      var i := s.supervisor.next;
      RankUpdate(s.workers, i, s.workers[i].(pc := Connect));
    }
  }

  /** The helper can always move, and whatever it does brings the opening nearer. */
  lemma OpeningHelperWorks(cfg: Config, s: Service, step: Step)
    requires Calm(s) && !Opened(s) && |cfg.thresholds| == |s.workers|
    ensures CanMove(s, OpeningHelper(s))
    ensures Enabled(s, step) && CalmStep(step) && ThreadOf(step) == OpeningHelper(s) ==> Distance(Apply(cfg, s, step)) < Distance(s)
  {
    if Starting(s.supervisor) {
      assert Enabled(s, SupervisorStep(false)) && ThreadOf(SupervisorStep(false)) == SupervisorThread;
      StartStepLowers(s);
    } else {
      HelperIsWaiting(s);
      var w := OpeningHelper(s).worker;
      assert Enabled(s, WorkerStep(w, Normal)) && ThreadOf(WorkerStep(w, Normal)) == WorkerThread(w);
      if Enabled(s, step) && CalmStep(step) && ThreadOf(step) == OpeningHelper(s) {
        GateStepLowers(s, w, step.outcome);
      }
    }
  }

  /** Every calm step brings the opening nearer, or changes neither the distance nor the helper. */
  lemma CalmStepEffect(cfg: Config, s: Service, step: Step)
    requires Calm(s) && Enabled(s, step) && CalmStep(step) && |cfg.thresholds| == |s.workers|
    ensures var t := Apply(cfg, s, step);
            Distance(t) < Distance(s) || (Distance(t) == Distance(s) && OpeningHelper(t) == OpeningHelper(s))
  {
    match step
    case WorkerStep(w, o) =>
      assert CalmWorker(s.workers[w], s.phase);
      if InLoop(s.workers[w].pc) {
        LoopStepSame(cfg, s, w, o);
      } else if !(s.workers[w].pc.Spin? && s.phase.Connecting?) {
        GateStepLowers(s, w, o);
      }
    case SupervisorStep(_) =>
      if Starting(s.supervisor) {
        StartStepLowers(s);
      } else {
        WatchStepSame(s);
      }
    case SpuriousWakeup =>
  }

  lemma LoopStepSame(cfg: Config, s: Service, w: nat, o: Outcome)
    requires Calm(s) && WorkerEnabled(s, w, o) && InLoop(s.workers[w].pc) && CalmStep(WorkerStep(w, o)) && |cfg.thresholds| == |s.workers|
    ensures var t := LoopNext(cfg, s, w, o); Distance(t) == Distance(s) && OpeningHelper(t) == OpeningHelper(s)
  {
    CalmLoopStep(cfg, s, w, o);
    var t := LoopNext(cfg, s, w, o);
    RankUpdate(s.workers, w, t.workers[w]);
    FirstsSame(s.workers, t.workers);
  }

  lemma WatchStepSame(s: Service)
    requires Calm(s) && SupervisorEnabled(s, false) && !Starting(s.supervisor)
    ensures var t := SupervisorNext(s, false); Distance(t) == Distance(s) && OpeningHelper(t) == OpeningHelper(s)
  {
  }

  // ----- whole schedules -----

  ghost predicate CalmAt(cfg: Config, run: Schedule, choice: Choice, k: nat) {
    match choice(k)
    case None => run(k + 1) == run(k)
    case Some(step) =>
      |cfg.thresholds| == |run(k).workers| && Enabled(run(k), step) && CalmStep(step) && run(k + 1) == Apply(cfg, run(k), step)
  }

  /** From the start on nothing disturbs the run, and the scheduler is weakly fair to every thread. */
  ghost predicate Undisturbed(cfg: Config, run: Schedule, choice: Choice) {
    && run(0) == Started(|cfg.thresholds|)
    && (forall w :: 0 <= w < |cfg.thresholds| ==> cfg.thresholds[w] > 0)
    && (forall k: nat :: CalmAt(cfg, run, choice, k))
    && FairScheduler(run, choice)
  }

  lemma StartIsCalm(n: nat)
    ensures Calm(Started(n))
  {
    NobodyArrived(Started(n).workers);
  }

  lemma {:induction false} AlwaysCalm(cfg: Config, run: Schedule, choice: Choice, k: nat)
    requires Undisturbed(cfg, run, choice)
    ensures Calm(run(k)) && |run(k).workers| == |cfg.thresholds|
  {
    if k == 0 {
      StartIsCalm(|cfg.thresholds|);
    } else {
      AlwaysCalm(cfg, run, choice, k - 1);
      assert CalmAt(cfg, run, choice, k - 1);
      if choice(k - 1).Some? {
        CalmStays(cfg, run(k - 1), choice(k - 1).value);
      }
    }
  }

  /** If nothing disturbs a run, the barrier opens: every worker comes into its sending loop. */
  lemma BarrierOpens(cfg: Config, run: Schedule, choice: Choice, i: nat) returns (j: nat)
    requires Undisturbed(cfg, run, choice)
    ensures i <= j && |run(j).workers| == |cfg.thresholds| && Opened(run(j))
  {
    var goal: nat -> bool := (k: nat) => Opened(run(k));
    var distance: nat -> nat := (k: nat) => Distance(run(k));
    var helper: nat -> Thread := (k: nat) => OpeningHelper(run(k));
    var able: (nat, Thread) -> bool := (k: nat, t: Thread) => CanMove(run(k), t);
    var moves: (nat, Thread) -> bool := (k: nat, t: Thread) => MovesNow(choice, t, k);
    forall k: nat | i <= k && !goal(k) ensures DrivesAt(goal, distance, helper, able, moves, k) {
      OpeningMoment(cfg, run, choice, k);
    }
    forall k: nat ensures Fair(able, moves, helper(k)) {
      var t := OpeningHelper(run(k));
      ThreadIsFair(run, choice, t, able, moves);
      assert helper(k) == t;
    }
    j := GoalIsReached(goal, distance, helper, able, moves, i);
    AlwaysCalm(cfg, run, choice, j);
  }

  lemma OpeningMoment(cfg: Config, run: Schedule, choice: Choice, k: nat)
    requires Undisturbed(cfg, run, choice) && !Opened(run(k))
    ensures CanMove(run(k), OpeningHelper(run(k)))
    ensures Distance(run(k + 1)) < Distance(run(k))
            || (Distance(run(k + 1)) == Distance(run(k)) && OpeningHelper(run(k + 1)) == OpeningHelper(run(k))
                && !MovesNow(choice, OpeningHelper(run(k)), k))
  {
    AlwaysCalm(cfg, run, choice, k);
    assert CalmAt(cfg, run, choice, k);
    if choice(k).Some? {
      CalmStepEffect(cfg, run(k), choice(k).value);
      OpeningHelperWorks(cfg, run(k), choice(k).value);
    } else {
      OpeningHelperWorks(cfg, run(k), SpuriousWakeup);
    }
  }

  // ----- and everybody sends -----

  /** How many of its own steps a worker in the loop is away from its next send. */
  function SendRank(pc: WorkerPc): nat {
    match pc
    case Send => 0
    case AfterWait => 1
    case Build => 2
    case Head => 3
    case Flush(part, _) => if part <= 2 then 6 - part else 0
    case Count(_) => 7
    case _ => 8
  }

  /** At this moment the transport of worker w acknowledges a batch. */
  predicate AcknowledgedAt(choice: Choice, w: nat, k: nat) {
    choice(k).Some? && choice(k).value.WorkerStep? && choice(k).value.worker == w && choice(k).value.outcome.Acknowledged?
  }

  lemma {:induction false} StaysInLoop(cfg: Config, run: Schedule, choice: Choice, w: nat, i: nat, k: nat)
    requires Undisturbed(cfg, run, choice) && i <= k && w < |run(i).workers| && InLoop(run(i).workers[w].pc)
    ensures w < |run(k).workers| && InLoop(run(k).workers[w].pc)
    decreases k
  {
    if i < k {
      StaysInLoop(cfg, run, choice, w, i, k - 1);
      LoopMoment(cfg, run, choice, w, k - 1);
    }
  }

  /** A worker in the loop can always move; only its own steps move it, and each but an acknowledgement brings it nearer to
      its next send. */
  lemma LoopMoment(cfg: Config, run: Schedule, choice: Choice, w: nat, k: nat)
    requires Undisturbed(cfg, run, choice) && w < |run(k).workers| && InLoop(run(k).workers[w].pc)
    ensures w < |run(k + 1).workers| && InLoop(run(k + 1).workers[w].pc) && CanMove(run(k), WorkerThread(w))
    ensures if MovesNow(choice, WorkerThread(w), k)
            then AcknowledgedAt(choice, w, k) || SendRank(run(k + 1).workers[w].pc) < SendRank(run(k).workers[w].pc)
            else run(k + 1).workers[w].pc == run(k).workers[w].pc
  {
    AlwaysCalm(cfg, run, choice, k);
    assert CalmAt(cfg, run, choice, k);
    LoopWorkerCanMove(run(k), w);
    if choice(k).Some? {
      LoopStepEffect(cfg, run(k), choice(k).value, w);
    }
  }

  lemma LoopWorkerCanMove(s: Service, w: nat)
    requires w < |s.workers| && InLoop(s.workers[w].pc)
    ensures CanMove(s, WorkerThread(w))
  {
    var o := if s.workers[w].pc.Send? then Acknowledged(ZERO) else Normal;
    assert Enabled(s, WorkerStep(w, o)) && ThreadOf(WorkerStep(w, o)) == WorkerThread(w);
  }

  lemma LoopStepEffect(cfg: Config, s: Service, step: Step, w: nat)
    requires Calm(s) && Enabled(s, step) && CalmStep(step) && |cfg.thresholds| == |s.workers|
    requires w < |s.workers| && InLoop(s.workers[w].pc)
    ensures var t := Apply(cfg, s, step);
            && w < |t.workers| && InLoop(t.workers[w].pc)
            && if ThreadOf(step) == WorkerThread(w)
               then (step.outcome.Acknowledged? || SendRank(t.workers[w].pc) < SendRank(s.workers[w].pc))
               else t.workers[w].pc == s.workers[w].pc
  {
    match step
    case WorkerStep(v, o) =>
      if v == w {
        CalmLoopStep(cfg, s, w, o);
        OwnLoopStep(cfg, s, w, o);
      } else {
        WorkerStepLocal(cfg, s, v, o);
      }
    case SupervisorStep(_) =>
      if s.supervisor.Spawn? && s.supervisor.next < |s.workers| {
        assert s.workers[s.supervisor.next].pc.Unborn?;
      }
    case SpuriousWakeup =>
  }

  lemma OwnLoopStep(cfg: Config, s: Service, w: nat, o: Outcome)
    requires Calm(s) && WorkerEnabled(s, w, o) && InLoop(s.workers[w].pc) && CalmStep(WorkerStep(w, o)) && |cfg.thresholds| == |s.workers|
    ensures o.Acknowledged? || SendRank(LoopNext(cfg, s, w, o).workers[w].pc) < SendRank(s.workers[w].pc)
  {
    assert CalmWorker(s.workers[w], s.phase);
  }

  /** If nothing disturbs a run, every worker has batches acknowledged again and again. */
  lemma EverybodySends(cfg: Config, run: Schedule, choice: Choice, w: nat, i: nat) returns (j: nat)
    requires Undisturbed(cfg, run, choice) && w < |cfg.thresholds|
    ensures i <= j && AcknowledgedAt(choice, w, j)
  {
    var open := BarrierOpens(cfg, run, choice, i);
    var t := WorkerThread(w);
    var goal: nat -> bool := (k: nat) => AcknowledgedAt(choice, w, k);
    var distance: nat -> nat := (k: nat) => if w < |run(k).workers| then SendRank(run(k).workers[w].pc) else 0;
    var helper: nat -> Thread := (k: nat) => t;
    var able: (nat, Thread) -> bool := (k: nat, u: Thread) => CanMove(run(k), u);
    var moves: (nat, Thread) -> bool := (k: nat, u: Thread) => MovesNow(choice, u, k);
    forall k: nat | open <= k && !goal(k) ensures DrivesAt(goal, distance, helper, able, moves, k) {
      StaysInLoop(cfg, run, choice, w, open, k);
      LoopMoment(cfg, run, choice, w, k);
    }
    ThreadIsFair(run, choice, t, able, moves);
    j := GoalIsReached(goal, distance, helper, able, moves, open);
  }
}
