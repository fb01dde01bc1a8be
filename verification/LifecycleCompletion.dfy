/** What stop() promises: it returns under every fair schedule, and afterwards nothing moves. */
module LifecycleCompletion {
  import opened Options
  import opened Lifecycle
  import opened LifecycleShape
  import opened LifecycleSync
  import opened LifecycleProgress
  import opened Progressing

  datatype Thread = WorkerThread(worker: nat) | SupervisorThread | CallerThread | OtherCaller | System

  function ThreadOf(step: Step): Thread {
    match step
    case WorkerStep(w, _) => WorkerThread(w)
    case SupervisorStep(_) => SupervisorThread
    case CallerStep(_) => CallerThread
    case SpuriousWakeup => System
    case SecondStop => OtherCaller
  }

  /** The helpful thread brings the end nearer whatever happens to it: a batch sent, a limit, an exception. */
  lemma HelpfulThreadAdvances(cfg: Config, s: Service, step: Step)
    requires Sound(s) && Ends(s) && Unfinished(s) && Enabled(s, step) && |cfg.thresholds| == |s.workers|
    requires ThreadOf(step) == ThreadOf(Helpful(s))
    ensures Measure(Apply(cfg, s, step)) < Measure(s)
  {
    match step
    case WorkerStep(w, o) =>
      AwaitedWorkerIsEnding(s, w);
      WorkerStepAdvances(cfg, s, w, o);
      AdvanceMeasure(s, WorkerNext(cfg, s, w, o), w);
    case SupervisorStep(throws) =>
      HelpfulSupervisor(s);
      SupervisorMeasure(s, throws);
    case CallerStep(stopping) =>
      HelpfulCaller(s);
      CallerMeasure(s, stopping);
    case SpuriousWakeup => HelpfulStepAdvances(cfg, s);
    case SecondStop => HelpfulStepAdvances(cfg, s);
  }

  /** An infinite schedule; at some moments nothing happens. */
  type Schedule = nat -> Service
  type Choice = nat -> Option<Step>

  ghost predicate MovesAt(cfg: Config, run: Schedule, choice: Choice, k: nat) {
    match choice(k)
    case None => run(k + 1) == run(k)
    case Some(step) => |cfg.thresholds| == |run(k).workers| && Enabled(run(k), step) && !NewCall(run(k), step) && run(k + 1) == Apply(cfg, run(k), step)
  }

  ghost predicate OnTheWayOut(cfg: Config, s: Service) { Sound(s) && Ends(s) && |cfg.thresholds| == |s.workers| }

  lemma StepStaysOnTheWayOut(cfg: Config, s: Service, step: Step)
    requires OnTheWayOut(cfg, s) && Enabled(s, step)
    ensures OnTheWayOut(cfg, Apply(cfg, s, step))
  {
    StepKeepsShape(cfg, s, step);
    StepKeepsSync(cfg, s, step);
    EndsForGood(cfg, s, step);
  }

  lemma MoveEffect(cfg: Config, run: Schedule, choice: Choice, k: nat)
    requires OnTheWayOut(cfg, run(k)) && MovesAt(cfg, run, choice, k)
    ensures OnTheWayOut(cfg, run(k + 1))
    ensures Measure(run(k + 1)) < Measure(run(k))
            || (Helpful(run(k + 1)) == Helpful(run(k)) && Measure(run(k + 1)) == Measure(run(k)))
  {
    if choice(k).Some? {
      StepStaysOnTheWayOut(cfg, run(k), choice(k).value);
      HelpfulStays(cfg, run(k), choice(k).value);
      NoStepRaises(cfg, run(k), choice(k).value);
    }
  }

  // ----- weak fairness -----

  /** The thread could take a step now, other than a fresh call. */
  ghost predicate CanMove(s: Service, t: Thread) {
    exists step: Step :: Enabled(s, step) && !NewCall(s, step) && ThreadOf(step) == t
  }

  predicate MovesNow(choice: Choice, t: Thread, k: nat) { choice(k).Some? && ThreadOf(choice(k).value) == t }

  ghost predicate CanMoveFrom(run: Schedule, t: Thread, i: nat) { forall k: nat :: i <= k ==> CanMove(run(k), t) }

  ghost predicate MovesAfter(choice: Choice, t: Thread, i: nat) { exists k: nat :: i <= k && MovesNow(choice, t, k) }

  /** A thread that can move at every moment from some moment on moves at some later moment. */
  ghost predicate WeaklyFair(run: Schedule, choice: Choice, t: Thread) {
    forall i: nat :: CanMoveFrom(run, t, i) ==> MovesAfter(choice, t, i)
  }

  /** The scheduler is weakly fair to every worker, the supervisor and the caller; nobody need ever wake spuriously. */
  ghost predicate FairScheduler(run: Schedule, choice: Choice) {
    forall t: Thread :: !t.System? && !t.OtherCaller? ==> WeaklyFair(run, choice, t)
  }

  lemma HelpfulThreadCanMove(cfg: Config, s: Service)
    requires OnTheWayOut(cfg, s) && Unfinished(s)
    ensures CanMove(s, ThreadOf(Helpful(s)))
    ensures !ThreadOf(Helpful(s)).System? && !ThreadOf(Helpful(s)).OtherCaller?
  {
    HelpfulStepAdvances(cfg, s);
  }

  lemma {:induction false} StaysOnTheWayOut(cfg: Config, run: Schedule, choice: Choice, i: nat, j: nat)
    requires i <= j && OnTheWayOut(cfg, run(i))
    requires forall m: nat :: MovesAt(cfg, run, choice, m)
    ensures OnTheWayOut(cfg, run(j))
    decreases j
  {
    if i < j {
      StaysOnTheWayOut(cfg, run, choice, i, j - 1);
      MoveEffect(cfg, run, choice, j - 1);
    }
  }

  /** Weak fairness to one thread, as the general argument needs it. */
  lemma ThreadIsFair(run: Schedule, choice: Choice, t: Thread, able: (nat, Thread) -> bool, moves: (nat, Thread) -> bool)
    requires FairScheduler(run, choice) && !t.System? && !t.OtherCaller?
    requires forall k: nat {:trigger able(k, t)} {:trigger CanMove(run(k), t)} :: able(k, t) <==> CanMove(run(k), t)
    requires forall k: nat {:trigger moves(k, t)} {:trigger MovesNow(choice, t, k)} :: moves(k, t) <==> MovesNow(choice, t, k)
    ensures Fair(able, moves, t)
  {
    assert WeaklyFair(run, choice, t);
    forall i: nat | AbleFrom(able, t, i) ensures MovesFrom(moves, t, i) {
      assert CanMoveFrom(run, t, i);
      assert MovesAfter(choice, t, i);
      var k: nat :| i <= k && MovesNow(choice, t, k);
      assert moves(k, t);
    }
  }

  /** While something is unfinished the helpful thread can move; the measure falls, or it stays the helpful one. */
  lemma UnfinishedMoment(cfg: Config, run: Schedule, choice: Choice, k: nat)
    requires OnTheWayOut(cfg, run(k)) && MovesAt(cfg, run, choice, k) && Unfinished(run(k))
    ensures CanMove(run(k), ThreadOf(Helpful(run(k))))
    ensures Measure(run(k + 1)) < Measure(run(k))
            || (Measure(run(k + 1)) == Measure(run(k)) && Helpful(run(k + 1)) == Helpful(run(k))
                && !MovesNow(choice, ThreadOf(Helpful(run(k))), k))
  {
    HelpfulThreadCanMove(cfg, run(k));
    MoveEffect(cfg, run, choice, k);
    if MovesNow(choice, ThreadOf(Helpful(run(k))), k) {
      HelpfulThreadAdvances(cfg, run(k), choice(k).value);
    }
  }

  /** Stop always completes: once the token is on, or a call is about to turn it on, or the supervisor failed, every weakly
      fair schedule reaches a moment at which all threads are finished and no call is in progress. */
  lemma FairSchedulesFinish(cfg: Config, run: Schedule, choice: Choice, i: nat) returns (j: nat)
    requires OnTheWayOut(cfg, run(i)) && FairScheduler(run, choice)
    requires forall m: nat :: MovesAt(cfg, run, choice, m)
    ensures i <= j && OnTheWayOut(cfg, run(j)) && !Unfinished(run(j))
  {
    var goal: nat -> bool := (k: nat) => !Unfinished(run(k));
    var distance: nat -> nat := (k: nat) => Measure(run(k));
    var helper: nat -> Thread := (k: nat) => ThreadOf(Helpful(run(k)));
    var able: (nat, Thread) -> bool := (k: nat, t: Thread) => CanMove(run(k), t);
    var moves: (nat, Thread) -> bool := (k: nat, t: Thread) => MovesNow(choice, t, k);
    forall k: nat | i <= k && !goal(k) ensures DrivesAt(goal, distance, helper, able, moves, k) {
      StaysOnTheWayOut(cfg, run, choice, i, k);
      UnfinishedMoment(cfg, run, choice, k);
    }
    forall k: nat | i <= k ensures !goal(k) ==> Fair(able, moves, helper(k)) {
      StaysOnTheWayOut(cfg, run, choice, i, k);
      if !goal(k) {
        HelpfulThreadCanMove(cfg, run(k));
        ThreadIsFair(run, choice, ThreadOf(Helpful(run(k))), able, moves);
      }
    }
    j := GoalIsReached(goal, distance, helper, able, moves, i);
    StaysOnTheWayOut(cfg, run, choice, i, j);
  }

  // ----- stop() -----

  predicate InStop(c: CallerPc) {
    c.StopLoad? || c.StopStore? || c.StopSignal? || c.StopCallback? || HasSignalled(c)
  }

  lemma StepStaysInStop(cfg: Config, s: Service, step: Step)
    requires Enabled(s, step) && InStop(s.caller) && |cfg.thresholds| == |s.workers|
    ensures InStop(Apply(cfg, s, step).caller)
  {
    if step.WorkerStep? {
      WorkerStepLocal(cfg, s, step.worker, step.outcome);
    }
  }

  lemma {:induction false} ScheduleStaysInStop(cfg: Config, run: Schedule, choice: Choice, i: nat, j: nat)
    requires i <= j && InStop(run(i).caller)
    requires forall m: nat :: MovesAt(cfg, run, choice, m)
    ensures InStop(run(j).caller)
    decreases j
  {
    if i < j {
      ScheduleStaysInStop(cfg, run, choice, i, j - 1);
      assert MovesAt(cfg, run, choice, j - 1);
      if choice(j - 1).Some? {
        StepStaysInStop(cfg, run(j - 1), choice(j - 1).value);
      }
    }
  }

  /** Nothing moves any more: every worker has ended or never started, and a step can at most be a further call of stop()
      that changes nothing. */
  ghost predicate Frozen(cfg: Config, s: Service)
    requires |cfg.thresholds| == |s.workers|
  {
    && s.phase.Stopped? && s.supervisor.Gone? && AllResting(s.workers)
    && forall step: Step :: Enabled(s, step) ==> step.SecondStop? && Apply(cfg, s, step) == s
  }

  lemma ReturnedIsFrozen(cfg: Config, s: Service)
    requires Sound(s) && s.caller.Returned? && |cfg.thresholds| == |s.workers|
    ensures Frozen(cfg, s)
  {
  }

  /** A call of stop(), at whatever point of its run the service is, returns under every fair schedule; then all workers
      are joined, the state is Stopped and no counter can change again. */
  lemma StopReturns(cfg: Config, run: Schedule, choice: Choice, i: nat) returns (j: nat)
    requires Sound(run(i)) && InStop(run(i).caller) && |cfg.thresholds| == |run(i).workers|
    requires forall m: nat :: MovesAt(cfg, run, choice, m)
    requires FairScheduler(run, choice)
    ensures i <= j && run(j).caller.Returned? && |cfg.thresholds| == |run(j).workers| && Frozen(cfg, run(j))
  {
    j := FairSchedulesFinish(cfg, run, choice, i);
    ScheduleStaysInStop(cfg, run, choice, i, j);
    ReturnedIsFrozen(cfg, run(j));
  }

  /** In a run, the state in which stop() has returned never changes again. */
  lemma {:induction false} ReturnedIsLast(cfg: Config, run: seq<Service>, i: nat, j: nat)
    requires IsRun(cfg, run) && i <= j < |run| && run[i].caller.Returned?
    ensures run[j] == run[i] && |cfg.thresholds| == |run[i].workers| && Frozen(cfg, run[i])
    decreases j
  {
    RunIsSound(cfg, run, i);
    ReturnedIsFrozen(cfg, run[i]);
    if i < j {
      ReturnedIsLast(cfg, run, i, j - 1);
      assert Follows(cfg, run, j);
    }
  }

  /** No lost wake-up: whenever the token is on and the supervisor sleeps, a thread is on its way into the callback. */
  lemma NoLostWakeUp(cfg: Config, run: seq<Service>, i: nat)
    requires IsRun(cfg, run) && i < |run| && run[i].stop && run[i].supervisor.Asleep?
    ensures InCallback(run[i].caller) || exists w :: 0 <= w < |run[i].workers| && run[i].workers[w].pc.Callback?
  {
    RunIsSound(cfg, run, i);
    var s := run[i];
    if s.notifier.ByWorker? {
      assert s.workers[s.notifier.worker].pc.Callback?;
    }
  }
}
