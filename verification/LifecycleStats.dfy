/** The statistics: what is published, held locally or about to be counted is exactly what transports acknowledged. */
module LifecycleStats {
  import opened Tallies
  import opened Lifecycle
  import opened LifecycleShape

  /** Acknowledged, not yet published: local, or about to be counted. */
  function Open(k: Worker, c: Counter): nat { k.local.Of(c) + (if k.pc.Count? then k.pc.batch.Of(c) else 0) }

  predicate Nothing(local: Tally) { local.messages == local.datagrams == local.bytes == 0 }

  predicate LoopLocal(k: Worker, threshold: nat, publishAlways: bool) {
    k.local.messages < threshold && (publishAlways ==> Nothing(k.local))
  }

  /** Where the local counters may be other than zero, and by how much. */
  predicate LocalOk(k: Worker, threshold: nat, publishAlways: bool) {
    match k.pc
    case Head => LoopLocal(k, threshold, publishAlways)
    case Build => LoopLocal(k, threshold, publishAlways)
    case AfterWait => LoopLocal(k, threshold, publishAlways)
    case Send => LoopLocal(k, threshold, publishAlways)
    case Count(_) => LoopLocal(k, threshold, publishAlways)
    case Flush(part, _) => part <= 2 && (part > 0 ==> k.local.messages == 0) && (part > 1 ==> k.local.datagrams == 0)
    case _ => Nothing(k.local)
  }

  predicate Balanced(k: Worker, c: Counter) { k.published.Of(c) + Open(k, c) == k.acked.Of(c) }

  predicate Accounted(k: Worker, c: Counter, threshold: nat, publishAlways: bool) {
    Balanced(k, c) && LocalOk(k, threshold, publishAlways)
  }

  ghost predicate AllAccounted(cfg: Config, s: Service, c: Counter)
    requires |cfg.thresholds| == |s.workers|
  {
    forall w :: 0 <= w < |s.workers| ==> Accounted(s.workers[w], c, cfg.thresholds[w], cfg.publishAlways)
  }

  function TotalPublished(workers: seq<Worker>, c: Counter): nat {
    if workers == [] then 0 else TotalPublished(workers[..|workers| - 1], c) + workers[|workers| - 1].published.Of(c)
  }

  function TotalOpen(workers: seq<Worker>, c: Counter): nat {
    if workers == [] then 0 else TotalOpen(workers[..|workers| - 1], c) + Open(workers[|workers| - 1], c)
  }

  function TotalAcked(workers: seq<Worker>, c: Counter): nat {
    if workers == [] then 0 else TotalAcked(workers[..|workers| - 1], c) + workers[|workers| - 1].acked.Of(c)
  }

  lemma {:induction false} PublishedUpdate(workers: seq<Worker>, w: nat, k: Worker, c: Counter)
    requires w < |workers|
    ensures TotalPublished(workers[w := k], c) + workers[w].published.Of(c) == TotalPublished(workers, c) + k.published.Of(c)
  {
    var n := |workers| - 1;
    if w < n {
      PublishedUpdate(workers[..n], w, k, c);
      assert workers[w := k][..n] == workers[..n][w := k];
    } else {
      assert workers[w := k][..n] == workers[..n];
    }
  }

  lemma {:induction false} TotalsAdd(workers: seq<Worker>, c: Counter)
    requires forall w :: 0 <= w < |workers| ==> Balanced(workers[w], c)
    ensures TotalPublished(workers, c) + TotalOpen(workers, c) == TotalAcked(workers, c)
  {
    if workers != [] {
      var n := |workers| - 1;
      TotalsAdd(workers[..n], c);
      assert Balanced(workers[n], c);
    }
  }

  predicate Settled(k: Worker, c: Counter) { Open(k, c) == 0 }

  lemma {:induction false} NothingOpen(workers: seq<Worker>, c: Counter)
    requires forall w :: 0 <= w < |workers| ==> Settled(workers[w], c)
    ensures TotalOpen(workers, c) == 0
  {
    if workers != [] {
      var n := |workers| - 1;
      NothingOpen(workers[..n], c);
      assert Settled(workers[n], c);
    }
  }

  ghost predicate Conserved(cfg: Config, s: Service, c: Counter)
    requires |cfg.thresholds| == |s.workers|
  {
    AllAccounted(cfg, s, c) && s.totals.Of(c) == TotalPublished(s.workers, c)
  }

  /** What a step of worker w adds to the totals is what it adds to its published counters; the others stay. */
  ghost predicate Moves(s: Service, t: Service, w: nat, c: Counter) {
    && w < |s.workers| == |t.workers| && t.workers == s.workers[w := t.workers[w]]
    && t.totals.Of(c) + s.workers[w].published.Of(c) == s.totals.Of(c) + t.workers[w].published.Of(c)
  }

  lemma MovesKeepTotals(s: Service, t: Service, w: nat, c: Counter)
    requires Moves(s, t, w, c) && s.totals.Of(c) == TotalPublished(s.workers, c)
    ensures t.totals.Of(c) == TotalPublished(t.workers, c)
  {
    PublishedUpdate(s.workers, w, t.workers[w], c);
  }

  lemma BarrierStepTotals(s: Service, w: nat, o: Outcome)
    requires WorkerEnabled(s, w, o) && AtBarrier(s.workers[w].pc)
    ensures var t := BarrierNext(s, w, o);
            && t.totals == s.totals && w < |t.workers| == |s.workers|
            && t.workers == s.workers[w := t.workers[w]] && t.workers[w].published == s.workers[w].published
  {
    assert s.workers[w := s.workers[w]] == s.workers;
  }

  lemma BarrierStepMoves(s: Service, w: nat, o: Outcome, c: Counter)
    requires WorkerEnabled(s, w, o) && AtBarrier(s.workers[w].pc)
    ensures Moves(s, BarrierNext(s, w, o), w, c)
  {
    BarrierStepTotals(s, w, o);
  }

  lemma FlushMoves(s: Service, w: nat, part: nat, next: WorkerPc, c: Counter)
    requires w < |s.workers|
    ensures Moves(s, FlushPart(s, w, part, next), w, c)
  {
  }

  lemma LoopStepMoves(cfg: Config, s: Service, w: nat, o: Outcome, c: Counter)
    requires WorkerEnabled(s, w, o) && InLoop(s.workers[w].pc) && |cfg.thresholds| == |s.workers|
    ensures Moves(s, LoopNext(cfg, s, w, o), w, c)
  {
    var pc := s.workers[w].pc;
    if pc.Flush? {
      FlushMoves(s, w, pc.part, if pc.part < 2 then Flush(pc.part + 1, pc.after) else AfterFlush(pc.after), c);
    }
  }

  lemma EndingStepMoves(s: Service, w: nat, o: Outcome, c: Counter)
    requires WorkerEnabled(s, w, o) && !AtBarrier(s.workers[w].pc) && !InLoop(s.workers[w].pc)
    ensures Moves(s, EndingNext(s, w, o), w, c)
  {
  }

  lemma WorkerStepMoves(cfg: Config, s: Service, w: nat, o: Outcome, c: Counter)
    requires WorkerEnabled(s, w, o) && |cfg.thresholds| == |s.workers|
    ensures Moves(s, WorkerNext(cfg, s, w, o), w, c)
  {
    if AtBarrier(s.workers[w].pc) {
      BarrierStepMoves(s, w, o, c);
    } else if InLoop(s.workers[w].pc) {
      LoopStepMoves(cfg, s, w, o, c);
    } else {
      EndingStepMoves(s, w, o, c);
    }
  }

  /** Nothing moves between the counters, and no batch waits to be counted. */
  predicate SameBooks(k: Worker, l: Worker) {
    && l.local == k.local && l.published == k.published && l.acked == k.acked
    && !k.pc.Count? && !l.pc.Count?
  }

  lemma SameBooksBalance(k: Worker, l: Worker, c: Counter)
    requires SameBooks(k, l) && Balanced(k, c)
    ensures Balanced(l, c)
  {
  }

  lemma ArrivalBooks(s: Service, w: nat, o: Outcome)
    requires WorkerEnabled(s, w, o) && (s.workers[w].pc.Connect? || s.workers[w].pc.Arrived? || s.workers[w].pc.StampStart?)
    ensures var t := BarrierNext(s, w, o); w < |t.workers| && SameBooks(s.workers[w], t.workers[w])
  {
  }

  lemma SwapBooks(s: Service, w: nat, o: Outcome)
    requires WorkerEnabled(s, w, o) && s.workers[w].pc.Swap?
    ensures var t := BarrierNext(s, w, o); w < |t.workers| && SameBooks(s.workers[w], t.workers[w])
  {
    var k := s.workers[w];
    assert BarrierNext(s, w, o).workers == s.workers[w := if s.phase.Connecting? then k.(pc := Head, entered := true) else k.(pc := Done)];
  }

  lemma SpinBooks(s: Service, w: nat, o: Outcome)
    requires WorkerEnabled(s, w, o) && (s.workers[w].pc.Spin? || s.workers[w].pc.Recheck?)
    ensures var t := BarrierNext(s, w, o); w < |t.workers| && SameBooks(s.workers[w], t.workers[w])
  {
  }

  lemma BarrierStepBooks(s: Service, w: nat, o: Outcome)
    requires WorkerEnabled(s, w, o) && AtBarrier(s.workers[w].pc)
    ensures var t := BarrierNext(s, w, o); w < |t.workers| && SameBooks(s.workers[w], t.workers[w])
  {
    var pc := s.workers[w].pc;
    if pc.Swap? {
      SwapBooks(s, w, o);
    } else if pc.Spin? || pc.Recheck? {
      SpinBooks(s, w, o);
    } else {
      ArrivalBooks(s, w, o);
    }
  }

  lemma ArrivalLocalOk(s: Service, w: nat, o: Outcome, threshold: nat, publishAlways: bool)
    requires WorkerEnabled(s, w, o) && (s.workers[w].pc.Connect? || s.workers[w].pc.Arrived? || s.workers[w].pc.StampStart?)
    requires threshold > 0 && Nothing(s.workers[w].local)
    ensures var t := BarrierNext(s, w, o); w < |t.workers| && LocalOk(t.workers[w], threshold, publishAlways)
  {
  }

  lemma SwapLocalOk(s: Service, w: nat, o: Outcome, threshold: nat, publishAlways: bool)
    requires WorkerEnabled(s, w, o) && s.workers[w].pc.Swap? && threshold > 0 && Nothing(s.workers[w].local)
    ensures var t := BarrierNext(s, w, o); w < |t.workers| && LocalOk(t.workers[w], threshold, publishAlways)
  {
  }

  lemma SpinLocalOk(s: Service, w: nat, o: Outcome, threshold: nat, publishAlways: bool)
    requires WorkerEnabled(s, w, o) && (s.workers[w].pc.Spin? || s.workers[w].pc.Recheck?)
    requires threshold > 0 && Nothing(s.workers[w].local)
    ensures var t := BarrierNext(s, w, o); w < |t.workers| && LocalOk(t.workers[w], threshold, publishAlways)
  {
  }

  lemma BarrierStepLocalOk(s: Service, w: nat, o: Outcome, threshold: nat, publishAlways: bool)
    requires WorkerEnabled(s, w, o) && AtBarrier(s.workers[w].pc) && threshold > 0 && Nothing(s.workers[w].local)
    ensures var t := BarrierNext(s, w, o); w < |t.workers| && LocalOk(t.workers[w], threshold, publishAlways)
  {
    var pc := s.workers[w].pc;
    if pc.Swap? {
      SwapLocalOk(s, w, o, threshold, publishAlways);
    } else if pc.Spin? || pc.Recheck? {
      SpinLocalOk(s, w, o, threshold, publishAlways);
    } else {
      ArrivalLocalOk(s, w, o, threshold, publishAlways);
    }
  }

  lemma BarrierStepAccounts(cfg: Config, s: Service, w: nat, o: Outcome, c: Counter, threshold: nat)
    requires WorkerEnabled(s, w, o) && AtBarrier(s.workers[w].pc) && threshold > 0
    requires Accounted(s.workers[w], c, threshold, cfg.publishAlways)
    ensures var t := BarrierNext(s, w, o); w < |t.workers| && Accounted(t.workers[w], c, threshold, cfg.publishAlways)
  {
    BarrierStepBooks(s, w, o);
    BarrierStepLocalOk(s, w, o, threshold, cfg.publishAlways);
    SameBooksBalance(s.workers[w], BarrierNext(s, w, o).workers[w], c);
  }

  lemma FlushAccounts(s: Service, w: nat, c: Counter, threshold: nat, publishAlways: bool, next: WorkerPc)
    requires w < |s.workers| && s.workers[w].pc.Flush? && threshold > 0
    requires Accounted(s.workers[w], c, threshold, publishAlways)
    requires var pc := s.workers[w].pc; next == if pc.part < 2 then Flush(pc.part + 1, pc.after) else AfterFlush(pc.after)
    ensures var t := FlushPart(s, w, s.workers[w].pc.part, next);
            w < |t.workers| && Accounted(t.workers[w], c, threshold, publishAlways)
  {
  }

  lemma AckBalances(k: Worker, batch: Tally, c: Counter)
    requires Balanced(k, c) && !k.pc.Count?
    ensures Balanced(k.(pc := Count(batch), acked := k.acked.Plus(batch)), c)
  {
  }

  lemma SendAccounts(cfg: Config, s: Service, w: nat, o: Outcome, c: Counter)
    requires WorkerEnabled(s, w, o) && s.workers[w].pc.Send? && |cfg.thresholds| == |s.workers|
    requires Accounted(s.workers[w], c, cfg.thresholds[w], cfg.publishAlways)
    ensures var t := LoopNext(cfg, s, w, o);
            w < |t.workers| && Accounted(t.workers[w], c, cfg.thresholds[w], cfg.publishAlways)
  {
    var k := s.workers[w];
    match o
    case Acknowledged(batch) => AckBalances(k, batch, c);
    case AtLimit => SameBooksBalance(k, k.(pc := Flush(0, ToLimit)), c);
    case Throws => SameBooksBalance(k, k.(pc := Flush(0, ToError)), c);
  }

  lemma CountAccounts(cfg: Config, s: Service, w: nat, o: Outcome, c: Counter)
    requires WorkerEnabled(s, w, o) && s.workers[w].pc.Count? && |cfg.thresholds| == |s.workers|
    requires Accounted(s.workers[w], c, cfg.thresholds[w], cfg.publishAlways)
    ensures var t := LoopNext(cfg, s, w, o);
            w < |t.workers| && Accounted(t.workers[w], c, cfg.thresholds[w], cfg.publishAlways)
  {
  }

  lemma RoundAccounts(cfg: Config, s: Service, w: nat, o: Outcome, c: Counter)
    requires WorkerEnabled(s, w, o) && |cfg.thresholds| == |s.workers|
    requires var pc := s.workers[w].pc; pc.Head? || pc.Build? || pc.AfterWait?
    requires Accounted(s.workers[w], c, cfg.thresholds[w], cfg.publishAlways)
    ensures var t := LoopNext(cfg, s, w, o);
            w < |t.workers| && Accounted(t.workers[w], c, cfg.thresholds[w], cfg.publishAlways)
  {
    SameBooksBalance(s.workers[w], LoopNext(cfg, s, w, o).workers[w], c);
  }

  lemma LoopStepAccounts(cfg: Config, s: Service, w: nat, o: Outcome, c: Counter)
    requires WorkerEnabled(s, w, o) && InLoop(s.workers[w].pc) && |cfg.thresholds| == |s.workers| && cfg.thresholds[w] > 0
    requires Accounted(s.workers[w], c, cfg.thresholds[w], cfg.publishAlways)
    ensures var t := LoopNext(cfg, s, w, o);
            w < |t.workers| && Accounted(t.workers[w], c, cfg.thresholds[w], cfg.publishAlways)
  {
    var pc := s.workers[w].pc;
    if pc.Flush? {
      var next := if pc.part < 2 then Flush(pc.part + 1, pc.after) else AfterFlush(pc.after);
      FlushAccounts(s, w, c, cfg.thresholds[w], cfg.publishAlways, next);
    } else if pc.Send? {
      SendAccounts(cfg, s, w, o, c);
    } else if pc.Count? {
      CountAccounts(cfg, s, w, o, c);
    } else {
      RoundAccounts(cfg, s, w, o, c);
    }
  }

  lemma EndingStepAccounts(cfg: Config, s: Service, w: nat, o: Outcome, c: Counter, threshold: nat)
    requires WorkerEnabled(s, w, o) && !AtBarrier(s.workers[w].pc) && !InLoop(s.workers[w].pc)
    requires Accounted(s.workers[w], c, threshold, cfg.publishAlways)
    ensures var t := EndingNext(s, w, o); w < |t.workers| && Accounted(t.workers[w], c, threshold, cfg.publishAlways)
  {
  }

  lemma WorkerStepConserves(cfg: Config, s: Service, w: nat, o: Outcome, c: Counter)
    requires WorkerEnabled(s, w, o) && |cfg.thresholds| == |s.workers| && cfg.thresholds[w] > 0 && Conserved(cfg, s, c)
    ensures |WorkerNext(cfg, s, w, o).workers| == |s.workers| && Conserved(cfg, WorkerNext(cfg, s, w, o), c)
  {
    var t := WorkerNext(cfg, s, w, o);
    WorkerStepMoves(cfg, s, w, o, c);
    MovesKeepTotals(s, t, w, c);
    if AtBarrier(s.workers[w].pc) {
      BarrierStepAccounts(cfg, s, w, o, c, cfg.thresholds[w]);
    } else if InLoop(s.workers[w].pc) {
      LoopStepAccounts(cfg, s, w, o, c);
    } else {
      EndingStepAccounts(cfg, s, w, o, c, cfg.thresholds[w]);
    }
  }

  lemma StopFlagConserves(cfg: Config, s: Service, w: nat, c: Counter)
    requires |cfg.thresholds| == |s.workers| && Conserved(cfg, s, c)
    ensures |RequestWorkerStop(s, w).workers| == |s.workers| && Conserved(cfg, RequestWorkerStop(s, w), c)
  {
    if w < |s.workers| {
      PublishedUpdate(s.workers, w, s.workers[w].(stop := true), c);
    }
  }

  lemma SpawnConserves(cfg: Config, s: Service, i: nat, c: Counter)
    requires |cfg.thresholds| == |s.workers| && Conserved(cfg, s, c) && i < |s.workers| && s.workers[i].pc.Unborn?
    ensures Conserved(cfg, Go(s, i, Connect), c)
  {
    PublishedUpdate(s.workers, i, s.workers[i].(pc := Connect), c);
  }

  lemma QuietSupervisor(s: Service, throws: bool)
    requires SupervisorEnabled(s, throws)
    requires !s.supervisor.StopWorkers? && !s.supervisor.UnwindStop? && !s.supervisor.Spawn?
    ensures SupervisorNext(s, throws).workers == s.workers && SupervisorNext(s, throws).totals == s.totals
  {
  }

  lemma SupervisorStepConserves(cfg: Config, s: Service, throws: bool, c: Counter)
    requires Shape(s) && |cfg.thresholds| == |s.workers| && SupervisorEnabled(s, throws) && Conserved(cfg, s, c)
    ensures |SupervisorNext(s, throws).workers| == |s.workers| && Conserved(cfg, SupervisorNext(s, throws), c)
  {
    match s.supervisor
    case Spawn(i) =>
      if i < |s.workers| && !throws {
        SpawnConserves(cfg, s, i, c);
      }
    case StopWorkers(i) => StopFlagConserves(cfg, s, i, c);
    case UnwindStop(i, _) => StopFlagConserves(cfg, s, i, c);
    case _ => QuietSupervisor(s, throws);
  }

  lemma OtherStepConserves(cfg: Config, s: Service, step: Step, c: Counter)
    requires Enabled(s, step) && |cfg.thresholds| == |s.workers| && Conserved(cfg, s, c)
    requires step.SpuriousWakeup? || step.CallerStep? || step.SecondStop?
    ensures |Apply(cfg, s, step).workers| == |s.workers| && Conserved(cfg, Apply(cfg, s, step), c)
  {
    assert Apply(cfg, s, step).workers == s.workers && Apply(cfg, s, step).totals == s.totals;
  }

  lemma StepConserves(cfg: Config, s: Service, step: Step, c: Counter)
    requires Shape(s) && Enabled(s, step) && |cfg.thresholds| == |s.workers| && Conserved(cfg, s, c)
    requires forall w :: 0 <= w < |cfg.thresholds| ==> cfg.thresholds[w] > 0
    ensures |Apply(cfg, s, step).workers| == |s.workers| && Conserved(cfg, Apply(cfg, s, step), c)
  {
    match step
    case WorkerStep(w, o) => WorkerStepConserves(cfg, s, w, o, c);
    case SupervisorStep(throws) => SupervisorStepConserves(cfg, s, throws, c);
    case SpuriousWakeup => OtherStepConserves(cfg, s, step, c);
    case CallerStep(_) => OtherStepConserves(cfg, s, step, c);
    case SecondStop => OtherStepConserves(cfg, s, step, c);
  }

  predicate NonePublished(k: Worker, c: Counter) { k.published.Of(c) == 0 }

  lemma {:induction false} NothingPublished(workers: seq<Worker>, c: Counter)
    requires forall w :: 0 <= w < |workers| ==> NonePublished(workers[w], c)
    ensures TotalPublished(workers, c) == 0
  {
    if workers != [] {
      NothingPublished(workers[..|workers| - 1], c);
      assert NonePublished(workers[|workers| - 1], c);
    }
  }

  lemma StartConserves(cfg: Config, c: Counter)
    requires forall w :: 0 <= w < |cfg.thresholds| ==> cfg.thresholds[w] > 0
    ensures Conserved(cfg, Started(|cfg.thresholds|), c)
  {
    NothingPublished(Started(|cfg.thresholds|).workers, c);
  }

  ghost predicate Books(cfg: Config, s: Service, c: Counter) {
    |s.workers| == |cfg.thresholds| && Shape(s) && Conserved(cfg, s, c)
  }

  lemma NextConserves(cfg: Config, s: Service, t: Service, c: Counter)
    requires Books(cfg, s, c) && forall w :: 0 <= w < |cfg.thresholds| ==> cfg.thresholds[w] > 0
    requires exists step: Step :: Enabled(s, step) && t == Apply(cfg, s, step)
    ensures Books(cfg, t, c)
  {
    var step: Step :| Enabled(s, step) && t == Apply(cfg, s, step);
    StepKeepsShape(cfg, s, step);
    StepConserves(cfg, s, step, c);
  }

  lemma {:induction false} RunConserves(cfg: Config, run: seq<Service>, i: nat, c: Counter)
    requires IsRun(cfg, run) && i < |run|
    ensures Books(cfg, run[i], c)
  {
    if i == 0 {
      StartConserves(cfg, c);
    } else {
      RunConserves(cfg, run, i - 1, c);
      assert Follows(cfg, run, i);
      NextConserves(cfg, run[i - 1], run[i], c);
    }
  }

  /** At every moment, for each counter: published totals, local counters and batches between send and count add up to
      what was acknowledged. */
  lemma StatisticsConserved(cfg: Config, run: seq<Service>, i: nat, c: Counter)
    requires IsRun(cfg, run) && i < |run|
    ensures run[i].totals.Of(c) + TotalOpen(run[i].workers, c) == TotalAcked(run[i].workers, c)
  {
    RunConserves(cfg, run, i, c);
    TotalsAdd(run[i].workers, c);
  }

  /** Unpublished messages stay below the threshold at every loop head; a FILE worker holds nothing back. */
  lemma LittleIsUnpublished(cfg: Config, run: seq<Service>, i: nat, w: nat)
    requires IsRun(cfg, run) && i < |run| && w < |run[i].workers| == |cfg.thresholds| && run[i].workers[w].pc.Head?
    ensures run[i].workers[w].local.messages < cfg.thresholds[w]
    ensures cfg.publishAlways ==> Nothing(run[i].workers[w].local)
  {
    RunConserves(cfg, run, i, Messages);
    assert Accounted(run[i].workers[w], Messages, cfg.thresholds[w], cfg.publishAlways);
  }

  lemma RestingIsSettled(k: Worker, c: Counter, threshold: nat, publishAlways: bool)
    requires Resting(k) && Accounted(k, c, threshold, publishAlways)
    ensures Settled(k, c)
  {
  }

  /** Once the supervisor is gone, on whatever path, the totals are exactly what was acknowledged. */
  lemma TotalsExactAfterJoin(cfg: Config, run: seq<Service>, i: nat, c: Counter)
    requires IsRun(cfg, run) && i < |run| && run[i].supervisor.Gone?
    ensures run[i].totals.Of(c) == TotalAcked(run[i].workers, c)
  {
    RunConserves(cfg, run, i, c);
    var s := run[i];
    forall w | 0 <= w < |s.workers| ensures Settled(s.workers[w], c) {
      RestingIsSettled(s.workers[w], c, cfg.thresholds[w], cfg.publishAlways);
    }
    NothingOpen(s.workers, c);
    StatisticsConserved(cfg, run, i, c);
  }
}
