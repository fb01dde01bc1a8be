/** The asynchronous file logger: any number of calling threads, the writing thread, the destructor. One step is one
    atomic action or one action under the mutex; file errors and allocation failures do not occur. */
module AsyncLogger {

  /** Where a caller of `log` stands. */
  datatype Caller<T> =
    | Outside
    | Checked(entry: T)      // has seen that the logger accepts
    | Inside(entry: T)       // holds the mutex
    | Dropping               // holds the mutex, has counted the drop as pending

  datatype Writer = Waiting | Writing | Noticing(count: nat) | LastExchange | LastNotice(count: nat) | Done

  datatype Destructor = Alive | Closed | StopRequested | Finished

  datatype Lock = Free | HeldBy(caller: nat)

  /** What became of a call that found the logger open under the mutex: kept, or lost with so many entries queued. */
  datatype Outcome<T> = Kept(entry: T) | Lost(entry: T, queued: nat)

  datatype State<T> = State(
    capacity: nat, queue: seq<T>, accepting: bool, stop: bool, pendingDrops: nat, totalDrops: nat,
    lock: Lock, callers: seq<Caller<T>>, writer: Writer, batch: seq<T>, destructor: Destructor,
    written: seq<T>, notices: seq<nat>,
    outcomes: seq<Outcome<T>>)   // history: one for each call that passed the check under the mutex, in order

  datatype Step<T> =
    | Call(caller: nat, entry: T)
    | Acquire(caller: nat)
    | Decide(caller: nat)
    | CountTotal(caller: nat)
    | WriterStep
    | DestructorStep

  function Init<T>(capacity: nat, callers: nat): State<T> {
    State(capacity, [], true, false, 0, 0, Free, seq(callers, _ => Outside), Waiting, [], Alive, [], [], [])
  }

  predicate Enabled<T>(s: State<T>, step: Step<T>) {
    match step
    case Call(c, _) => c < |s.callers| && s.callers[c].Outside?
    case Acquire(c) => c < |s.callers| && s.callers[c].Checked? && s.lock.Free?
    case Decide(c) => c < |s.callers| && s.callers[c].Inside?
    case CountTotal(c) => c < |s.callers| && s.callers[c].Dropping?
    case WriterStep => !s.writer.Done? && (s.writer.Waiting? ==> s.lock.Free?)
    case DestructorStep => !s.destructor.Finished? && (s.destructor.StopRequested? ==> s.writer.Done?)
  }

  function At<T>(s: State<T>, c: nat, caller: Caller<T>): State<T>
    requires c < |s.callers|
  {
    s.(callers := s.callers[c := caller])
  }

  /** The section of `log` under the mutex, up to the first drop counter. */
  function Decided<T>(s: State<T>, c: nat): State<T>
    requires c < |s.callers| && s.callers[c].Inside?
  {
    if !s.accepting then At(s, c, Outside).(lock := Free)
    else if |s.queue| >= s.capacity then
      At(s, c, Dropping).(pendingDrops := s.pendingDrops + 1, outcomes := s.outcomes + [Lost(s.callers[c].entry, |s.queue|)])
    else
      var entry := s.callers[c].entry;
      At(s, c, Outside).(lock := Free, queue := s.queue + [entry], outcomes := s.outcomes + [Kept(entry)])
  }

  /** The writing thread: swap under the mutex, write entry by entry, report drops; leave when stopped with nothing left. */
  function Written<T>(s: State<T>): State<T>
    requires !s.writer.Done?
  {
    match s.writer
    case Waiting =>
      if s.queue == [] && s.stop then s.(writer := LastExchange) else s.(batch := s.queue, queue := [], writer := Writing)
    case Writing =>
      if s.batch != [] then s.(written := s.written + [s.batch[0]], batch := s.batch[1..])
      else s.(pendingDrops := 0, writer := if s.pendingDrops > 0 then Noticing(s.pendingDrops) else Waiting)
    case Noticing(count) => s.(notices := s.notices + [count], writer := Waiting)
    case LastExchange => s.(pendingDrops := 0, writer := if s.pendingDrops > 0 then LastNotice(s.pendingDrops) else Done)
    case LastNotice(count) => s.(notices := s.notices + [count], writer := Done)
  }

  function Apply<T>(s: State<T>, step: Step<T>): State<T>
    requires Enabled(s, step)
  {
    match step
    case Call(c, entry) => if s.accepting then At(s, c, Checked(entry)) else s
    case Acquire(c) => At(s, c, Inside(s.callers[c].entry)).(lock := HeldBy(c))
    case Decide(c) => Decided(s, c)
    case CountTotal(c) => At(s, c, Outside).(lock := Free, totalDrops := s.totalDrops + 1)
    case WriterStep => Written(s)
    case DestructorStep =>
      match s.destructor
      case Alive => s.(accepting := false, destructor := Closed)
      case Closed => s.(stop := true, destructor := StopRequested)
      case StopRequested => s.(destructor := Finished)
  }

  function Sum(xs: seq<nat>): nat {
    if xs == [] then 0 else Sum(xs[..|xs| - 1]) + xs[|xs| - 1]
  }

  lemma SumSnoc(xs: seq<nat>, x: nat)
    ensures Sum(xs + [x]) == Sum(xs) + x
  {
    assert (xs + [x])[..|xs|] == xs;
  }

  /** The entries that were kept, in order. */
  function Entries<T>(outcomes: seq<Outcome<T>>): seq<T> {
    if outcomes == [] then []
    else
      var last := outcomes[|outcomes| - 1];
      Entries(outcomes[..|outcomes| - 1]) + (if last.Kept? then [last.entry] else [])
  }

  function Losses<T>(outcomes: seq<Outcome<T>>): nat {
    if outcomes == [] then 0
    else Losses(outcomes[..|outcomes| - 1]) + (if outcomes[|outcomes| - 1].Lost? then 1 else 0)
  }

  lemma OutcomeSnoc<T>(outcomes: seq<Outcome<T>>, o: Outcome<T>)
    ensures Entries(outcomes + [o]) == Entries(outcomes) + (if o.Kept? then [o.entry] else [])
    ensures Losses(outcomes + [o]) == Losses(outcomes) + (if o.Lost? then 1 else 0)
  {
    assert (outcomes + [o])[..|outcomes|] == outcomes;
  }

  /** An entry is lost only to a full queue. */
  ghost predicate LostWhenFull<T>(s: State<T>) {
    forall i :: 0 <= i < |s.outcomes| && s.outcomes[i].Lost? ==> s.outcomes[i].queued == s.capacity
  }

  /** One drop is counted as pending but not yet in the total. */
  function HalfCounted<T>(s: State<T>): nat {
    if s.lock.HeldBy? && s.lock.caller < |s.callers| && s.callers[s.lock.caller].Dropping? then 1 else 0
  }

  function InNotice(w: Writer): nat {
    if w.Noticing? || w.LastNotice? then w.count else 0
  }

  predicate Leaving(w: Writer) { w.LastExchange? || w.LastNotice? || w.Done? }

  /** Entries: written, then in the writer's hands, then queued, is the enqueue order. */
  ghost predicate EntriesConserved<T>(s: State<T>) {
    && s.written + (s.batch + s.queue) == Entries(s.outcomes)
    && |s.queue| <= s.capacity
    && (s.batch != [] ==> s.writer.Writing?)
  }

  /** Drops: every lost entry is counted, and reported, being reported or pending. */
  ghost predicate DropsConserved<T>(s: State<T>) {
    && Sum(s.notices) + InNotice(s.writer) + s.pendingDrops == s.totalDrops + HalfCounted(s)
    && Losses(s.outcomes) == s.totalDrops + HalfCounted(s)
    && LostWhenFull(s)
  }

  ghost predicate LockSound<T>(s: State<T>) {
    forall c :: 0 <= c < |s.callers| ==> (s.callers[c].Inside? || s.callers[c].Dropping? <==> s.lock == HeldBy(c))
  }

  ghost predicate LockInRange<T>(s: State<T>) {
    s.lock.HeldBy? ==> s.lock.caller < |s.callers|
  }

  /** The gate closes before the stop; the writer leaves only when stopped and empty-handed. */
  ghost predicate Phases<T>(s: State<T>) {
    && (s.stop ==> !s.accepting)
    && (!s.accepting <==> !s.destructor.Alive?)
    && (s.stop <==> s.destructor.StopRequested? || s.destructor.Finished?)
    && (Leaving(s.writer) ==> s.stop && s.queue == [] && HalfCounted(s) == 0)
    && (s.writer.LastNotice? || s.writer.Done? ==> s.pendingDrops == 0)
    && (s.destructor.Finished? ==> s.writer.Done?)
  }

  ghost predicate Inv<T>(s: State<T>) {
    EntriesConserved(s) && DropsConserved(s) && LockSound(s) && LockInRange(s) && Phases(s)
  }

  lemma InitInv<T>(capacity: nat, callers: nat)
    ensures Inv(Init<T>(capacity, callers))
  {
  }

  lemma CallerSteps<T>(s: State<T>, step: Step<T>)
    requires Inv(s) && Enabled(s, step) && (step.Call? || step.Acquire? || step.CountTotal?)
    ensures Inv(Apply(s, step))
  {
    if step.Acquire? {
      assert !s.callers[step.caller].Dropping?;
    }
    if step.CountTotal? {
      assert s.lock == HeldBy(step.caller);
    }
  }

  lemma DecideStep<T>(s: State<T>, c: nat)
    requires Inv(s) && Enabled(s, Decide(c))
    ensures Inv(Apply(s, Decide(c)))
  {
    assert s.lock == HeldBy(c) && HalfCounted(s) == 0;
    if s.accepting {
      var entry := s.callers[c].entry;
      if |s.queue| < s.capacity {
        OutcomeSnoc(s.outcomes, Kept(entry));
        assert s.written + (s.batch + (s.queue + [entry])) == s.written + (s.batch + s.queue) + [entry];
      } else {
        OutcomeSnoc(s.outcomes, Lost(entry, |s.queue|));
      }
    }
  }

  lemma SwapStep<T>(s: State<T>)
    requires Inv(s) && s.writer.Waiting? && s.lock.Free?
    ensures Inv(Written(s))
  {
    assert s.batch == [];
    assert [] + s.queue == s.queue + [];
  }

  lemma WriteStep<T>(s: State<T>)
    requires Inv(s) && s.writer.Writing? && s.batch != []
    ensures Inv(Written(s))
  {
    assert s.written + (s.batch + s.queue) == s.written + [s.batch[0]] + (s.batch[1..] + s.queue);
  }

  /** Taking over the pending drops. */
  lemma ExchangeStep<T>(s: State<T>)
    requires Inv(s) && (s.writer.LastExchange? || (s.writer.Writing? && s.batch == []))
    ensures Inv(Written(s))
  {
    assert InNotice(s.writer) == 0;
  }

  lemma NoticeStep<T>(s: State<T>)
    requires Inv(s) && (s.writer.Noticing? || s.writer.LastNotice?)
    ensures Inv(Written(s))
  {
    SumSnoc(s.notices, s.writer.count);
  }

  lemma StepKeepsInv<T>(s: State<T>, step: Step<T>)
    requires Inv(s) && Enabled(s, step)
    ensures Inv(Apply(s, step))
  {
    match step
    case Decide(c) => DecideStep(s, c);
    case WriterStep =>
      if s.writer.Waiting? {
        SwapStep(s);
      } else if s.writer.Writing? && s.batch != [] {
        WriteStep(s);
      } else if s.writer.Noticing? || s.writer.LastNotice? {
        NoticeStep(s);
      } else {
        ExchangeStep(s);
      }
    case DestructorStep =>
    case Call(_, _) => CallerSteps(s, step);
    case Acquire(_) => CallerSteps(s, step);
    case CountTotal(_) => CallerSteps(s, step);
  }

  /** State i of the run follows from the one before by an enabled step. */
  ghost predicate Follows<T(!new)>(run: seq<State<T>>, i: nat)
    requires 0 < i < |run|
  {
    var before := run[i - 1];
    exists step: Step<T> :: Enabled(before, step) && run[i] == Apply(before, step)
  }

  /** An interleaving: each state follows from the one before by some enabled step. */
  ghost predicate IsRun<T(!new)>(run: seq<State<T>>) {
    && run != []
    && run[0] == Init(run[0].capacity, |run[0].callers|)
    && forall i: nat :: 0 < i < |run| ==> Follows(run, i)
  }

  lemma {:induction false} RunKeepsInv<T(!new)>(run: seq<State<T>>, i: nat)
    requires IsRun(run) && i < |run|
    ensures Inv(run[i])
  {
    if i == 0 {
      InitInv<T>(run[0].capacity, |run[0].callers|);
    } else {
      RunKeepsInv(run, i - 1);
      assert Follows(run, i);
      var step: Step<T> :| Enabled(run[i - 1], step) && run[i] == Apply(run[i - 1], step);
      StepKeepsInv(run[i - 1], step);
    }
  }

  /** At every moment of every interleaving: what is written is a first part of the kept entries, in order; an entry is
      lost only to a full queue, and every loss is in the dropped total as soon as its call is through. */
  lemma LoggerConserves<T(!new)>(run: seq<State<T>>, i: nat)
    requires IsRun(run) && i < |run|
    ensures run[i].written <= Entries(run[i].outcomes) && |run[i].queue| <= run[i].capacity
    ensures LostWhenFull(run[i])
    ensures Losses(run[i].outcomes) == run[i].totalDrops + HalfCounted(run[i])
  {
    RunKeepsInv(run, i);
    var s := run[i];
    assert Entries(s.outcomes)[..|s.written|] == s.written;
  }

  /** When the destructor is through, the file holds exactly the kept entries, in order, and the notices add up to the
      number of lost ones. */
  lemma NothingLostAtShutdown<T(!new)>(run: seq<State<T>>, i: nat)
    requires IsRun(run) && i < |run| && run[i].destructor.Finished?
    ensures run[i].written == Entries(run[i].outcomes)
    ensures Sum(run[i].notices) == run[i].totalDrops == Losses(run[i].outcomes)
  {
    RunKeepsInv(run, i);
    var s := run[i];
    assert s.batch == [] && s.queue == [];
    assert s.written + ([] + []) == s.written;
  }

  // ----- every call that gets through is settled -----

  /** A run with the steps it takes. */
  ghost predicate IsTrace<T(!new)>(run: seq<State<T>>, steps: seq<Step<T>>) {
    && |run| == |steps| + 1 && run[0] == Init(run[0].capacity, |run[0].callers|)
    && forall i: nat :: i < |steps| ==> Takes(run, steps, i)
  }

  ghost predicate Takes<T(!new)>(run: seq<State<T>>, steps: seq<Step<T>>, i: nat)
    requires i < |steps| && |run| == |steps| + 1
  {
    Enabled(run[i], steps[i]) && run[i + 1] == Apply(run[i], steps[i])
  }

  /** The entry of a caller that comes to its decision while the logger accepts. */
  function Brought<T>(s: State<T>, step: Step<T>): seq<T>
    requires Enabled(s, step)
  {
    if step.Decide? && s.accepting then [s.callers[step.caller].entry] else []
  }

  /** The entries that callers brought with the first n steps, in order. */
  function AllBrought<T(!new)>(run: seq<State<T>>, steps: seq<Step<T>>, n: nat): seq<T>
    requires IsTrace(run, steps) && n <= |steps|
  {
    if n == 0 then []
    else
      assert Takes(run, steps, n - 1);
      AllBrought(run, steps, n - 1) + Brought(run[n - 1], steps[n - 1])
  }

  function SettledEntries<T>(outcomes: seq<Outcome<T>>): (entries: seq<T>)
    ensures |entries| == |outcomes|
  {
    seq(|outcomes|, i requires 0 <= i < |outcomes| => outcomes[i].entry)
  }

  lemma StepSettles<T>(s: State<T>, step: Step<T>)
    requires Enabled(s, step)
    ensures SettledEntries(Apply(s, step).outcomes) == SettledEntries(s.outcomes) + Brought(s, step)
  {
  }

  /** No entry vanishes: those that are kept or lost are, one for one and in order, those that callers brought to a decision
      while the logger accepted. */
  lemma {:induction false} EveryCallIsSettled<T(!new)>(run: seq<State<T>>, steps: seq<Step<T>>, n: nat)
    requires IsTrace(run, steps) && n <= |steps|
    ensures SettledEntries(run[n].outcomes) == AllBrought(run, steps, n)
  {
    if n > 0 {
      EveryCallIsSettled(run, steps, n - 1);
      assert Takes(run, steps, n - 1);
      StepSettles(run[n - 1], steps[n - 1]);
    }
  }

  // ----- shutdown makes progress -----

  function WriterRank(w: Writer): nat {
    match w
    case Done => 0
    case LastNotice(_) => 1
    case LastExchange => 2
    case Waiting => 3
    case Noticing(_) => 4
    case Writing => 5
  }

  function CallerRank<T>(c: Caller<T>): nat {
    match c
    case Outside => 0
    case Dropping => 1
    case Inside(_) => 2
    case Checked(_) => 3
  }

  function CallersRank<T>(callers: seq<Caller<T>>): nat {
    if callers == [] then 0 else CallersRank(callers[..|callers| - 1]) + CallerRank(callers[|callers| - 1])
  }

  lemma {:induction false} CallersRankUpdate<T>(callers: seq<Caller<T>>, c: nat, caller: Caller<T>)
    requires c < |callers|
    ensures CallersRank(callers[c := caller]) + CallerRank(callers[c]) == CallersRank(callers) + CallerRank(caller)
  {
    var n := |callers| - 1;
    if c < n {
      CallersRankUpdate(callers[..n], c, caller);
      assert callers[c := caller][..n] == callers[..n][c := caller];
    } else {
      assert callers[c := caller][..n] == callers[..n];
    }
  }

  /** Work left before everybody is through. */
  function Remaining<T>(s: State<T>): nat {
    6 * |s.queue| + 3 * |s.batch| + WriterRank(s.writer) + CallersRank(s.callers) + (if s.destructor.Finished? then 0 else 1)
  }

  lemma CallerStepLowers<T>(s: State<T>, step: Step<T>)
    requires Inv(s) && s.stop && Enabled(s, step) && (step.Acquire? || step.Decide? || step.CountTotal?)
    ensures Remaining(Apply(s, step)) < Remaining(s)
  {
    var t := Apply(s, step);
    CallersRankUpdate(s.callers, step.caller, t.callers[step.caller]);
    assert t.callers == s.callers[step.caller := t.callers[step.caller]];
  }

  lemma WriterStepLowers<T>(s: State<T>)
    requires Inv(s) && s.stop && !s.writer.Done?
    ensures Remaining(Written(s)) < Remaining(s)
  {
  }

  /** After the stop request every step of every thread lowers the remaining work, but for calls that find the gate closed. */
  lemma EveryStepLowers<T>(s: State<T>, step: Step<T>)
    requires Inv(s) && s.stop && Enabled(s, step)
    ensures Apply(s, step) == s || Remaining(Apply(s, step)) < Remaining(s)
  {
    match step
    case WriterStep => WriterStepLowers(s);
    case DestructorStep =>
    case Call(_, _) =>
    case Acquire(_) => CallerStepLowers(s, step);
    case Decide(_) => CallerStepLowers(s, step);
    case CountTotal(_) => CallerStepLowers(s, step);
  }

  /** Until the destructor has finished, some step lowers the remaining work: shutdown cannot hang. */
  lemma ShutdownProgress<T>(s: State<T>) returns (step: Step<T>)
    requires Inv(s) && s.stop && !s.destructor.Finished?
    ensures Enabled(s, step) && Remaining(Apply(s, step)) < Remaining(s)
  {
    if s.writer.Done? {
      step := DestructorStep;
    } else if s.writer.Waiting? && s.lock.HeldBy? {
      var c := s.lock.caller;
      step := if s.callers[c].Inside? then Decide(c) else CountTotal(c);
      CallerStepLowers(s, step);
    } else {
      step := WriterStep;
      WriterStepLowers(s);
    }
  }
}
