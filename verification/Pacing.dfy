/** Batch sizes and worker quotas of the transmission engine. */
module Limits {

  const MAX_SIZE := 0xFFFF_FFFF_FFFF_FFFF
  const MAX_BATCH_EVENTS := 614_400

  datatype Protocol = Udp | Tcp | Tls | File
  datatype Mode = Sequential | Parallel

  function Min(a: int, b: int): int { if a < b then a else b }

  lemma MulMonotone(k: nat, a: int, b: int)
    requires a <= b
    ensures k * a <= k * b
  {
  }

  function Clamp(x: int, low: int, high: int): (r: int)
    requires low <= high
    ensures low <= r <= high
  {
    if x < low then low else if x > high then high else x
  }

  /** Worker count chosen by `start`. */
  function WorkerCount(mode: Mode, protocol: Protocol, optimal: nat, target: nat): (count: nat)
    ensures 1 <= count <= 64
    ensures target > 0 ==> count <= target
    ensures protocol.File? ==> count == 1
  {
    var base := if mode.Parallel? && !protocol.File? then Clamp(optimal, 1, 64) else 1;
    if target > 0 then Min(base, target) else base
  }

  /** Counts that respect every bound on the number of workers: one if not parallel or for FILE, else what the runtime
      suggests, at least one and at most 64; and no more workers than events per second. */
  predicate CountAllowed(mode: Mode, protocol: Protocol, optimal: nat, target: nat, n: nat) {
    && 1 <= n <= 64
    && (mode.Sequential? || protocol.File? ==> n == 1)
    && (n == 1 || n <= optimal)
    && (target > 0 ==> n <= target)
  }

  /** `start` uses as many workers as are allowed. */
  lemma WorkerCountIsLargest(mode: Mode, protocol: Protocol, optimal: nat, target: nat, n: nat)
    ensures CountAllowed(mode, protocol, optimal, target, WorkerCount(mode, protocol, optimal, target))
    ensures CountAllowed(mode, protocol, optimal, target, n) ==> n <= WorkerCount(mode, protocol, optimal, target)
  {
  }

  function QuotaForWorker(target: nat, worker: nat, workers: nat): nat
    requires worker < workers
  {
    if target == 0 then 0 else target / workers + (if worker < target % workers then 1 else 0)
  }

  function Sum(xs: seq<nat>): nat {
    if xs == [] then 0 else Sum(xs[..|xs| - 1]) + xs[|xs| - 1]
  }

  function Quotas(target: nat, workers: nat): (quotas: seq<nat>)
    ensures |quotas| == workers
  {
    seq(workers, w requires 0 <= w < workers => QuotaForWorker(target, w, workers))
  }

  lemma {:induction false} QuotaPrefix(target: nat, workers: nat, upTo: nat)
    requires 0 < workers && upTo <= workers
    ensures Sum(Quotas(target, workers)[..upTo]) == upTo * (target / workers) + Min(upTo, target % workers)
  {
    if upTo > 0 {
      QuotaPrefix(target, workers, upTo - 1);
      var quotas := Quotas(target, workers);
      assert quotas[..upTo][..upTo - 1] == quotas[..upTo - 1];
      OneMore(upTo - 1, target / workers);
    }
  }

  lemma OneMore(n: nat, k: nat)
    ensures (n + 1) * k == n * k + k
  {
  }

  /** The workers' quotas share out the target exactly, and `start` never leaves a worker without one. */
  lemma QuotasShareTarget(mode: Mode, protocol: Protocol, optimal: nat, target: nat)
    ensures var quotas := Quotas(target, WorkerCount(mode, protocol, optimal, target));
            && Sum(quotas) == target && (target > 0 ==> forall w :: 0 <= w < |quotas| ==> quotas[w] >= 1)
            && forall v, w :: 0 <= v < |quotas| && 0 <= w < |quotas| ==> quotas[v] <= quotas[w] + 1
  {
    var workers := WorkerCount(mode, protocol, optimal, target);
    QuotaPrefix(target, workers, workers);
    assert Quotas(target, workers)[..workers] == Quotas(target, workers);
    ShareExactly(target, workers);
  }

  lemma ShareExactly(target: nat, workers: nat)
    requires workers > 0
    ensures workers * (target / workers) + Min(workers, target % workers) == target
    ensures target >= workers ==> target / workers >= 1
  {
  }

  /** A paced stream batch is one event or at most a 200th of a second of them. */
  function StreamBatchEvents(quota: nat): (events: nat)
    ensures 1 <= events <= 1024
    ensures quota > 0 ==> events == 1 || 200 * events <= quota
  {
    if quota == 0 then 1024 else Clamp(quota / 200, 1, 1024)
  }

  function DatagramBatchEvents(quota: nat, preferred: nat): (events: nat)
    ensures 1 <= events <= 256
    ensures events == 1 || events <= preferred
    ensures quota > 0 ==> events == 1 || 1000 * events <= quota
  {
    var maximum := Clamp(preferred, 1, 256);
    if quota == 0 then maximum else Clamp(quota / 1000, 1, maximum)
  }

  /** With any FILE limit set, events go to the transport one at a time. */
  function FileBatchEvents(quota: nat, maxBytes: nat, maxCount: nat, maxDuration: nat): (events: nat)
    ensures 1 <= events <= 256
    ensures maxBytes > 0 || maxCount > 0 || maxDuration > 0 ==> events == 1
    ensures quota > 0 ==> events == 1 || 20 * events <= quota
  {
    if maxBytes > 0 || maxCount > 0 || maxDuration > 0 then 1
    else if quota == 0 then 256
    else Clamp(quota / 20, 1, 256)
  }

  /** A number of events that is one, or no more than the limit and no more than its share of a second of the quota. */
  predicate BatchAllowed(quota: nat, share: nat, limit: nat, n: nat) {
    n == 1 || (1 < n <= limit && (quota > 0 ==> share * n <= quota))
  }

  lemma ClampIsLargest(quota: nat, share: nat, limit: nat, n: nat)
    requires share > 0 && limit >= 1 && quota > 0 && BatchAllowed(quota, share, limit, n)
    ensures n <= Clamp(quota / share, 1, limit)
  {
    assert quota < share * (quota / share + 1);
    if n > quota / share && n > 1 {
      MulMonotone(share, quota / share + 1, n);
    }
  }

  /** Every batch size is the largest that its limit and its share of a second of the quota allow. */
  lemma BatchesAreLargest(quota: nat, preferred: nat, n: nat)
    ensures BatchAllowed(quota, 200, 1024, n) ==> n <= StreamBatchEvents(quota)
    ensures BatchAllowed(quota, 1000, Min(preferred, 256), n) ==> n <= DatagramBatchEvents(quota, preferred)
    ensures BatchAllowed(quota, 20, 256, n) ==> n <= FileBatchEvents(quota, 0, 0, 0)
    ensures BatchAllowed(quota, 200, MAX_SIZE, n) ==> n <= PackedEventTarget(quota)
  {
    if quota > 0 {
      if BatchAllowed(quota, 200, 1024, n) {
        ClampIsLargest(quota, 200, 1024, n);
      }
      if BatchAllowed(quota, 1000, Min(preferred, 256), n) {
        ClampIsLargest(quota, 1000, Clamp(preferred, 1, 256), n);
      }
      if BatchAllowed(quota, 20, 256, n) {
        ClampIsLargest(quota, 20, 256, n);
      }
      if BatchAllowed(quota, 200, MAX_SIZE, n) {
        ClampIsLargest(quota, 200, MAX_SIZE, n);
      }
    }
  }

  /** Event target of one packed UDP batch; an unlimited worker is bounded by bytes only. */
  function PackedEventTarget(quota: nat): (events: nat)
    ensures events >= 1
    ensures 0 < quota <= MAX_SIZE ==> events == 1 || 200 * events <= quota
  {
    if quota == 0 then MAX_SIZE else Clamp(quota / 200, 1, MAX_SIZE)
  }
}

/** The rate pacer and the bound it puts on every run. Times are nanoseconds of the steady clock. */
module Pacing {
  import opened Limits

  const NANOS := 1_000_000_000
  const WORD := 0x1_0000_0000_0000_0000

  /** A monotone clock. A sleep lasts at least as long as asked; a pause lets at least one tick pass. The ghost fields
      record the latest moment that a sleep was asked to last to, and the longest sleep that was asked for. */
  class Clock {
    var now: int
    ghost var wakeUp: int
    ghost var longest: int

    method Now() returns (t: int)
      modifies this`now
      ensures t == now && now >= old(now)
    {
      var passed: nat :| true;
      now := now + passed;
      t := now;
    }

    method Sleep(duration: int)
      modifies this
      ensures now >= old(now) && now >= old(now) + duration
      ensures wakeUp == (if old(now) + duration > old(wakeUp) then old(now) + duration else old(wakeUp))
      ensures longest == (if duration > old(longest) then duration else old(longest))
    {
      var late: nat :| true;
      wakeUp := if now + duration > wakeUp then now + duration else wakeUp;
      longest := if duration > longest then duration else longest;
      now := now + (if duration > 0 then duration else 0) + late;
    }

    method Pause()
      modifies this`now
      ensures now > old(now)
    {
      var passed: nat :| true;
      now := now + 1 + passed;
    }
  }

  /** A stop token: it may turn on at any reading and never turns off. */
  class StopToken {
    var requested: bool

    method Requested() returns (answer: bool)
      modifies this
      ensures answer == requested && (old(requested) ==> requested)
    {
      var raised: bool :| true;
      requested := requested || raised;
      answer := requested;
    }
  }

  /** The 64-bit product divided by the rate and cast to a signed count of nanoseconds. */
  function DurationNs(events: nat, rate: nat): int
    requires rate > 0
  {
    var unsigned := (NANOS * events) % WORD / rate;
    if unsigned >= WORD / 2 then unsigned - WORD else unsigned
  }

  lemma Distribute(k: int, a: int, b: int)
    ensures k * (a + b) == k * a + k * b
  {
  }

  /** d nanoseconds are what this many events take at this rate, rounded down. */
  ghost predicate Lasts(rate: nat, events: nat, d: int) {
    0 <= d && rate * d <= NANOS * events < rate * (d + 1)
  }

  lemma LastsOnce(rate: nat, events: nat, d: int, e: int)
    requires Lasts(rate, events, d) && Lasts(rate, events, e)
    ensures d == e
  {
    if d < e {
      MulMonotone(rate, d + 1, e);
    } else if e < d {
      MulMonotone(rate, e + 1, d);
    }
  }

  /** No batch is large enough for the product to wrap, so one duration is exact but for the part of a nanosecond. */
  lemma DurationExact(events: nat, rate: nat)
    requires rate > 0 && events <= MAX_BATCH_EVENTS
    ensures Lasts(rate, events, DurationNs(events, rate))
    ensures NANOS * events <= rate * DurationNs(events, rate) + (rate - 1)
  {
    Distribute(rate, DurationNs(events, rate), 1);
    var product := NANOS * events;
    assert product % WORD == product;
    var quotient := product / rate;
    assert product == rate * quotient + product % rate;
    MulMonotone(quotient, 1, rate);
    assert quotient <= rate * quotient;
  }

  /** What one call of `wait` did: first clock reading, schedule afterwards, time at return, stop flag at return. */
  datatype WaitRecord = WaitRecord(events: nat, checked: int, next: int, returned: int, stopped: bool)

  function NextAt(start: int, waits: seq<WaitRecord>, i: nat): int
    requires i <= |waits|
  {
    if i == 0 then start else waits[i - 1].next
  }

  /** The effect of one wait on the schedule. */
  function Reschedule(next: int, events: nat, rate: nat, checked: int): int
    requires rate > 0
  {
    var due := next + DurationNs(events, rate);
    if due + NANOS < checked then checked else due
  }

  ghost predicate PacedStep(rate: nat, previous: int, w: WaitRecord)
    requires rate > 0
  {
    && w.next == Reschedule(previous, w.events, rate, w.checked)
    && w.checked <= w.returned
    && (!w.stopped ==> w.next <= w.returned)
  }

  ghost predicate Paced(rate: nat, start: int, waits: seq<WaitRecord>)
    requires rate > 0
  {
    forall i: nat {:trigger PacedStep(rate, NextAt(start, waits, i), waits[i])} ::
      i < |waits| ==> PacedStep(rate, NextAt(start, waits, i), waits[i])
  }

  /** The schedule moved by what the events take, or to the reading if it was then more than a second behind. */
  ghost predicate MovedOn(rate: nat, previous: int, w: WaitRecord) {
    exists d :: Lasts(rate, w.events, d) && w.next == if previous + d + NANOS < w.checked then w.checked else previous + d
  }

  /** Sleeps towards `due` in short slices, then spins; gives up as soon as a stop is seen. */
  method HoldUntil(due: int, firstReading: int, clock: Clock, stop: StopToken)
    requires clock.now == firstReading
    modifies clock, stop
    ensures clock.now >= old(clock.now)
    ensures clock.wakeUp == old(clock.wakeUp) || clock.wakeUp < due
    ensures clock.longest == old(clock.longest) || clock.longest <= 2_000_000
    ensures old(stop.requested) ==> clock.wakeUp == old(clock.wakeUp) && clock.longest == old(clock.longest)
    ensures old(stop.requested) ==> stop.requested
    ensures !stop.requested ==> due <= clock.now
  {
    var now := firstReading;
    var stopped := stop.Requested();
    while !stopped && now + 200_000 < due
      invariant clock.now == now >= old(clock.now)
      invariant clock.wakeUp == old(clock.wakeUp) || clock.wakeUp < due
      invariant clock.longest == old(clock.longest) || clock.longest <= 2_000_000
      invariant old(stop.requested) ==> stopped && clock.wakeUp == old(clock.wakeUp) && clock.longest == old(clock.longest)
      invariant old(stop.requested) ==> stop.requested
      decreases due - now
    {
      var remaining := due - now - 150_000;
      clock.Sleep(Min(remaining, 2_000_000));
      now := clock.Now();
      stopped := stop.Requested();
    }
    var early := true;
    while early
      invariant clock.now >= old(clock.now)
      invariant clock.wakeUp == old(clock.wakeUp) || clock.wakeUp < due
      invariant clock.longest == old(clock.longest) || clock.longest <= 2_000_000
      invariant old(stop.requested) ==> clock.wakeUp == old(clock.wakeUp) && clock.longest == old(clock.longest)
      invariant old(stop.requested) ==> stop.requested
      invariant !early && !stop.requested ==> due <= clock.now
      decreases early, due - clock.now
    {
      stopped := stop.Requested();
      now := clock.Now();
      early := !stopped && now < due;
      if early {
        clock.Pause();
      }
    }
  }

  class RatePacer {
    const rate: nat
    var next: int
    ghost const start: int
    ghost var waits: seq<WaitRecord>

    ghost predicate Valid()
      reads this
    {
      && next == NextAt(start, waits, |waits|)
      && (rate > 0 ==> Paced(rate, start, waits))
    }

    constructor (rate: nat, clock: Clock)
      modifies clock
      ensures Valid() && this.rate == rate && waits == []
      ensures next == start == clock.now
    {
      var now := clock.Now();
      this.rate := rate;
      this.next := now;
      this.start := now;
      this.waits := [];
    }

    method Wait(events: nat, clock: Clock, stop: StopToken)
      requires Valid()
      modifies this, clock, stop
      ensures Valid()
      ensures clock.now >= old(clock.now) && (old(stop.requested) ==> stop.requested)
      ensures rate == 0 || events == 0 ==> waits == old(waits) && next == old(next)
      ensures rate > 0 && events > 0 ==>
                |waits| == |old(waits)| + 1 && waits[..|old(waits)|] == old(waits)
                && var w := waits[|old(waits)|];
                   w.events == events && w.returned == clock.now && w.stopped == stop.requested
                   && old(clock.now) <= w.checked
      ensures rate > 0 && 0 < events <= MAX_BATCH_EVENTS ==>
                next == waits[|old(waits)|].next && MovedOn(rate, old(next), waits[|old(waits)|])
      ensures clock.wakeUp == old(clock.wakeUp) || clock.wakeUp < next
      ensures clock.longest == old(clock.longest) || clock.longest <= 2_000_000
    {
      if rate == 0 || events == 0 {
        return;
      }
      if events <= MAX_BATCH_EVENTS {
        DurationExact(events, rate);
      }
      next := next + DurationNs(events, rate);
      var now := clock.Now();
      if next + NANOS < now {
        next := now;
      } else {
        HoldUntil(next, now, clock, stop);
      }
      ghost var record := WaitRecord(events, now, next, clock.now, stop.requested);
      assert PacedStep(rate, old(next), record);
      waits := waits + [record];
      PacedSnoc(rate, start, old(waits), record);
    }
  }

  lemma PacedSnoc(rate: nat, start: int, waits: seq<WaitRecord>, w: WaitRecord)
    requires rate > 0 && Paced(rate, start, waits) && PacedStep(rate, NextAt(start, waits, |waits|), w)
    ensures Paced(rate, start, waits + [w])
  {
    forall i: nat | i < |waits| + 1
      ensures PacedStep(rate, NextAt(start, waits + [w], i), (waits + [w])[i])
    {
      assert NextAt(start, waits + [w], i) == NextAt(start, waits, i);
      assert i < |waits| ==> PacedStep(rate, NextAt(start, waits, i), waits[i]);
    }
  }

  // ----- the rate bound -----

  function Events(waits: seq<WaitRecord>): nat {
    if waits == [] then 0 else Events(waits[..|waits| - 1]) + waits[|waits| - 1].events
  }

  ghost predicate BatchSized(waits: seq<WaitRecord>) {
    forall i :: 0 <= i < |waits| ==> waits[i].events <= MAX_BATCH_EVENTS
  }

  /** What one wait guarantees, freed of the division. */
  ghost predicate StepBound(rate: nat, previous: int, w: WaitRecord) {
    && previous <= w.next
    && w.checked - NANOS <= w.next
    && NANOS * w.events <= rate * (w.next - previous) + (rate - 1)
  }

  lemma PacedStepBound(rate: nat, previous: int, w: WaitRecord)
    requires rate > 0 && PacedStep(rate, previous, w) && w.events <= MAX_BATCH_EVENTS
    ensures StepBound(rate, previous, w)
  {
    DurationExact(w.events, rate);
    MulMonotone(rate, DurationNs(w.events, rate), w.next - previous);
  }

  ghost predicate StepBoundAt(rate: nat, start: int, waits: seq<WaitRecord>, i: nat)
    requires i < |waits|
  {
    StepBound(rate, NextAt(start, waits, i), waits[i])
  }

  ghost predicate Bounded(rate: nat, start: int, waits: seq<WaitRecord>) {
    forall i: nat {:trigger StepBoundAt(rate, start, waits, i)} :: i < |waits| ==> StepBoundAt(rate, start, waits, i)
  }

  lemma PacedIsBounded(rate: nat, start: int, waits: seq<WaitRecord>)
    requires rate > 0 && Paced(rate, start, waits) && BatchSized(waits)
    ensures Bounded(rate, start, waits)
  {
    forall i: nat | i < |waits| ensures StepBoundAt(rate, start, waits, i) {
      assert PacedStep(rate, NextAt(start, waits, i), waits[i]);
      PacedStepBound(rate, NextAt(start, waits, i), waits[i]);
    }
  }

  lemma AddBounds(rate: nat, ab: int, bc: int, n: int, first: int, second: int)
    requires NANOS * first <= rate * ab + n * (rate - 1)
    requires NANOS * second <= rate * bc + (rate - 1)
    ensures NANOS * (first + second) <= rate * (ab + bc) + (n + 1) * (rate - 1)
  {
    Distribute(rate, ab, bc);
    Distribute(rate - 1, n, 1);
  }

  /** Between two points of the schedule, at most one event per rate-th of a second, plus rounding. */
  lemma {:induction false} ScheduleBound(rate: nat, start: int, waits: seq<WaitRecord>, i: nat, k: nat)
    requires Bounded(rate, start, waits)
    requires i <= k <= |waits|
    ensures NANOS * Events(waits[i..k]) <= rate * (NextAt(start, waits, k) - NextAt(start, waits, i)) + (k - i) * (rate - 1)
    decreases k
  {
    var a, c := NextAt(start, waits, i), NextAt(start, waits, k);
    if i < k {
      ScheduleBound(rate, start, waits, i, k - 1);
      var w, b := waits[k - 1], NextAt(start, waits, k - 1);
      assert StepBoundAt(rate, start, waits, k - 1);
      assert waits[i..k][..k - i - 1] == waits[i..k - 1];
      AddBounds(rate, b - a, c - b, k - 1 - i, Events(waits[i..k - 1]), w.events);
    } else {
      assert waits[i..k] == [];
    }
  }

  /** The worker was more than a second behind its schedule, which then starts again at the reading. */
  ghost predicate WasReset(rate: nat, previous: int, w: WaitRecord) {
    exists d :: Lasts(rate, w.events, d) && previous + d + NANOS < w.checked
  }

  lemma KeptStep(rate: nat, previous: int, w: WaitRecord)
    requires rate > 0 && PacedStep(rate, previous, w) && w.events <= MAX_BATCH_EVENTS && !WasReset(rate, previous, w)
    ensures rate * (w.next - previous) <= NANOS * w.events
  {
    DurationExact(w.events, rate);
  }

  /** The schedule is not slower than the rate either: until it is reset, it gives each event no more than its share of time. */
  lemma {:induction false} ScheduleKeepsUp(rate: nat, start: int, waits: seq<WaitRecord>, k: nat)
    requires rate > 0 && Paced(rate, start, waits) && BatchSized(waits) && k <= |waits|
    requires forall i: nat :: i < k ==> !WasReset(rate, NextAt(start, waits, i), waits[i])
    ensures rate * (NextAt(start, waits, k) - start) <= NANOS * Events(waits[..k])
  {
    if k > 0 {
      ScheduleKeepsUp(rate, start, waits, k - 1);
      var w, previous := waits[k - 1], NextAt(start, waits, k - 1);
      assert PacedStep(rate, previous, waits[k - 1]);
      KeptStep(rate, previous, w);
      assert waits[..k][..k - 1] == waits[..k - 1];
      Distribute(rate, previous - start, w.next - previous);
    }
  }

  ghost predicate EndsUnstopped(waits: seq<WaitRecord>) {
    waits != [] && !waits[|waits| - 1].stopped && waits[|waits| - 1].next <= waits[|waits| - 1].returned
  }

  lemma PacedEnds(rate: nat, start: int, waits: seq<WaitRecord>)
    requires rate > 0 && Paced(rate, start, waits) && waits != [] && !waits[|waits| - 1].stopped
    ensures EndsUnstopped(waits)
  {
    assert PacedStep(rate, NextAt(start, waits, |waits| - 1), waits[|waits| - 1]);
  }

  /** From construction to the return of an unstopped wait, a worker is never ahead of its rate. */
  lemma RateBound(rate: nat, start: int, waits: seq<WaitRecord>)
    requires rate > 0 && Paced(rate, start, waits) && BatchSized(waits)
    requires waits != [] && !waits[|waits| - 1].stopped
    ensures NANOS * Events(waits) <= rate * (waits[|waits| - 1].returned - start) + |waits| * (rate - 1)
  {
    PacedIsBounded(rate, start, waits);
    PacedEnds(rate, start, waits);
    BoundToReturn(rate, start, waits, 0, start);
    assert waits[0..] == waits;
  }

  lemma BoundToReturn(rate: nat, start: int, waits: seq<WaitRecord>, i: nat, since: int)
    requires Bounded(rate, start, waits) && EndsUnstopped(waits)
    requires i <= |waits| && since <= NextAt(start, waits, i)
    ensures NANOS * Events(waits[i..]) <= rate * (waits[|waits| - 1].returned - since) + (|waits| - i) * (rate - 1)
  {
    ScheduleBound(rate, start, waits, i, |waits|);
    assert waits[i..|waits|] == waits[i..];
    MulMonotone(rate, NextAt(start, waits, |waits|) - NextAt(start, waits, i), waits[|waits| - 1].returned - since);
  }

  /** In any later window the excess is at most one second's worth of events, however late the worker ran before. */
  lemma WindowBound(rate: nat, start: int, waits: seq<WaitRecord>, i: nat)
    requires rate > 0 && Paced(rate, start, waits) && BatchSized(waits)
    requires i + 1 < |waits| && !waits[|waits| - 1].stopped
    ensures NANOS * Events(waits[i + 1..]) <=
            rate * (waits[|waits| - 1].returned - waits[i].checked) + rate * NANOS + (|waits| - i - 1) * (rate - 1)
  {
    PacedIsBounded(rate, start, waits);
    PacedEnds(rate, start, waits);
    BoundedWindow(rate, start, waits, i);
  }

  lemma BoundedWindow(rate: nat, start: int, waits: seq<WaitRecord>, i: nat)
    requires Bounded(rate, start, waits) && EndsUnstopped(waits) && i + 1 < |waits|
    ensures NANOS * Events(waits[i + 1..]) <=
            rate * (waits[|waits| - 1].returned - waits[i].checked) + rate * NANOS + (|waits| - i - 1) * (rate - 1)
  {
    assert StepBoundAt(rate, start, waits, i);
    BoundToReturn(rate, start, waits, i + 1, waits[i].checked - NANOS);
    Distribute(rate, waits[|waits| - 1].returned - waits[i].checked, NANOS);
  }

  // ----- all workers together -----

  datatype Trace = Trace(start: int, waits: seq<WaitRecord>)

  /** Events sent by each worker. */
  function EventCounts(traces: seq<Trace>): seq<nat> {
    seq(|traces|, w requires 0 <= w < |traces| => Events(traces[w].waits))
  }

  function WaitCounts(traces: seq<Trace>): seq<nat> {
    seq(|traces|, w requires 0 <= w < |traces| => |traces[w].waits|)
  }

  /** Rounding allowance of one worker: each wait may be short by one event less one rate-th. */
  function Allowance(quota: nat, waits: nat): int {
    quota * waits - waits
  }

  function Slack(quotas: seq<nat>, waits: seq<nat>): int
    requires |quotas| == |waits|
  {
    if quotas == [] then 0
    else
      var w := |quotas| - 1;
      Slack(quotas[..w], waits[..w]) + Allowance(quotas[w], waits[w])
  }

  ghost predicate WorkerTrace(quota: nat, t: Trace, from: int, to: int) {
    && quota >= 1
    && Paced(quota, t.start, t.waits) && BatchSized(t.waits)
    && from <= t.start <= to
    && (t.waits != [] ==> !t.waits[|t.waits| - 1].stopped && t.waits[|t.waits| - 1].returned <= to)
  }

  ghost predicate WithinQuota(quota: nat, events: nat, waits: nat, time: int) {
    NANOS * events <= quota * time + Allowance(quota, waits)
  }

  lemma WorkerBound(quota: nat, t: Trace, from: int, to: int)
    requires WorkerTrace(quota, t, from, to)
    ensures WithinQuota(quota, Events(t.waits), |t.waits|, to - from)
  {
    if t.waits != [] {
      RateBound(quota, t.start, t.waits);
      MulMonotone(quota, t.waits[|t.waits| - 1].returned - t.start, to - from);
      Distribute(|t.waits|, quota, -1);
    } else {
      MulMonotone(quota, 0, to - from);
    }
  }

  lemma {:induction false} SumOfQuotas(quotas: seq<nat>, events: seq<nat>, waits: seq<nat>, time: int)
    requires |quotas| == |events| == |waits|
    requires forall w {:trigger events[w]} :: 0 <= w < |quotas| ==> WithinQuota(quotas[w], events[w], waits[w], time)
    ensures NANOS * Sum(events) <= Sum(quotas) * time + Slack(quotas, waits)
  {
    if quotas != [] {
      var w := |quotas| - 1;
      SumOfQuotas(quotas[..w], events[..w], waits[..w], time);
      Distribute(time, Sum(quotas[..w]), quotas[w]);
      assert WithinQuota(quotas[w], events[w], waits[w], time);
    }
  }

  /** The whole service: however the workers interleave, they send no more than the target allows. */
  lemma ServiceRateBound(mode: Mode, protocol: Protocol, optimal: nat, target: nat, traces: seq<Trace>, from: int, to: int)
    requires |traces| == WorkerCount(mode, protocol, optimal, target)
    requires var quotas := Quotas(target, |traces|);
             forall w :: 0 <= w < |traces| ==> WorkerTrace(quotas[w], traces[w], from, to)
    ensures NANOS * Sum(EventCounts(traces)) <= target * (to - from) + Slack(Quotas(target, |traces|), WaitCounts(traces))
  {
    var quotas, events, waits := Quotas(target, |traces|), EventCounts(traces), WaitCounts(traces);
    QuotasShareTarget(mode, protocol, optimal, target);
    forall w | 0 <= w < |traces| ensures WithinQuota(quotas[w], events[w], waits[w], to - from) {
      WorkerBound(quotas[w], traces[w], from, to);
    }
    SumOfQuotas(quotas, events, waits, to - from);
  }
}
