/** How often a residue class is met in a range of ticket or second numbers. */
module Counting {
  import Limits


  function Indicator(b: bool): nat { if b then 1 else 0 }

  function CountRange(low: nat, high: nat, p: nat -> bool): nat
    requires low <= high
  {
    if low == high then 0 else CountRange(low, high - 1, p) + Indicator(p(high - 1))
  }

  function ResidueIs(modulus: nat, residue: nat): nat -> bool
    requires modulus > 0
  {
    (t: nat) => t % modulus == residue
  }

  lemma {:induction false} CountSplit(low: nat, middle: nat, high: nat, p: nat -> bool)
    requires low <= middle <= high
    ensures CountRange(low, high, p) == CountRange(low, middle, p) + CountRange(middle, high, p)
  {
    if middle < high {
      CountSplit(low, middle, high - 1, p);
    }
  }

  lemma DivModStep(n: nat, modulus: nat)
    requires modulus > 0
    ensures (n + 1) / modulus == n / modulus + (if n % modulus == modulus - 1 then 1 else 0)
    ensures (n + 1) % modulus == (if n % modulus == modulus - 1 then 0 else n % modulus + 1)
  {
    var q, r := n / modulus, n % modulus;
    assert n == modulus * q + r;
    if r == modulus - 1 {
      DivModUnique(n + 1, modulus, q + 1, 0);
    } else {
      DivModUnique(n + 1, modulus, q, r + 1);
    }
  }

  lemma DivModUnique(n: nat, modulus: nat, q: nat, r: nat)
    requires r < modulus && n == modulus * q + r
    ensures n / modulus == q && n % modulus == r
  {
    var d := n / modulus - q;
    assert modulus * d == modulus * (n / modulus) - modulus * q == r - n % modulus;
    assert d <= 0 by {
      if d >= 1 {
        Limits.MulMonotone(modulus, 1, d);
        assert false;
      }
    }
    assert d >= 0 by {
      if d <= -1 {
        Limits.MulMonotone(modulus, d, -1);
        assert false;
      }
    }
  }

  lemma AdvanceModulo(n: nat, k: nat, span: nat)
    requires span > 0
    ensures var sum := n % span + k % span;
            (n + k) % span == if sum >= span then sum - span else sum
  {
    SumModulo(n / span, n % span, k / span, k % span, span);
    assert n == span * (n / span) + n % span && k == span * (k / span) + k % span;
  }

  lemma SumModulo(a: nat, r: nat, b: nat, s: nat, span: nat)
    requires r < span && s < span
    ensures ((span * a + r) + (span * b + s)) % span == if r + s >= span then r + s - span else r + s
  {
    var n := (span * a + r) + (span * b + s);
    assert n == span * (a + b) + (r + s);
    if r + s >= span {
      assert n == span * (a + b + 1) + (r + s - span);
      DivModUnique(n, span, a + b + 1, r + s - span);
    } else {
      DivModUnique(n, span, a + b, r + s);
    }
  }

  /** Among the numbers below n, residue r is met n / modulus times, once more if it lies in the unfinished period. */
  lemma {:induction false} ResidueCount(n: nat, modulus: nat, residue: nat)
    requires residue < modulus
    ensures CountRange(0, n, ResidueIs(modulus, residue)) == n / modulus + Indicator(residue < n % modulus)
  {
    if n == 0 {
      DivModUnique(0, modulus, 0, 0);
    } else {
      ResidueCount(n - 1, modulus, residue);
      DivModStep(n - 1, modulus);
    }
  }

  /** Over any run of consecutive numbers two residues are met equally often, give or take one. */
  lemma ResidueBalance(low: nat, high: nat, modulus: nat, a: nat, b: nat)
    requires low <= high && a < modulus && b < modulus
    ensures -1 <= CountRange(low, high, ResidueIs(modulus, a)) - CountRange(low, high, ResidueIs(modulus, b)) <= 1
  {
    CountSplit(0, low, high, ResidueIs(modulus, a));
    CountSplit(0, low, high, ResidueIs(modulus, b));
    ResidueCount(low, modulus, a);
    ResidueCount(high, modulus, a);
    ResidueCount(low, modulus, b);
    ResidueCount(high, modulus, b);
  }
}

/** Timestamps taken from a closed range of seconds, shared out among the workers. */
module TimeRanges {
  import opened Counting

  const WORD := 0x1_0000_0000_0000_0000
  type Word = x: nat | x < WORD

  datatype TimeRange = TimeRange(start: int, end: int) {

    predicate Valid() { start <= end }

    /** The subtraction of the two 64-bit second counts does not overflow. */
    predicate Representable() { end - start < WORD / 2 }

    function InclusiveSeconds(): nat {
      if Valid() then end - start + 1 else 0
    }
  }

  /** The k-th timestamp of worker w out of `workers`. */
  function TimestampAt(range: TimeRange, worker: nat, workers: nat, k: nat): int
    requires range.Valid()
  {
    range.start + (worker + k * workers) % range.InclusiveSeconds()
  }

  class TimestampCursor {
    const range: TimeRange
    const span: Word
    const step: Word
    var position: Word
    ghost const worker: nat
    ghost const workers: nat
    ghost var calls: nat

    ghost predicate Valid()
      reads this
    {
      && range.Valid()
      && 0 < span == range.InclusiveSeconds() && span <= WORD / 2
      && step == workers % span
      && position == (worker + calls * workers) % span
    }

    constructor (range: TimeRange, worker: Word, workers: Word)
      requires range.Valid() && range.Representable()
      ensures Valid() && calls == 0
      ensures this.range == range && this.worker == worker && this.workers == workers
    {
      this.range := range;
      this.span := range.InclusiveSeconds();
      this.position := worker % range.InclusiveSeconds();
      this.step := workers % range.InclusiveSeconds();
      this.worker := worker;
      this.workers := workers;
      this.calls := 0;
    }

    /** Every assignment to the 64-bit position stays below 2^64, so nothing wraps. */
    method Next() returns (time: int)
      requires Valid()
      modifies this
      ensures Valid() && calls == old(calls) + 1
      ensures time == TimestampAt(range, worker, workers, old(calls))
      ensures range.start <= time <= range.end
    {
      time := range.start + position;
      NextOffset(worker, workers, calls, span);
      position := position + step;
      if position >= span {
        position := position - span;
      }
      calls := calls + 1;
    }
  }

  lemma NextOffset(worker: nat, workers: nat, calls: nat, span: nat)
    requires span > 0
    ensures var sum := (worker + calls * workers) % span + workers % span;
            (worker + (calls + 1) * workers) % span == if sum >= span then sum - span else sum
  {
    AdvanceModulo(worker + calls * workers, workers, span);
    assert worker + (calls + 1) * workers == worker + calls * workers + workers;
  }

  /** The constructor refuses a range that ends before it starts. */
  method MakeCursor(range: TimeRange, worker: Word, workers: Word) returns (cursor: TimestampCursor?)
    requires range.Representable()
    ensures cursor == null <==> range.end < range.start
    ensures cursor != null ==> fresh(cursor) && cursor.Valid() && cursor.calls == 0
  {
    if range.InclusiveSeconds() == 0 {
      cursor := null;
    } else {
      cursor := new TimestampCursor(range, worker, workers);
    }
  }

  // ----- coverage of the range -----

  /** How often worker w used second s of the range in its first K calls. */
  function WorkerUses(range: TimeRange, worker: nat, workers: nat, calls: nat, second: int): nat
    requires range.Valid()
  {
    if calls == 0 then 0
    else WorkerUses(range, worker, workers, calls - 1, second)
         + Indicator(TimestampAt(range, worker, workers, calls - 1) == second)
  }

  /** How often the first `upTo` workers used it. */
  function Uses(range: TimeRange, upTo: nat, workers: nat, calls: nat, second: int): nat
    requires range.Valid()
  {
    if upTo == 0 then 0
    else Uses(range, upTo - 1, workers, calls, second) + WorkerUses(range, upTo - 1, workers, calls, second)
  }

  /** Call number k of the first `upTo` workers covers a stretch of consecutive offsets. */
  lemma {:induction false} UsesStep(range: TimeRange, upTo: nat, workers: nat, calls: nat, second: int)
    requires range.start <= second <= range.end
    ensures Uses(range, upTo, workers, calls + 1, second) ==
            Uses(range, upTo, workers, calls, second)
            + CountRange(calls * workers, calls * workers + upTo, ResidueIs(range.InclusiveSeconds(), second - range.start))
  {
    if upTo > 0 {
      UsesStep(range, upTo - 1, workers, calls, second);
      assert calls * workers + upTo - 1 == upTo - 1 + calls * workers;
    }
  }

  /** When every worker has made K calls, each second was used floor or ceiling of K * workers / span times. */
  lemma {:induction false} EvenCoverage(range: TimeRange, workers: nat, calls: nat, second: int)
    requires range.start <= second <= range.end
    ensures var span, made := range.InclusiveSeconds(), calls * workers;
            Uses(range, workers, workers, calls, second) == made / span + Indicator(second - range.start < made % span)
  {
    UsesAreCounts(range, workers, calls, second);
    ResidueCount(calls * workers, range.InclusiveSeconds(), second - range.start);
  }

  lemma {:induction false} UsesAreCounts(range: TimeRange, workers: nat, calls: nat, second: int)
    requires range.start <= second <= range.end
    ensures Uses(range, workers, workers, calls, second)
            == CountRange(0, calls * workers, ResidueIs(range.InclusiveSeconds(), second - range.start))
  {
    var p := ResidueIs(range.InclusiveSeconds(), second - range.start);
    if calls == 0 {
      NoCalls(range, workers, workers, second);
    } else {
      UsesAreCounts(range, workers, calls - 1, second);
      UsesStep(range, workers, workers, calls - 1, second);
      assert (calls - 1) * workers + workers == calls * workers;
      CountSplit(0, (calls - 1) * workers, calls * workers, p);
    }
  }

  lemma {:induction false} NoCalls(range: TimeRange, upTo: nat, workers: nat, second: int)
    requires range.Valid()
    ensures Uses(range, upTo, workers, 0, second) == 0
  {
    if upTo > 0 {
      NoCalls(range, upTo - 1, workers, second);
    }
  }
}

/** The shared template cursor and the workers' reserved blocks. */
module RoundRobin {
  import opened Counting

  const WORD := 0x1_0000_0000_0000_0000

  /** The shared ticket counter; one atomic fetch-and-add per reservation. */
  class RoundRobinCursor {
    const itemCount: nat
    var next: nat

    ghost predicate Valid()
      reads this
    {
      itemCount > 0 && next < WORD
    }

    constructor (itemCount: nat)
      requires itemCount > 0
      ensures Valid() && this.itemCount == itemCount && next == 0
    {
      this.itemCount := itemCount;
      this.next := 0;
    }

    method Reserve(count: nat) returns (first: nat)
      requires Valid()
      modifies this
      ensures Valid()
      ensures first == if itemCount == 1 then 0 else old(next) % itemCount
      ensures next == if itemCount == 1 then old(next) else (old(next) + count) % WORD
    {
      if itemCount == 1 {
        return 0;
      }
      first := next % itemCount;
      next := (next + count) % WORD;
    }
  }

  lemma NextIndex(ticket: nat, items: nat)
    requires items > 0
    ensures (ticket + 1) % items == if ticket % items + 1 == items then 0 else ticket % items + 1
    ensures ticket % items < items
  {
    DivModStep(ticket, items);
  }

  /** An unspent run of tickets. */
  datatype Block = Block(ticket: nat, remaining: nat)

  /** One selection: open a new block at the shared counter if the old one is spent, then use one ticket. */
  function Opened(next: nat, block: Block, size: nat): Block {
    if block.remaining == 0 then Block(next, size) else block
  }

  function NextAfter(next: nat, block: Block, size: nat): nat {
    if block.remaining == 0 then next + size else next
  }

  class WorkerRoundRobinCursor {
    const shared: RoundRobinCursor
    const reservationSize: nat
    var current: nat
    var remaining: nat
    ghost var ticket: nat

    ghost function Unspent(): Block
      reads this
    {
      Block(ticket, remaining)
    }

    ghost predicate Valid()
      reads this, shared
    {
      && shared.Valid() && reservationSize > 0
      && (remaining > 0 ==> current == if shared.itemCount == 1 then 0 else ticket % shared.itemCount)
    }

    constructor (shared: RoundRobinCursor, reservationSize: nat)
      requires shared.Valid() && reservationSize > 0
      ensures Valid() && this.shared == shared && this.reservationSize == reservationSize
      ensures Unspent() == Block(0, 0)
    {
      this.shared := shared;
      this.reservationSize := reservationSize;
      this.current := 0;
      this.remaining := 0;
      this.ticket := 0;
    }

    /** While the counter is below 2^64 the selected template is the used ticket modulo the template count. */
    method Next() returns (index: nat)
      requires Valid() && shared.next + reservationSize < WORD
      modifies this, shared
      ensures Valid() && index < shared.itemCount
      ensures shared.itemCount > 1 ==>
                var block := Opened(old(shared.next), old(Unspent()), reservationSize);
                && index == block.ticket % shared.itemCount
                && Unspent() == Block(block.ticket + 1, block.remaining - 1)
                && shared.next == NextAfter(old(shared.next), old(Unspent()), reservationSize)
    {
      if remaining == 0 {
        ticket := shared.next;
        current := shared.Reserve(reservationSize);
        remaining := reservationSize;
      }
      index := current;
      NextIndex(ticket, shared.itemCount);
      current := if current + 1 == shared.itemCount then 0 else current + 1;
      remaining := remaining - 1;
      ticket := ticket + 1;
    }
  }

  // ----- all workers together, any interleaving -----

  /** Shared counter, each worker's block, and the tickets used so far in the order of use. */
  datatype Selection = Selection(next: nat, blocks: seq<Block>, used: seq<nat>)

  function Start(workers: nat): Selection {
    Selection(0, seq(workers, _ => Block(0, 0)), [])
  }

  /** Worker w selects its next template. */
  function Select(s: Selection, w: nat, size: nat): Selection
    requires w < |s.blocks| && size > 0
  {
    var block := Opened(s.next, s.blocks[w], size);
    Selection(NextAfter(s.next, s.blocks[w], size),
              s.blocks[w := Block(block.ticket + 1, block.remaining - 1)],
              s.used + [block.ticket])
  }

  /** The schedule says which worker moves; sizes are per worker. */
  function Run(sizes: seq<nat>, schedule: seq<nat>): (s: Selection)
    requires forall w :: 0 <= w < |sizes| ==> sizes[w] > 0
    requires forall i :: 0 <= i < |schedule| ==> schedule[i] < |sizes|
    ensures |s.blocks| == |sizes|
  {
    if schedule == [] then Start(|sizes|)
    else
      var w := schedule[|schedule| - 1];
      Select(Run(sizes, schedule[..|schedule| - 1]), w, sizes[w])
  }

  function CountUsed(used: seq<nat>, p: nat -> bool): nat {
    if used == [] then 0 else CountUsed(used[..|used| - 1], p) + Indicator(p(used[|used| - 1]))
  }

  function CountBlock(b: Block, p: nat -> bool): nat {
    CountRange(b.ticket, b.ticket + b.remaining, p)
  }

  function CountUnspent(blocks: seq<Block>, p: nat -> bool): nat {
    if blocks == [] then 0 else CountUnspent(blocks[..|blocks| - 1], p) + CountBlock(blocks[|blocks| - 1], p)
  }

  lemma {:induction false} CountUnspentUpdate(blocks: seq<Block>, w: nat, b: Block, p: nat -> bool)
    requires w < |blocks|
    ensures CountUnspent(blocks[w := b], p) + CountBlock(blocks[w], p) == CountUnspent(blocks, p) + CountBlock(b, p)
  {
    var last := |blocks| - 1;
    if w < last {
      CountUnspentUpdate(blocks[..last], w, b, p);
      assert blocks[w := b][..last] == blocks[..last][w := b];
    } else {
      assert blocks[w := b][..last] == blocks[..last];
    }
  }

  lemma CountFirst(b: Block, p: nat -> bool)
    requires b.remaining > 0
    ensures CountBlock(b, p) == Indicator(p(b.ticket)) + CountBlock(Block(b.ticket + 1, b.remaining - 1), p)
  {
    CountSplit(b.ticket, b.ticket + 1, b.ticket + b.remaining, p);
    assert CountRange(b.ticket, b.ticket + 1, p) == CountRange(b.ticket, b.ticket, p) + Indicator(p(b.ticket));
  }

  lemma {:induction false} StartCounts(workers: nat, p: nat -> bool)
    ensures CountUnspent(Start(workers).blocks, p) == 0
  {
    if workers > 0 {
      StartCounts(workers - 1, p);
      assert Start(workers).blocks[..workers - 1] == Start(workers - 1).blocks;
    }
  }

  ghost predicate Conserved(s: Selection, p: nat -> bool) {
    CountUsed(s.used, p) + CountUnspent(s.blocks, p) == CountRange(0, s.next, p)
  }

  lemma SelectConserves(s: Selection, w: nat, size: nat, p: nat -> bool)
    requires w < |s.blocks| && size > 0 && Conserved(s, p)
    ensures Conserved(Select(s, w, size), p)
  {
    var held, taken := s.blocks[w], Opened(s.next, s.blocks[w], size);
    var rest := Block(taken.ticket + 1, taken.remaining - 1);
    var next := NextAfter(s.next, held, size);
    CountUnspentUpdate(s.blocks, w, rest, p);
    CountFirst(taken, p);
    UsedSnoc(s.used, taken.ticket, p);
    OpeningCounts(s.next, held, size, p);
    assert Select(s, w, size) == Selection(next, s.blocks[w := rest], s.used + [taken.ticket]);
  }

  lemma OpeningCounts(next: nat, held: Block, size: nat, p: nat -> bool)
    requires size > 0
    ensures CountBlock(held, p) + CountRange(0, NextAfter(next, held, size), p)
            == CountBlock(Opened(next, held, size), p) + CountRange(0, next, p)
  {
    if held.remaining == 0 {
      assert CountBlock(held, p) == 0;
      CountSplit(0, next, next + size, p);
    }
  }

  lemma UsedSnoc(used: seq<nat>, ticket: nat, p: nat -> bool)
    ensures CountUsed(used + [ticket], p) == CountUsed(used, p) + Indicator(p(ticket))
  {
    assert (used + [ticket])[..|used|] == used;
  }

  /** For any property of tickets: the used ones and the unspent ones together are those below the shared counter. */
  lemma {:induction false} TicketsConserved(sizes: seq<nat>, schedule: seq<nat>, p: nat -> bool)
    requires forall w :: 0 <= w < |sizes| ==> sizes[w] > 0
    requires forall i :: 0 <= i < |schedule| ==> schedule[i] < |sizes|
    ensures Conserved(Run(sizes, schedule), p)
  {
    if schedule == [] {
      StartCounts(|sizes|, p);
    } else {
      var w, before := schedule[|schedule| - 1], schedule[..|schedule| - 1];
      TicketsConserved(sizes, before, p);
      SelectConserves(Run(sizes, before), w, sizes[w], p);
    }
  }

  lemma {:induction false} CountPoint(low: nat, high: nat, t: nat)
    requires low <= high
    ensures CountRange(low, high, (x: nat) => x == t) == Indicator(low <= t < high)
  {
    if low < high {
      CountPoint(low, high - 1, t);
    }
  }

  /** No ticket below the counter is lost or used twice: it was used once, or it lies in exactly one unspent block. */
  lemma TicketsPartition(sizes: seq<nat>, schedule: seq<nat>, t: nat)
    requires forall w :: 0 <= w < |sizes| ==> sizes[w] > 0
    requires forall i :: 0 <= i < |schedule| ==> schedule[i] < |sizes|
    ensures var s, isT := Run(sizes, schedule), (x: nat) => x == t;
            CountUsed(s.used, isT) + CountUnspent(s.blocks, isT) == Indicator(t < s.next)
  {
    var isT := (x: nat) => x == t;
    TicketsConserved(sizes, schedule, isT);
    CountPoint(0, Run(sizes, schedule).next, t);
  }

  function PartlyUsed(blocks: seq<Block>): nat {
    if blocks == [] then 0 else PartlyUsed(blocks[..|blocks| - 1]) + Indicator(blocks[|blocks| - 1].remaining > 0)
  }

  lemma {:induction false} UnspentBalance(blocks: seq<Block>, items: nat, a: nat, b: nat)
    requires a < items && b < items
    ensures var d := CountUnspent(blocks, ResidueIs(items, a)) - CountUnspent(blocks, ResidueIs(items, b));
            0 <= d + PartlyUsed(blocks) && d <= PartlyUsed(blocks)
  {
    if blocks != [] {
      var last := blocks[|blocks| - 1];
      UnspentBalance(blocks[..|blocks| - 1], items, a, b);
      ResidueBalance(last.ticket, last.ticket + last.remaining, items, a, b);
    }
  }

  /** Under every interleaving any two templates are selected equally often,
      give or take one plus one for each worker that holds a partly used block. */
  lemma Fairness(sizes: seq<nat>, schedule: seq<nat>, items: nat, a: nat, b: nat)
    requires forall w :: 0 <= w < |sizes| ==> sizes[w] > 0
    requires forall i :: 0 <= i < |schedule| ==> schedule[i] < |sizes|
    requires a < items && b < items
    ensures var s := Run(sizes, schedule);
            var d := CountUsed(s.used, ResidueIs(items, a)) - CountUsed(s.used, ResidueIs(items, b));
            0 <= d + 1 + PartlyUsed(s.blocks) && d <= 1 + PartlyUsed(s.blocks)
  {
    var s := Run(sizes, schedule);
    TicketsConserved(sizes, schedule, ResidueIs(items, a));
    TicketsConserved(sizes, schedule, ResidueIs(items, b));
    UnspentBalance(s.blocks, items, a, b);
    ResidueBalance(0, s.next, items, a, b);
  }

  /** With reservations of one ticket the interleaving is invisible: the i-th selection uses ticket i. */
  lemma {:induction false} SingleReservationsAreGlobalOrder(sizes: seq<nat>, schedule: seq<nat>)
    requires forall w :: 0 <= w < |sizes| ==> sizes[w] == 1
    requires forall i :: 0 <= i < |schedule| ==> schedule[i] < |sizes|
    ensures var s := Run(sizes, schedule);
            && s.next == |schedule| && |s.used| == |schedule|
            && (forall w :: 0 <= w < |s.blocks| ==> s.blocks[w].remaining == 0)
            && (forall i :: 0 <= i < |s.used| ==> s.used[i] == i)
  {
    if schedule != [] {
      SingleReservationsAreGlobalOrder(sizes, schedule[..|schedule| - 1]);
    }
  }

  /** Beyond 2^64 the counter restarts at 0, and the modulo sequence breaks unless the template count divides 2^64. */
  lemma WrapKeepsOrder(items: nat, ticket: nat)
    requires items > 0 && WORD <= ticket < 2 * WORD
    ensures (ticket % WORD) % items == ticket % items <==> WORD % items == 0
  {
    var r := ticket - WORD;
    DivModUnique(ticket, WORD, 1, r);
    AdvanceModulo(WORD, r, items);
  }
}
