/** Batches of framed events, as the stream and FILE loop builds them. */
module Streaming {
  import opened Text
  import opened Framing

  const STREAM_BATCH_LIMIT := 1_048_576

  /** n payloads from number `first` on. */
  function Window(source: nat -> string, first: nat, n: nat): (payloads: seq<string>)
    ensures |payloads| == n
  {
    seq(n, i requires 0 <= i < n => source(first + i))
  }

  lemma WindowSnoc(source: nat -> string, first: nat, n: nat)
    ensures Window(source, first, n + 1) == Window(source, first, n) + [source(first + n)]
  {
  }

  lemma WindowFrames(source: nat -> string, first: nat, n: nat, framing: StreamFraming)
    ensures Frames(Window(source, first, n + 1), framing) == Frames(Window(source, first, n), framing) + Frame(source(first + n), framing)
  {
    WindowSnoc(source, first, n);
    FramesSnoc(Window(source, first, n), source(first + n), framing);
  }

  /** As many events as the two limits allow: only the last frame reaches beyond the limit of bytes. */
  ghost predicate FullCount(source: nat -> string, first: nat, eventLimit: nat, byteLimit: nat, framing: StreamFraming, events: int) {
    && 1 <= events <= eventLimit
    && (events == eventLimit || |Frames(Window(source, first, events), framing)| >= byteLimit)
    && |Frames(Window(source, first, events - 1), framing)| < byteLimit
  }

  /** Frames a batch of rendered payloads, starting with payload number `first`. Only the last frame can exceed the limit. */
  method BuildStreamBatch(source: nat -> string, first: nat, eventLimit: nat, byteLimit: nat, framing: StreamFraming)
    returns (batch: string, events: nat)
    requires eventLimit > 0 && byteLimit > 0
    ensures FullCount(source, first, eventLimit, byteLimit, framing, events)
    ensures batch == Frames(Window(source, first, events), framing)
  {
    var buffer := new Batch();
    events := 0;
    while events < eventLimit && |buffer.bytes| < byteLimit
      invariant 0 <= events <= eventLimit
      invariant buffer.bytes == Frames(Window(source, first, events), framing)
      invariant events == 0 ==> buffer.bytes == ""
      invariant events > 0 ==> |Frames(Window(source, first, events - 1), framing)| < byteLimit
      decreases eventLimit - events
    {
      WindowFrames(source, first, events, framing);
      buffer.AppendFrame(source(first + events), framing);
      events := events + 1;
    }
    batch := buffer.bytes;
  }

  lemma PrefixWindow(source: nat -> string, n: nat, more: nat)
    ensures Prefix(source, n + more) == Prefix(source, n) + Window(source, n, more)
  {
  }
}

/** The worker loops other than packed UDP: stream connections, and datagrams of one event each. */
module StreamWorkers {
  import opened Text
  import opened Framing
  import opened Options
  import opened Limits
  import opened Pacing
  import opened Counters
  import opened Packer
  import opened Transports
  import opened Streaming

  /** A stream connection: any answer is possible; when a batch is not delivered, a part of its bytes may have gone out. */
  class StreamTransport {
    ghost var sent: string
    ghost var log: seq<Answer<char>>

    constructor ()
      ensures sent == "" && log == []
    {
      sent, log := "", [];
    }

    method Send(batch: string) returns (delivery: Delivery, ghost gone: nat)
      modifies this
      ensures gone <= |batch| && sent == old(sent) + batch[..gone]
      ensures delivery == Delivered ==> gone == |batch|
      ensures log == old(log) + [Answer(batch, delivery)]
    {
      delivery :| true;
      if delivery == Delivered {
        gone := |batch|;
      } else {
        gone :| gone <= |batch|;
      }
      sent := sent + batch[..gone];
      log := log + [Answer(batch, delivery)];
    }
  }

  /** The framed stream of the first n events. */
  function Stream(source: nat -> string, n: nat, framing: StreamFraming): string { Frames(Prefix(source, n), framing) }

  predicate IsPrefix(a: string, b: string) { |a| <= |b| && b[..|a|] == a }

  lemma StreamGrows(source: nat -> string, n: nat, more: nat, framing: StreamFraming)
    ensures Stream(source, n + more, framing) == Stream(source, n, framing) + Frames(Window(source, n, more), framing)
  {
    PrefixWindow(source, n, more);
    FramesAppend(Prefix(source, n), Window(source, n, more), framing);
  }

  lemma PartIsPrefix(done: string, batch: string, gone: nat, sent: string, all: string)
    requires gone <= |batch| && sent == done + batch[..gone] && all == done + batch
    ensures IsPrefix(done, sent) && IsPrefix(sent, all)
  {
  }

  lemma WholeIsAll(done: string, batch: string, gone: nat, sent: string, all: string)
    requires gone == |batch| && sent == done + batch[..gone] && all == done + batch
    ensures sent == all
  {
  }

  /** What a receiver makes of the acknowledged bytes: the payloads, one by one, escaped if the frames are lines. */
  lemma ReceiverDecodes(source: nat -> string, n: nat)
    ensures (forall i :: 0 <= i < n ==> Prefix(source, n)[i] != "")
            <==> DecodeOctets(Stream(source, n, OctetCounting)) == Some(Prefix(source, n))
    ensures Lines(Stream(source, n, Newline)) == FrameList(Prefix(source, n), Newline)
  {
    OctetRoundTrip(Prefix(source, n));
    NewlineSplit(Prefix(source, n));
  }

  /** One worker of a TCP or TLS run. `rendered` counts what was rendered, `acked` what the transport has acknowledged. */
  class StreamWorker {
    const source: nat -> string
    const framing: StreamFraming
    const pacer: RatePacer
    const clock: Clock
    const stop: StopToken
    const transport: StreamTransport
    const counters: WorkerCounters
    var rendered: nat
    ghost var acked: nat

    constructor (source: nat -> string, framing: StreamFraming, pacer: RatePacer, clock: Clock, stop: StopToken,
                 transport: StreamTransport, counters: WorkerCounters)
      requires pacer.Valid() && pacer.waits == []
      requires counters.AllPublished(0, 0, 0) && transport.sent == "" && transport.log == []
      ensures AtHead()
      ensures this.source == source && this.framing == framing && this.pacer == pacer && this.clock == clock
      ensures this.stop == stop && this.transport == transport && this.counters == counters
    {
      this.source, this.framing, this.pacer, this.clock := source, framing, pacer, clock;
      this.stop, this.transport, this.counters := stop, transport, counters;
      rendered, acked := 0, 0;
    }

    /** The connection carries exactly the frames of the acknowledged events; they were paced and counted. */
    ghost predicate Books(inHand: nat)
      reads this`acked, pacer, transport, counters
    {
      && pacer.Valid() && BatchSized(pacer.waits)
      && (pacer.rate > 0 ==> Events(pacer.waits) == acked + inHand)
      && transport.sent == Stream(source, acked, framing)
      && AllDelivered(transport.log) && Accepted(transport.log) == Stream(source, acked, framing)
      && counters.Counts(acked, 0, |Stream(source, acked, framing)|)
    }

    ghost predicate AtHead()
      reads this, pacer, transport, counters
    {
      Books(0) && rendered == acked && counters.localMessages < PublishThreshold(pacer.rate)
    }

    /** After the loop: the connection carries a prefix of the framed stream that contains every acknowledged event. */
    ghost predicate Finished()
      reads this, pacer, transport, counters
    {
      && acked <= rendered
      && Accepted(transport.log) == Stream(source, acked, framing)
      && IsPrefix(Stream(source, acked, framing), transport.sent)
      && IsPrefix(transport.sent, Stream(source, rendered, framing))
      && counters.AllPublished(acked, 0, |Stream(source, acked, framing)|)
      && (pacer.rate > 0 ==> acked <= Events(pacer.waits))
    }

    method Leave(ghost inHand: nat)
      requires pacer.rate > 0 ==> Events(pacer.waits) == acked + inHand
      requires acked <= rendered && counters.Counts(acked, 0, |Stream(source, acked, framing)|)
      requires Accepted(transport.log) == Stream(source, acked, framing)
      requires IsPrefix(Stream(source, acked, framing), transport.sent)
      requires IsPrefix(transport.sent, Stream(source, rendered, framing))
      modifies counters
      ensures Finished()
    {
      counters.Flush(acked, 0, |Stream(source, acked, framing)|);
    }

    /** Leaves from the head of the loop. */
    method LeaveEarly()
      requires AtHead()
      modifies counters
      ensures Finished()
    {
      PartIsPrefix(transport.sent, "", 0, transport.sent, transport.sent);
      Leave(0);
    }

    method Pace(events: nat)
      requires Books(0) && 1 <= events <= 1024
      modifies pacer, clock, stop
      ensures Books(events)
    {
      ghost var waits := pacer.waits;
      pacer.Wait(events, clock, stop);
      if pacer.rate > 0 {
        WaitsSnoc(waits, pacer.waits, events);
      }
    }

    method Turn() returns (ending: Ending)
      requires AtHead()
      modifies this, pacer, clock, stop, transport, counters
      ensures if ending.StillRunning? then AtHead() && acked > old(acked) else Finished()
      ensures ending.Stopped? ==> stop.requested
      ensures !ending.EventTooLarge?
      ensures old(stop.requested) ==> ending.Stopped?
      ensures Explains(ending, transport.log)
      ensures transport.log != old(transport.log) ==> !stop.requested
      ensures !ending.Stopped? ==> |transport.log| == |old(transport.log)| + 1
      ensures ending.Stopped? ==> transport.log == old(transport.log)
      ensures !ending.Stopped? ==>
                FullCount(source, old(rendered), StreamBatchEvents(pacer.rate), STREAM_BATCH_LIMIT, framing, rendered - old(rendered))
    {
      var stopped := stop.Requested();
      if stopped {
        LeaveEarly();
        return Stopped;
      }
      ending := Proceed();
    }

    /** A turn that was not stopped at the head of the loop: the largest batch is handed over. */
    method Proceed() returns (ending: Ending)
      requires AtHead()
      modifies this, pacer, clock, stop, transport, counters
      ensures if ending.StillRunning? then AtHead() && acked > old(acked) else Finished()
      ensures ending.Stopped? ==> stop.requested
      ensures !ending.EventTooLarge?
      ensures Explains(ending, transport.log)
      ensures transport.log != old(transport.log) ==> !stop.requested
      ensures !ending.Stopped? ==> |transport.log| == |old(transport.log)| + 1
      ensures ending.Stopped? ==> transport.log == old(transport.log)
      ensures !ending.Stopped? ==>
                FullCount(source, old(rendered), StreamBatchEvents(pacer.rate), STREAM_BATCH_LIMIT, framing, rendered - old(rendered))
    {
      var batch, events := BuildStreamBatch(source, rendered, StreamBatchEvents(pacer.rate), STREAM_BATCH_LIMIT, framing);
      rendered := rendered + events;
      ending := SendBatch(batch, events);
    }

    method SendBatch(batch: string, events: nat) returns (ending: Ending)
      requires Books(0) && rendered == acked + events && 1 <= events <= 1024
      requires batch == Frames(Window(source, acked, events), framing)
      modifies this`acked, pacer, clock, stop, transport, counters
      ensures if ending.StillRunning? then AtHead() && acked > old(acked) else Finished()
      ensures ending.Stopped? ==> stop.requested
      ensures !ending.EventTooLarge?
      ensures Explains(ending, transport.log)
      ensures transport.log != old(transport.log) ==> !stop.requested
      ensures !ending.Stopped? ==> |transport.log| == |old(transport.log)| + 1
      ensures ending.Stopped? ==> transport.log == old(transport.log)
      ensures !ending.Stopped? ==> Handed(transport.log, batch)
    {
      StreamGrows(source, acked, events, framing);
      Pace(events);
      var stopped := stop.Requested();
      if stopped {
        PartIsPrefix(transport.sent, batch, 0, transport.sent, Stream(source, rendered, framing));
        Leave(events);
        return Stopped;
      }
      ending := Deliver(batch, events);
    }

    method Deliver(batch: string, events: nat) returns (ending: Ending)
      requires Books(events) && rendered == acked + events && 1 <= events <= 1024
      requires batch == Frames(Window(source, acked, events), framing)
      modifies this`acked, transport, counters
      ensures if ending.StillRunning? then AtHead() && acked > old(acked) else Finished()
      ensures !ending.EventTooLarge? && !ending.Stopped?
      ensures Explains(ending, transport.log) && |transport.log| == |old(transport.log)| + 1 && Handed(transport.log, batch)
    {
      StreamGrows(source, acked, events, framing);
      var delivery;
      ghost var gone;
      ghost var before, log := transport.sent, transport.log;
      delivery, gone := transport.Send(batch);
      AnswerAdded(log, batch, delivery);
      if delivery == Delivered {
        WholeIsAll(before, batch, gone, transport.sent, Stream(source, rendered, framing));
        Acknowledge(batch, events);
        return StillRunning;
      }
      PartIsPrefix(before, batch, gone, transport.sent, Stream(source, rendered, framing));
      Leave(events);
      ending := if delivery == LimitHit then AtLimit else TransportFailed;
    }

    method Acknowledge(batch: string, events: nat)
      requires pacer.Valid() && BatchSized(pacer.waits) && (pacer.rate > 0 ==> Events(pacer.waits) == acked + events)
      requires rendered == acked + events && |Stream(source, rendered, framing)| == |Stream(source, acked, framing)| + |batch|
      requires transport.sent == Stream(source, rendered, framing)
      requires AllDelivered(transport.log) && Accepted(transport.log) == Stream(source, rendered, framing)
      requires counters.Counts(acked, 0, |Stream(source, acked, framing)|)
      modifies this`acked, counters
      ensures AtHead() && acked == rendered
    {
      counters.Record(events, 0, |batch|, PublishThreshold(pacer.rate), acked, 0, |Stream(source, acked, framing)|);
      acked := acked + events;
    }

    /** Any number of turns. */
    method Run(rounds: nat) returns (ending: Ending)
      requires AtHead()
      modifies this, pacer, clock, stop, transport, counters
      ensures if ending.StillRunning? then AtHead() && acked >= old(acked) + rounds else Finished()
      ensures ending.Stopped? ==> stop.requested
      ensures Explains(ending, transport.log)
      ensures ending.StillRunning? ==> |transport.log| == |old(transport.log)| + rounds
      ensures transport.log != old(transport.log) && !ending.Stopped? ==> !stop.requested
    {
      ending := StillRunning;
      for round := 0 to rounds
        invariant AtHead() && ending.StillRunning? && acked >= old(acked) + round
        invariant |transport.log| == |old(transport.log)| + round
        invariant if round == 0 then transport.log == old(transport.log) else !stop.requested
      {
        ending := Turn();
        if !ending.StillRunning? {
          return;
        }
      }
      NothingRefused(StillRunning, transport.log);
    }
  }

  // ----- plain UDP -----

  /** Bytes of the first n events. */
  function Bytes(source: nat -> string, n: nat): nat { |Concat(Prefix(source, n))| }

  lemma BytesGrow(source: nat -> string, n: nat, more: nat)
    ensures Bytes(source, n + more) == Bytes(source, n) + |Concat(Window(source, n, more))|
  {
    PrefixWindow(source, n, more);
    ByteCountAppend(Prefix(source, n), Window(source, n, more));
  }

  ghost predicate IsStart(a: seq<string>, b: seq<string>) { |a| <= |b| && b[..|a|] == a }

  lemma PartIsStart(done: seq<string>, batch: seq<string>, gone: nat, sent: seq<string>, all: seq<string>)
    requires gone <= |batch| && sent == done + batch[..gone] && all == done + batch
    ensures IsStart(done, sent) && IsStart(sent, all)
  {
  }

  /** Renders a batch of payloads; each is a datagram of its own. */
  method BuildPlainBatch(source: nat -> string, first: nat, limit: nat) returns (payloads: seq<string>, bytes: nat)
    ensures payloads == Window(source, first, limit) && bytes == |Concat(payloads)|
  {
    payloads, bytes := [], 0;
    for events := 0 to limit
      invariant payloads == Window(source, first, events) && bytes == |Concat(payloads)|
    {
      var payload := source(first + events);
      WindowSnoc(source, first, events);
      ConcatSnoc(payloads, payload);
      payloads := payloads + [payload];
      bytes := bytes + |payload|;
    }
  }

  /** One worker of a UDP run with one event per datagram. */
  class PlainWorker {
    const source: nat -> string
    const batchLimit: nat
    const pacer: RatePacer
    const clock: Clock
    const stop: StopToken
    const transport: DatagramTransport
    const counters: WorkerCounters
    var rendered: nat
    ghost var acked: nat

    constructor (source: nat -> string, preferred: nat, pacer: RatePacer, clock: Clock, stop: StopToken,
                 transport: DatagramTransport, counters: WorkerCounters)
      requires pacer.Valid() && pacer.waits == []
      requires counters.AllPublished(0, 0, 0) && transport.sent == [] && transport.log == []
      ensures AtHead() && batchLimit == DatagramBatchEvents(pacer.rate, preferred)
      ensures this.source == source && this.pacer == pacer && this.clock == clock
      ensures this.stop == stop && this.transport == transport && this.counters == counters
    {
      this.source, this.batchLimit, this.pacer, this.clock := source, DatagramBatchEvents(pacer.rate, preferred), pacer, clock;
      this.stop, this.transport, this.counters := stop, transport, counters;
      rendered, acked := 0, 0;
    }

    /** The acknowledged events went out one to a datagram, in order; they were paced and counted. */
    ghost predicate Books(inHand: nat)
      reads this`acked, pacer, transport, counters
    {
      && pacer.Valid() && BatchSized(pacer.waits) && 1 <= batchLimit <= 256
      && (pacer.rate > 0 ==> Events(pacer.waits) == acked + inHand)
      && transport.sent == Prefix(source, acked)
      && AllDelivered(transport.log) && Accepted(transport.log) == Prefix(source, acked)
      && counters.Counts(acked, acked, Bytes(source, acked))
    }

    ghost predicate AtHead()
      reads this, pacer, transport, counters
    {
      Books(0) && rendered == acked && counters.localMessages < PublishThreshold(pacer.rate)
    }

    /** After the loop: the datagrams sent are the first rendered events, in order, among them all acknowledged ones. */
    ghost predicate Finished()
      reads this, pacer, transport, counters
    {
      && acked <= rendered
      && Accepted(transport.log) == Prefix(source, acked)
      && IsStart(Prefix(source, acked), transport.sent) && IsStart(transport.sent, Prefix(source, rendered))
      && counters.AllPublished(acked, acked, Bytes(source, acked))
      && (pacer.rate > 0 ==> acked <= Events(pacer.waits))
    }

    method Leave(ghost inHand: nat)
      requires pacer.rate > 0 ==> Events(pacer.waits) == acked + inHand
      requires acked <= rendered && counters.Counts(acked, acked, Bytes(source, acked))
      requires Accepted(transport.log) == Prefix(source, acked)
      requires IsStart(Prefix(source, acked), transport.sent) && IsStart(transport.sent, Prefix(source, rendered))
      modifies counters
      ensures Finished()
    {
      counters.Flush(acked, acked, Bytes(source, acked));
    }

    /** Leaves with nothing sent beyond what is acknowledged. */
    method LeaveEarly(ghost inHand: nat)
      requires Books(inHand) && acked <= rendered
      modifies counters
      ensures Finished()
    {
      PrefixWindow(source, acked, rendered - acked);
      PartIsStart(transport.sent, Window(source, acked, rendered - acked), 0, transport.sent, Prefix(source, rendered));
      Leave(inHand);
    }

    method Pace(events: nat)
      requires Books(0) && 1 <= events <= 256
      modifies pacer, clock, stop
      ensures Books(events)
    {
      ghost var waits := pacer.waits;
      pacer.Wait(events, clock, stop);
      if pacer.rate > 0 {
        WaitsSnoc(waits, pacer.waits, events);
      }
    }

    /** One turn: a single event is paced before it is rendered, a batch after. */
    method Turn() returns (ending: Ending)
      requires AtHead()
      modifies this, pacer, clock, stop, transport, counters
      ensures if ending.StillRunning? then AtHead() && acked > old(acked) else Finished()
      ensures ending.Stopped? ==> stop.requested
      ensures !ending.EventTooLarge?
      ensures old(stop.requested) ==> ending.Stopped?
      ensures Explains(ending, transport.log)
      ensures transport.log != old(transport.log) ==> !stop.requested
      ensures !ending.Stopped? ==> |transport.log| == |old(transport.log)| + 1
      ensures ending.Stopped? ==> transport.log == old(transport.log)
      ensures !ending.Stopped? ==> Handed(transport.log, Window(source, old(rendered), batchLimit))
    {
      var stopped := stop.Requested();
      if stopped {
        LeaveEarly(0);
        return Stopped;
      }
      if batchLimit == 1 {
        ending := SingleTurn();
      } else {
        ending := BatchTurn();
      }
    }

    method SingleTurn() returns (ending: Ending)
      requires AtHead() && batchLimit == 1
      modifies this, pacer, clock, stop, transport, counters
      ensures if ending.StillRunning? then AtHead() && acked > old(acked) else Finished()
      ensures ending.Stopped? ==> stop.requested
      ensures !ending.EventTooLarge?
      ensures Explains(ending, transport.log)
      ensures transport.log != old(transport.log) ==> !stop.requested
      ensures !ending.Stopped? ==> |transport.log| == |old(transport.log)| + 1
      ensures ending.Stopped? ==> transport.log == old(transport.log)
      ensures !ending.Stopped? ==> Handed(transport.log, Window(source, old(rendered), 1))
    {
      Pace(1);
      var stopped := stop.Requested();
      if stopped {
        LeaveEarly(1);
        return Stopped;
      }
      var payload := source(rendered);
      ConcatOne(payload);
      var payloads := [payload];
      assert payloads == Window(source, rendered, 1);
      rendered := rendered + 1;
      ending := Deliver(payloads, |payload|);
    }

    method BatchTurn() returns (ending: Ending)
      requires AtHead()
      modifies this, pacer, clock, stop, transport, counters
      ensures if ending.StillRunning? then AtHead() && acked > old(acked) else Finished()
      ensures ending.Stopped? ==> stop.requested
      ensures !ending.EventTooLarge?
      ensures Explains(ending, transport.log)
      ensures transport.log != old(transport.log) ==> !stop.requested
      ensures !ending.Stopped? ==> |transport.log| == |old(transport.log)| + 1
      ensures ending.Stopped? ==> transport.log == old(transport.log)
      ensures !ending.Stopped? ==> Handed(transport.log, Window(source, old(rendered), batchLimit))
    {
      var payloads, bytes := BuildPlainBatch(source, rendered, batchLimit);
      rendered := rendered + batchLimit;
      Pace(batchLimit);
      var stopped := stop.Requested();
      if stopped {
        LeaveEarly(batchLimit);
        return Stopped;
      }
      ending := Deliver(payloads, bytes);
    }

    method Deliver(payloads: seq<string>, bytes: nat) returns (ending: Ending)
      requires Books(|payloads|) && rendered == acked + |payloads|
      requires payloads == Window(source, acked, |payloads|) && bytes == |Concat(payloads)|
      modifies this`acked, transport, counters
      ensures if ending.StillRunning? then AtHead() && acked == old(acked) + |payloads| else Finished()
      ensures !ending.EventTooLarge? && !ending.Stopped?
      ensures Explains(ending, transport.log) && |transport.log| == |old(transport.log)| + 1 && Handed(transport.log, payloads)
    {
      PrefixWindow(source, acked, |payloads|);
      var delivery;
      ghost var gone;
      ghost var before, log := transport.sent, transport.log;
      delivery, gone := transport.SendBatch(payloads);
      AnswerAdded(log, payloads, delivery);
      if delivery == Delivered {
        Acknowledge(payloads, bytes, gone);
        return StillRunning;
      }
      PartIsStart(before, payloads, gone, transport.sent, Prefix(source, rendered));
      Leave(|payloads|);
      ending := if delivery == LimitHit then AtLimit else TransportFailed;
    }

    method Acknowledge(payloads: seq<string>, bytes: nat, ghost gone: nat)
      requires pacer.Valid() && BatchSized(pacer.waits) && (pacer.rate > 0 ==> Events(pacer.waits) == acked + |payloads|)
      requires 1 <= batchLimit <= 256 && gone == |payloads| && rendered == acked + |payloads|
      requires payloads == Window(source, acked, |payloads|) && bytes == |Concat(payloads)|
      requires transport.sent == Prefix(source, acked) + payloads[..gone]
      requires AllDelivered(transport.log) && Accepted(transport.log) == Prefix(source, acked) + payloads
      requires counters.Counts(acked, acked, Bytes(source, acked))
      modifies this`acked, counters
      ensures AtHead() && acked == rendered
    {
      assert payloads[..gone] == payloads;
      PrefixWindow(source, acked, |payloads|);
      BytesGrow(source, acked, |payloads|);
      counters.Record(|payloads|, |payloads|, bytes, PublishThreshold(pacer.rate), acked, acked, Bytes(source, acked));
      acked := acked + |payloads|;
    }

    /** Any number of turns. */
    method Run(rounds: nat) returns (ending: Ending)
      requires AtHead()
      modifies this, pacer, clock, stop, transport, counters
      ensures if ending.StillRunning? then AtHead() && acked >= old(acked) + rounds else Finished()
      ensures ending.Stopped? ==> stop.requested
      ensures Explains(ending, transport.log)
      ensures ending.StillRunning? ==> |transport.log| == |old(transport.log)| + rounds
      ensures transport.log != old(transport.log) && !ending.Stopped? ==> !stop.requested
    {
      ending := StillRunning;
      for round := 0 to rounds
        invariant AtHead() && ending.StillRunning? && acked >= old(acked) + round
        invariant |transport.log| == |old(transport.log)| + round
        invariant if round == 0 then transport.log == old(transport.log) else !stop.requested
      {
        ending := Turn();
        if !ending.StillRunning? {
          return;
        }
      }
      NothingRefused(StillRunning, transport.log);
    }
  }

  lemma ConcatOne(payload: string)
    ensures Concat([payload]) == payload
  {
    ConcatSnoc([], payload);
    assert [] + [payload] == [payload];
  }
}
