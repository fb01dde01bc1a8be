/** The FILE loop of a worker: framing, pacing, the file transport and the counters together. */
module FileWorkers {
  import opened Text
  import opened Framing
  import opened Limits
  import opened Pacing
  import opened Counters
  import opened Streaming
  import opened FileOutput
  import Packer
  import StreamWorkers

  const FILE_BATCH_LIMIT := 65_536

  datatype Ending = StillRunning | Stopped | LimitReached(result: SendResult)

  lemma FramesOfPrefix(source: nat -> string, n: nat, more: nat)
    ensures FrameList(Prefix(source, n), Newline) + FrameList(Window(source, n, more), Newline)
            == FrameList(Prefix(source, n + more), Newline)
  {
  }

  function Stream(source: nat -> string, n: nat): string { StreamWorkers.Stream(source, n, Newline) }

  lemma StreamLength(source: nat -> string, n: nat, more: nat)
    ensures |Stream(source, n + more)| == |Stream(source, n)| + |Frames(Window(source, n, more), Newline)|
  {
    StreamWorkers.StreamGrows(source, n, more, Newline);
  }

  /** The worker of a FILE run. `acked` counts the events that are files by now. */
  class FileWorker {
    const source: nat -> string
    const eventLimit: nat
    const pacer: RatePacer
    const clock: Clock
    const stop: StopToken
    const transport: FileTransport
    const counters: WorkerCounters
    var rendered: nat
    ghost var acked: nat
    ghost var unsent: nat

    constructor (source: nat -> string, pacer: RatePacer, clock: Clock, stop: StopToken, transport: FileTransport, counters: WorkerCounters)
      requires pacer.Valid() && pacer.waits == []
      requires counters.AllPublished(0, 0, 0) && transport.Valid() && transport.WithinLimits() && transport.contents == []
      ensures AtHead() && acked == 0
      ensures eventLimit == FileBatchEvents(pacer.rate, transport.limits.bytes, transport.limits.count, transport.limits.duration)
      ensures this.source == source && this.pacer == pacer && this.clock == clock && this.stop == stop
      ensures this.transport == transport && this.counters == counters
    {
      this.source, this.pacer, this.clock, this.stop := source, pacer, clock, stop;
      this.transport, this.counters := transport, counters;
      eventLimit := FileBatchEvents(pacer.rate, transport.limits.bytes, transport.limits.count, transport.limits.duration);
      rendered, acked, unsent := 0, 0, 0;
    }

    /** One file per acknowledged event, in event order; the events were paced and counted. */
    ghost predicate Books(inHand: nat)
      reads this`acked, pacer, transport, transport.directory, counters
    {
      && pacer.Valid() && BatchSized(pacer.waits)
      && (pacer.rate > 0 ==> Events(pacer.waits) == acked + inHand)
      && transport.Valid() && transport.WithinLimits()
      && transport.contents == FrameList(Prefix(source, acked), Newline)
      && counters.AllPublished(acked, 0, |Stream(source, acked)|)
      && 1 <= eventLimit <= 256 && (transport.limits.count > 0 ==> eventLimit == 1)
    }

    ghost predicate AtHead()
      reads this, pacer, transport, transport.directory, counters
    {
      Books(0) && rendered == acked
    }

    /** After the loop: the last batch may have been rendered and paced without becoming files. */
    ghost predicate Finished()
      reads this, pacer, transport, transport.directory, counters
    {
      Books(unsent) && rendered == acked + unsent
    }

    method Leave(ghost events: nat)
      requires Books(events) && rendered == acked + events
      modifies this`unsent
      ensures Finished()
    {
      unsent := events;
    }

    method Pace(events: nat)
      requires Books(0) && 1 <= events <= 256
      modifies pacer, clock, stop
      ensures Books(events)
    {
      ghost var waits := pacer.waits;
      pacer.Wait(events, clock, stop);
      if pacer.rate > 0 {
        Packer.WaitsSnoc(waits, pacer.waits, events);
      }
    }

    /** One turn of the loop; `elapsed` is the time since connect that the transport reads. */
    method Turn(elapsed: nat) returns (ending: Ending)
      requires AtHead()
      modifies this, pacer, clock, stop, transport, transport.directory, counters
      ensures if ending.StillRunning? then AtHead() && acked > old(acked) else Finished() && acked == old(acked)
      ensures ending.Stopped? ==> stop.requested
      ensures ending.LimitReached? ==> ending.result != Sent && ending.result == transport.answered
      ensures ending.StillRunning? ==> transport.answered == Sent
      ensures old(stop.requested) ==> ending.Stopped?
      ensures !ending.Stopped? ==> !stop.requested
      ensures ending == LimitReached(FileCountLimitReached) ==> transport.limits.count > 0 && acked == transport.limits.count
      ensures !ending.Stopped? ==>
                FullCount(source, old(rendered), eventLimit, FILE_BATCH_LIMIT, Newline, rendered - old(rendered))
    {
      var stopped := stop.Requested();
      if stopped {
        Leave(0);
        return Stopped;
      }
      ending := Proceed(elapsed);
    }

    /** A turn that was not stopped at the head of the loop: the largest batch goes out. */
    method Proceed(elapsed: nat) returns (ending: Ending)
      requires AtHead()
      modifies this, pacer, clock, stop, transport, transport.directory, counters
      ensures if ending.StillRunning? then AtHead() && acked > old(acked) else Finished() && acked == old(acked)
      ensures ending.Stopped? ==> stop.requested
      ensures ending.LimitReached? ==> ending.result != Sent && ending.result == transport.answered
      ensures ending.StillRunning? ==> transport.answered == Sent
      ensures !ending.Stopped? ==> !stop.requested
      ensures ending == LimitReached(FileCountLimitReached) ==> transport.limits.count > 0 && acked == transport.limits.count
      ensures !ending.Stopped? ==>
                FullCount(source, old(rendered), eventLimit, FILE_BATCH_LIMIT, Newline, rendered - old(rendered))
    {
      var batch, events := BuildStreamBatch(source, rendered, eventLimit, FILE_BATCH_LIMIT, Newline);
      rendered := rendered + events;
      ending := SendBatch(batch, events, elapsed);
    }

    method SendBatch(batch: string, events: nat, elapsed: nat) returns (ending: Ending)
      requires Books(0) && rendered == acked + events && 1 <= events <= eventLimit
      requires batch == Frames(Window(source, acked, events), Newline)
      modifies this`acked, this`unsent, pacer, clock, stop, transport, transport.directory, counters
      ensures if ending.StillRunning? then AtHead() && acked > old(acked) else Finished() && acked == old(acked)
      ensures ending.Stopped? ==> stop.requested
      ensures ending.LimitReached? ==> ending.result != Sent && ending.result == transport.answered
      ensures ending.StillRunning? ==> transport.answered == Sent
      ensures !ending.Stopped? ==> !stop.requested
      ensures ending == LimitReached(FileCountLimitReached) ==> transport.limits.count > 0 && acked == transport.limits.count
    {
      Pace(events);
      var stopped := stop.Requested();
      if stopped {
        Leave(events);
        return Stopped;
      }
      ending := Deliver(batch, events, elapsed);
    }

    /** The batch goes out as one file per event, or a limit refuses all of it. */
    method Deliver(batch: string, events: nat, elapsed: nat) returns (ending: Ending)
      requires Books(events) && rendered == acked + events && 1 <= events <= eventLimit
      requires batch == Frames(Window(source, acked, events), Newline)
      modifies this`acked, this`unsent, transport, transport.directory, counters
      ensures if ending.StillRunning? then AtHead() && acked == old(acked) + events else Finished() && acked == old(acked)
      ensures !ending.Stopped? && (ending.LimitReached? ==> ending.result != Sent && ending.result == transport.answered)
      ensures ending.StillRunning? ==> transport.answered == Sent
      ensures ending == LimitReached(FileCountLimitReached) ==> transport.limits.count > 0 && acked == transport.limits.count
    {
      var result := Transmit(batch, events, elapsed);
      if result != Sent {
        Leave(events);
        return LimitReached(result);
      }
      Acknowledge(batch, events);
      return StillRunning;
    }

    method Acknowledge(batch: string, events: nat)
      requires rendered == acked + events && 1 <= eventLimit <= 256 && (transport.limits.count > 0 ==> eventLimit == 1)
      requires pacer.Valid() && BatchSized(pacer.waits) && (pacer.rate > 0 ==> Events(pacer.waits) == rendered)
      requires transport.Valid() && transport.WithinLimits() && transport.contents == FrameList(Prefix(source, rendered), Newline)
      requires counters.AllPublished(acked, 0, |Stream(source, acked)|) && batch == Frames(Window(source, acked, events), Newline)
      modifies this`acked, counters
      ensures AtHead()
    {
      Count(batch, events);
      acked := rendered;
    }

    method Transmit(batch: string, events: nat, elapsed: nat) returns (result: SendResult)
      requires transport.Valid() && transport.WithinLimits() && events > 0 && (transport.limits.count > 0 ==> events == 1)
      requires transport.contents == FrameList(Prefix(source, acked), Newline)
      requires batch == Frames(Window(source, acked, events), Newline)
      modifies transport, transport.directory
      ensures transport.Valid() && transport.WithinLimits()
      ensures transport.contents == FrameList(Prefix(source, if result == Sent then acked + events else acked), Newline)
      ensures result == FileCountLimitReached ==> transport.limits.count > 0 && acked == transport.limits.count
      ensures result == transport.answered
    {
      NewlineSplit(Window(source, acked, events));
      FramesOfPrefix(source, acked, events);
      result := transport.Send(batch, elapsed);
    }

    /** A FILE worker publishes after every batch. */
    method Count(batch: string, events: nat)
      requires counters.AllPublished(acked, 0, |Stream(source, acked)|) && batch == Frames(Window(source, acked, events), Newline)
      modifies counters
      ensures counters.AllPublished(acked + events, 0, |Stream(source, acked + events)|)
    {
      StreamLength(source, acked, events);
      counters.Record(events, 0, |batch|, PublishThreshold(pacer.rate), acked, 0, |Stream(source, acked)|);
      counters.Flush(acked + events, 0, |Stream(source, acked + events)|);
    }

    /** A turn for each of these times. */
    method Run(elapsed: seq<nat>) returns (ending: Ending)
      requires AtHead()
      modifies this, pacer, clock, stop, transport, transport.directory, counters
      ensures if ending.StillRunning? then AtHead() && acked >= old(acked) + |elapsed| else Finished()
      ensures ending.Stopped? ==> stop.requested
      ensures ending.LimitReached? ==> ending.result != Sent && ending.result == transport.answered
      ensures ending == LimitReached(FileCountLimitReached) ==> transport.limits.count > 0 && acked == transport.limits.count
    {
      ending := StillRunning;
      for i := 0 to |elapsed|
        invariant AtHead() && ending.StillRunning? && acked >= old(acked) + i
      {
        ending := Turn(elapsed[i]);
        if !ending.StillRunning? {
          return;
        }
      }
    }
  }
}
