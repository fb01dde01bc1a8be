/** What transports answer, and how a worker's end follows from the answers. */
module Transports {

  datatype Delivery = Delivered | LimitHit | Broken

  /** One call of a transport: the batch handed over, of datagrams or bytes, and the answer. */
  datatype Answer<T> = Answer(batch: seq<T>, delivery: Delivery)

  datatype Ending = Stopped | StillRunning | AtLimit | TransportFailed | EventTooLarge

  /** Everything the transport has acknowledged, in order. */
  function Accepted<T>(log: seq<Answer<T>>): seq<T> {
    if log == [] then []
    else
      var last := log[|log| - 1];
      Accepted(log[..|log| - 1]) + (if last.delivery.Delivered? then last.batch else [])
  }

  /** This batch was the last one handed over. */
  predicate Handed<T(==)>(log: seq<Answer<T>>, batch: seq<T>) { log != [] && log[|log| - 1].batch == batch }

  predicate AllDelivered<T>(log: seq<Answer<T>>) {
    forall i :: 0 <= i < |log| ==> log[i].delivery.Delivered?
  }

  /** Every answer but the last was positive, and the last was this one. */
  predicate EndsWith<T>(log: seq<Answer<T>>, delivery: Delivery) {
    log != [] && AllDelivered(log[..|log| - 1]) && log[|log| - 1].delivery == delivery
  }

  /** The worker ended as the answers say: at a limit or broken exactly if the last answer was that, and otherwise with
      every batch acknowledged. */
  ghost predicate Explains<T>(ending: Ending, log: seq<Answer<T>>) {
    && (ending.AtLimit? <==> EndsWith(log, LimitHit))
    && (ending.TransportFailed? <==> EndsWith(log, Broken))
    && (ending.AtLimit? || ending.TransportFailed? || AllDelivered(log))
  }

  lemma AnswerAdded<T>(log: seq<Answer<T>>, batch: seq<T>, delivery: Delivery)
    requires AllDelivered(log)
    ensures var longer := log + [Answer(batch, delivery)];
            && Accepted(longer) == Accepted(log) + (if delivery.Delivered? then batch else [])
            && (AllDelivered(longer) <==> delivery.Delivered?)
            && forall d: Delivery :: EndsWith(longer, d) <==> d == delivery
  {
    assert (log + [Answer(batch, delivery)])[..|log|] == log;
  }

  lemma NothingRefused<T>(ending: Ending, log: seq<Answer<T>>)
    requires AllDelivered(log) && !ending.AtLimit? && !ending.TransportFailed?
    ensures Explains(ending, log)
  {
  }
}
