/** A worker's local counters and the totals it has published. */
module Counters {
  import opened Limits

  /** How many unpublished messages trigger a flush. */
  function PublishThreshold(quota: nat): (threshold: nat)
    ensures 1 <= threshold <= 16_384
  {
    if quota == 0 then 16_384 else Clamp(quota / 10, 1, 16_384)
  }

  /** The threshold is the largest that its limit and a tenth of a second of the quota allow. */
  lemma ThresholdIsLargest(quota: nat, n: nat)
    ensures BatchAllowed(quota, 10, 16_384, PublishThreshold(quota))
    ensures BatchAllowed(quota, 10, 16_384, n) ==> n <= PublishThreshold(quota)
  {
    if quota > 0 && BatchAllowed(quota, 10, 16_384, n) {
      ClampIsLargest(quota, 10, 16_384, n);
    }
  }

  class WorkerCounters {
    var localMessages: nat
    var localDatagrams: nat
    var localBytes: nat
    var totalMessages: nat
    var totalDatagrams: nat
    var totalBytes: nat

    constructor ()
      ensures AllPublished(0, 0, 0)
    {
      localMessages, localDatagrams, localBytes := 0, 0, 0;
      totalMessages, totalDatagrams, totalBytes := 0, 0, 0;
    }

    /** What the worker has counted is in the local counters or in the totals it has published. */
    ghost predicate Counts(messages: nat, datagrams: nat, bytes: nat)
      reads this
    {
      && messages == totalMessages + localMessages
      && datagrams == totalDatagrams + localDatagrams
      && bytes == totalBytes + localBytes
    }

    /** Nothing is held back. */
    ghost predicate AllPublished(messages: nat, datagrams: nat, bytes: nat)
      reads this
    {
      Counts(messages, datagrams, bytes) && localMessages == localDatagrams == localBytes == 0
    }

    method Flush(ghost messages: nat, ghost datagrams: nat, ghost bytes: nat)
      requires Counts(messages, datagrams, bytes)
      modifies this
      ensures AllPublished(messages, datagrams, bytes)
    {
      if localMessages > 0 {
        totalMessages := totalMessages + localMessages;
        localMessages := 0;
      }
      if localDatagrams > 0 {
        totalDatagrams := totalDatagrams + localDatagrams;
        localDatagrams := 0;
      }
      if localBytes > 0 {
        totalBytes := totalBytes + localBytes;
        localBytes := 0;
      }
    }

    /** Counts one acknowledged batch and publishes when the threshold is reached. */
    method Record(events: nat, packets: nat, size: nat, threshold: nat, ghost messages: nat, ghost datagrams: nat, ghost bytes: nat)
      requires threshold > 0 && Counts(messages, datagrams, bytes)
      modifies this
      ensures Counts(messages + events, datagrams + packets, bytes + size)
      ensures localMessages < threshold
      ensures localMessages == if old(localMessages) + events >= threshold then 0 else old(localMessages) + events
    {
      localMessages := localMessages + events;
      localDatagrams := localDatagrams + packets;
      localBytes := localBytes + size;
      if localMessages >= threshold {
        Flush(messages + events, datagrams + packets, bytes + size);
      }
    }
  }
}

/** Packed UDP: framed events in datagrams, datagrams in batches, with a carried-over payload and datagram. */
module Packer {
  import opened Text
  import opened Transports
  import opened Framing
  import opened Limits
  import opened Pacing
  import opened Counters

  const PACKET_EVENT_LIMIT := 256
  const PACKET_TARGET := 61_440
  const BATCH_TARGET := 614_400
  const MAXIMUM_UDP_PAYLOAD := 65_507

  /** A datagram holding exactly these events: never too large for UDP, and above 60 KiB only for a single event. */
  ghost predicate PacketOk(packet: string, group: seq<string>) {
    && packet == Frames(group, Newline)
    && 1 <= |group| <= PACKET_EVENT_LIMIT
    && |packet| <= MAXIMUM_UDP_PAYLOAD
    && (|packet| > PACKET_TARGET ==> |group| == 1)
  }

  ghost predicate PacketsOk(packets: seq<string>, groups: seq<seq<string>>) {
    && |packets| == |groups|
    && forall i :: 0 <= i < |packets| ==> PacketOk(packets[i], groups[i])
  }

  lemma PacketsSnoc(packets: seq<string>, groups: seq<seq<string>>, packet: string, group: seq<string>)
    requires PacketsOk(packets, groups) && PacketOk(packet, group)
    ensures PacketsOk(packets + [packet], groups + [group])
  {
  }

  lemma PacketsAppend(a: seq<string>, g: seq<seq<string>>, b: seq<string>, h: seq<seq<string>>)
    requires PacketsOk(a, g) && PacketsOk(b, h)
    ensures PacketsOk(a + b, g + h)
  {
    forall i | 0 <= i < |a + b| ensures PacketOk((a + b)[i], (g + h)[i]) {
      if i < |a| {
        assert PacketOk(a[i], g[i]);
      } else {
        assert PacketOk(b[i - |a|], h[i - |a|]);
      }
    }
  }

  lemma ExtendPacket(bytes: string, group: seq<string>, payload: string)
    requires if group == [] then bytes == "" else PacketOk(bytes, group)
    requires |group| < PACKET_EVENT_LIMIT && |Frame(payload, Newline)| <= MAXIMUM_UDP_PAYLOAD
    requires group != [] ==> |bytes| + |Frame(payload, Newline)| <= PACKET_TARGET
    ensures PacketOk(bytes + Frame(payload, Newline), group + [payload])
    ensures bytes + Frame(payload, Newline) != ""
  {
    FramesSnoc(group, payload, Newline);
    FrameNonempty(payload, Newline);
  }

  lemma AccountSnoc(source: nat -> string, n: nat, done: seq<string>, group: seq<string>)
    requires Prefix(source, n) == done + group
    ensures Prefix(source, n + 1) == done + (group + [source(n)])
  {
    PrefixSnoc(source, n);
    assert done + group + [source(n)] == done + (group + [source(n)]);
  }

  /** The bytes of the datagrams are the frames of their events. */
  lemma {:induction false} PacketBytes(packets: seq<string>, groups: seq<seq<string>>)
    requires PacketsOk(packets, groups)
    ensures Concat(packets) == Frames(Flatten(groups), Newline)
    decreases |packets|
  {
    if packets != [] {
      assert PacketOk(packets[0], groups[0]);
      PacketBytes(packets[1..], groups[1..]);
      FramesAppend(groups[0], Flatten(groups[1..]), Newline);
    }
  }

  /** What a batch leaves behind: a payload that did not fit its datagram, a datagram that did not fit its batch. */
  datatype Carry = Carry(hasPayload: bool, payload: string, packet: string, packetEvents: nat)

  const NOTHING := Carry(false, "", "", 0)

  function Waiting(carry: Carry): seq<string> {
    if carry.hasPayload then [carry.payload] else []
  }

  ghost predicate WaitingFits(carry: Carry) {
    carry.hasPayload ==> |Frame(carry.payload, Newline)| <= MAXIMUM_UDP_PAYLOAD
  }

  /** The event rendered last does not fit any datagram. */
  ghost predicate LastTooLarge(source: nat -> string, rendered: nat) {
    rendered > 0 && |Frame(source(rendered - 1), Newline)| > MAXIMUM_UDP_PAYLOAD
  }

  ghost predicate PartialPacket(bytes: string, group: seq<string>) {
    if group == [] then bytes == "" else PacketOk(bytes, group)
  }

  /** The frame sizes of all events. */
  function FrameSizes(source: nat -> string): nat -> nat { (n: nat) => |Frame(source(n), Newline)| }

  datatype Reason = NextDoesNotFit | MostEvents | BudgetUsed

  /** Why a datagram that starts with event number `position` has no more events. */
  predicate ClosedFor(reason: Reason, sizes: nat -> nat, position: nat, packet: string, group: seq<string>, budget: int) {
    match reason
    case NextDoesNotFit => |packet| + sizes(position + |group|) > PACKET_TARGET
    case MostEvents => |group| == PACKET_EVENT_LIMIT
    case BudgetUsed => |group| == budget
  }

  ghost predicate Closed(sizes: nat -> nat, position: nat, packet: string, group: seq<string>, budget: int) {
    exists reason :: ClosedFor(reason, sizes, position, packet, group, budget)
  }

  lemma ClosedByPayload(source: nat -> string, rendered: nat, done: seq<string>, group: seq<string>, payload: string)
    requires Prefix(source, rendered) == done + group + [payload]
    ensures source(|done| + |group|) == payload
  {
    assert (done + group + [payload])[|done| + |group|] == payload;
  }

  /** Fills one datagram from the carried-over payload and fresh ones; `fits` is false when a single event
      is too large for UDP, which ends the worker. */
  method FillPacket(source: nat -> string, from: nat, carry: Carry, budget: nat, ghost done: seq<string>)
    returns (packet: string, events: nat, rendered: nat, left: Carry, fits: bool, ghost group: seq<string>)
    requires carry.packet == "" && WaitingFits(carry) && budget > 0
    requires Prefix(source, from) == done + Waiting(carry)
    ensures rendered >= from
    ensures fits ==> PacketOk(packet, group) && events == |group| <= budget
    ensures fits ==> left.packet == "" && left.packetEvents == 0 && WaitingFits(left) && Prefix(source, rendered) == done + group + Waiting(left)
    ensures fits ==> if left.hasPayload then |packet| + |Frame(left.payload, Newline)| > PACKET_TARGET
                     else events == PACKET_EVENT_LIMIT || events == budget
    ensures fits ==> Closed(FrameSizes(source), |done|, packet, group, budget)
    ensures !fits ==> LastTooLarge(source, rendered)
  {
    var buffer := new Batch();
    packet, events, rendered, left, fits, group := "", 0, from, NOTHING, true, Waiting(carry);
    if carry.hasPayload {
      ExtendPacket("", [], carry.payload);
      assert [] + [carry.payload] == group;
      buffer.AppendFrame(carry.payload, Newline);
      events := 1;
    }
    while events < PACKET_EVENT_LIMIT && events < budget
      invariant rendered >= from && left == NOTHING && fits
      invariant events == |group| <= budget && PartialPacket(buffer.bytes, group)
      invariant Prefix(source, rendered) == done + group
    {
      var payload := source(rendered);
      AccountSnoc(source, rendered, done, group);
      rendered := rendered + 1;
      var framed := NewlineFrameSize(payload);
      if framed > MAXIMUM_UDP_PAYLOAD {
        fits := false;
        return;
      }
      if events > 0 && |buffer.bytes| + framed > PACKET_TARGET {
        left := Carry(true, payload, "", 0);
        break;
      }
      ExtendPacket(buffer.bytes, group, payload);
      buffer.AppendFrame(payload, Newline);
      group := group + [payload];
      events := events + 1;
    }
    packet := buffer.bytes;
    assert done + group + Waiting(left) == done + (group + Waiting(left));
    if left.hasPayload {
      ClosedByPayload(source, rendered, done, group, left.payload);
      assert ClosedFor(NextDoesNotFit, FrameSizes(source), |done|, packet, group, budget);
    } else if events == budget {
      assert ClosedFor(BudgetUsed, FrameSizes(source), |done|, packet, group, budget);
    } else {
      assert ClosedFor(MostEvents, FrameSizes(source), |done|, packet, group, budget);
    }
  }

  /** A carried-over state: the held datagram is sound and small enough for the next batch's event target. */
  ghost predicate CarryOk(carry: Carry, held: seq<string>, quota: nat) {
    && WaitingFits(carry)
    && PartialPacket(carry.packet, held)
    && carry.packetEvents == |held| <= PackedEventTarget(quota)
    && (carry.packet == "" <==> held == [])
  }

  ghost predicate BatchSoFar(packets: seq<string>, groups: seq<seq<string>>, bytes: nat, events: nat, quota: nat) {
    && PacketsOk(packets, groups)
    && bytes == |Concat(packets)| <= BATCH_TARGET
    && events == |Flatten(groups)| <= PackedEventTarget(quota)
  }

  lemma BatchSnoc(packets: seq<string>, groups: seq<seq<string>>, bytes: nat, events: nat, quota: nat, packet: string, group: seq<string>)
    requires BatchSoFar(packets, groups, bytes, events, quota) && PacketOk(packet, group)
    requires bytes + |packet| <= BATCH_TARGET && events + |group| <= PackedEventTarget(quota)
    ensures BatchSoFar(packets + [packet], groups + [group], bytes + |packet|, events + |group|, quota)
    ensures Flatten(groups + [group]) == Flatten(groups) + group
    ensures |packet| > 0
  {
    PacketsSnoc(packets, groups, packet, group);
    ConcatSnoc(packets, packet);
    FlattenSnoc(groups, group);
    FramesLength(group, Newline);
  }

  /** Each datagram of a batch was closed for one of the three reasons. `first` is the budget of the first one, which may have been
      filled for the batch before; the others had what the datagrams before them left of the target. */
  ghost predicate AllClosed(sizes: nat -> nat, start: nat, packets: seq<string>, groups: seq<seq<string>>, first: int, target: nat) {
    && |packets| == |groups|
    && forall j {:trigger packets[j]} :: 0 <= j < |packets| ==> ClosedAt(sizes, start, packets, groups, first, target, j)
  }

  ghost predicate ClosedAt(sizes: nat -> nat, start: nat, packets: seq<string>, groups: seq<seq<string>>, first: int, target: nat, j: nat)
    requires j < |packets| == |groups|
  {
    var before := |Flatten(groups[..j])|;
    Closed(sizes, start + before, packets[j], groups[j], if j == 0 then first else target - before)
  }

  lemma AllClosedSnoc(sizes: nat -> nat, start: nat, packets: seq<string>, groups: seq<seq<string>>, first: int, target: nat,
                      packet: string, group: seq<string>)
    requires AllClosed(sizes, start, packets, groups, first, target)
    requires Closed(sizes, start + |Flatten(groups)|, packet, group, if packets == [] then first else target - |Flatten(groups)|)
    ensures AllClosed(sizes, start, packets + [packet], groups + [group], first, target)
  {
    var more, moreGroups := packets + [packet], groups + [group];
    forall j | 0 <= j < |more| ensures ClosedAt(sizes, start, more, moreGroups, first, target, j) {
      if j < |packets| {
        assert moreGroups[..j] == groups[..j];
        assert ClosedAt(sizes, start, packets, groups, first, target, j) by { assert packets[j] == more[j]; }
      } else {
        assert moreGroups[..j] == groups;
      }
    }
  }

  /** The batch is as full as it can be: every datagram in it is closed, as is the one held back for the next batch if there is
      one, which then did not fit; otherwise the bytes or the events have reached their target. */
  ghost predicate BatchClosed(sizes: nat -> nat, start: nat, packets: seq<string>, groups: seq<seq<string>>, first: int, quota: nat,
                              left: Carry, leftHeld: seq<string>, leftBudget: int) {
    var target, bytes, events := PackedEventTarget(quota), |Concat(packets)|, |Flatten(groups)|;
    && AllClosed(sizes, start, packets, groups, first, target)
    && (leftHeld != [] ==> leftBudget == target - events && Closed(sizes, start + events, left.packet, leftHeld, leftBudget))
    && if leftHeld != [] then bytes + |left.packet| > BATCH_TARGET else bytes >= BATCH_TARGET || events >= target
  }

  lemma Reassociate(done: seq<string>, packed: seq<string>, group: seq<string>, waiting: seq<string>)
    ensures done + packed + group + waiting == done + (packed + group) + waiting
    ensures done + packed + waiting == done + packed + [] + waiting
  {
  }

  lemma BatchGrows(source: nat -> string, done: seq<string>, packets: seq<string>, groups: seq<seq<string>>, bytes: nat, events: nat, quota: nat,
                   first: int, packet: string, group: seq<string>, waiting: seq<string>, budget: int, position: nat)
    requires BatchSoFar(packets, groups, bytes, events, quota) && PacketOk(packet, group)
    requires bytes + |packet| <= BATCH_TARGET && events + |group| <= PackedEventTarget(quota)
    requires AllClosed(FrameSizes(source), |done|, packets, groups, first, PackedEventTarget(quota))
    requires budget == (if packets == [] then first else PackedEventTarget(quota) - events) && position == |done| + events
    requires Closed(FrameSizes(source), position, packet, group, budget)
    ensures BatchSoFar(packets + [packet], groups + [group], bytes + |packet|, events + |group|, quota) && |packet| > 0
    ensures AllClosed(FrameSizes(source), |done|, packets + [packet], groups + [group], first, PackedEventTarget(quota))
    ensures done + Flatten(groups) + group + waiting == done + Flatten(groups + [group]) + [] + waiting
  {
    AllClosedSnoc(FrameSizes(source), |done|, packets, groups, first, PackedEventTarget(quota), packet, group);
    BatchSnoc(packets, groups, bytes, events, quota, packet, group);
    Reassociate(done, Flatten(groups), group, waiting);
    Reassociate(done, Flatten(groups) + group, [], waiting);
  }

  lemma PacketHeld(sizes: nat -> nat, start: nat, packets: seq<string>, groups: seq<seq<string>>, bytes: nat, events: nat, first: int, quota: nat,
                   left: Carry, group: seq<string>, budget: int, position: nat)
    requires WaitingFits(left) && PacketOk(left.packet, group) && left.packetEvents == |group| <= budget == PackedEventTarget(quota) - events
    requires BatchSoFar(packets, groups, bytes, events, quota) && bytes + |left.packet| > BATCH_TARGET
    requires AllClosed(sizes, start, packets, groups, first, PackedEventTarget(quota))
    requires Closed(sizes, position, left.packet, group, budget) && position == start + events
    ensures CarryOk(left, group, quota) && BatchClosed(sizes, start, packets, groups, first, quota, left, group, budget)
  {
    FramesLength(group, Newline);
  }

  /** The datagram held back, or a fresh one. */
  method NextPacket(source: nat -> string, from: nat, carry: Carry, limit: nat, ghost done: seq<string>, ghost held: seq<string>, ghost budget: int,
                    ghost position: nat)
    returns (packet: string, events: nat, rendered: nat, left: Carry, fits: bool, ghost group: seq<string>)
    requires position == |done| && limit > 0 && WaitingFits(carry) && PartialPacket(carry.packet, held)
    requires carry.packetEvents == |held| <= limit && (carry.packet == "" <==> held == [])
    requires Prefix(source, from) == done + held + Waiting(carry)
    requires if held == [] then budget == limit else Closed(FrameSizes(source), position, carry.packet, held, budget)
    ensures rendered >= from
    ensures fits ==> PacketOk(packet, group) && events == |group| <= limit && Closed(FrameSizes(source), position, packet, group, budget)
    ensures fits ==> left.packet == "" && left.packetEvents == 0 && WaitingFits(left)
    ensures fits ==> Prefix(source, rendered) == done + group + Waiting(left)
    ensures !fits ==> LastTooLarge(source, rendered)
  {
    if carry.packet != "" {
      packet, events, rendered, group := carry.packet, carry.packetEvents, from, held;
      left, fits := carry.(packet := "", packetEvents := 0), true;
    } else {
      assert done + held == done;
      packet, events, rendered, left, fits, group := FillPacket(source, from, carry, limit, done);
    }
  }

  /** One batch: at most 600 KiB and the event target, in every case at least one datagram; nothing rendered is lost. */
  method BuildBatch(source: nat -> string, from: nat, carry: Carry, quota: nat, ghost done: seq<string>, ghost held: seq<string>, ghost first: int)
    returns (packets: seq<string>, bytes: nat, events: nat, rendered: nat, left: Carry, fits: bool,
             ghost groups: seq<seq<string>>, ghost leftHeld: seq<string>, ghost leftBudget: int)
    requires CarryOk(carry, held, quota)
    requires Prefix(source, from) == done + held + Waiting(carry)
    requires if held == [] then first == PackedEventTarget(quota) else Closed(FrameSizes(source), |done|, carry.packet, held, first)
    ensures rendered >= from
    ensures fits ==> packets != [] && BatchSoFar(packets, groups, bytes, events, quota)
    ensures fits ==> CarryOk(left, leftHeld, quota)
    ensures fits ==> Prefix(source, rendered) == done + Flatten(groups) + leftHeld + Waiting(left)
    ensures fits ==> BatchClosed(FrameSizes(source), |done|, packets, groups, first, quota, left, leftHeld, leftBudget)
    ensures !fits ==> LastTooLarge(source, rendered)
  {
    packets, bytes, events, rendered, left, fits, groups, leftHeld := [], 0, 0, from, carry, true, [], held;
    var target := PackedEventTarget(quota);
    leftBudget := first;
    ghost var position := |done|;
    assert done + [] == done;
    while bytes < BATCH_TARGET && events < target
      invariant rendered >= from && fits
      invariant BatchSoFar(packets, groups, bytes, events, quota)
      invariant CarryOk(left, leftHeld, quota)
      invariant packets == [] ==> bytes == 0 && events == 0 && (leftHeld == [] ==> first == target)
      invariant position == |done| + events
      invariant leftHeld != [] ==> Closed(FrameSizes(source), position, left.packet, leftHeld, first)
      invariant AllClosed(FrameSizes(source), |done|, packets, groups, first, target)
      invariant packets != [] ==> leftHeld == []
      invariant Prefix(source, rendered) == done + Flatten(groups) + leftHeld + Waiting(left)
      decreases BATCH_TARGET - bytes
    {
      var packet, packetEvents;
      ghost var group;
      ghost var own := if packets == [] then first else target - events;
      packet, packetEvents, rendered, left, fits, group :=
        NextPacket(source, rendered, left, target - events, done + Flatten(groups), leftHeld, own, position);
      if !fits {
        return;
      }
      if packets != [] && bytes + |packet| > BATCH_TARGET {
        left := left.(packet := packet, packetEvents := packetEvents);
        leftHeld, leftBudget := group, own;
        PacketHeld(FrameSizes(source), |done|, packets, groups, bytes, events, first, quota, left, group, own, position);
        return;
      }
      BatchGrows(source, done, packets, groups, bytes, events, quota, first, packet, group, Waiting(left), own, position);
      bytes := bytes + |packet|;
      events := events + packetEvents;
      position := position + packetEvents;
      packets, groups, leftHeld := packets + [packet], groups + [group], [];
    }
  }

  /** No batch holds more events than the pacer's 64-bit product can take. */
  lemma BatchEventsBounded(packets: seq<string>, groups: seq<seq<string>>, bytes: nat, events: nat, quota: nat)
    requires BatchSoFar(packets, groups, bytes, events, quota)
    ensures events <= MAX_BATCH_EVENTS
  {
    PacketBytes(packets, groups);
    FramesLength(Flatten(groups), Newline);
  }

  // ----- the packed sending loop of a worker -----

  /** A datagram transport: any answer is possible; when a batch is not delivered, a part of it may have gone out. */
  class DatagramTransport {
    ghost var sent: seq<string>
    ghost var log: seq<Answer<string>>

    constructor ()
      ensures sent == [] && log == []
    {
      sent, log := [], [];
    }

    method SendBatch(packets: seq<string>) returns (delivery: Delivery, ghost gone: nat)
      modifies this
      ensures gone <= |packets| && sent == old(sent) + packets[..gone]
      ensures delivery == Delivered ==> gone == |packets|
      ensures log == old(log) + [Answer(packets, delivery)]
    {
      delivery :| true;
      if delivery == Delivered {
        gone := |packets|;
      } else {
        gone :| gone <= |packets|;
      }
      sent := sent + packets[..gone];
      log := log + [Answer(packets, delivery)];
    }
  }

  lemma ByteCountAppend(a: seq<string>, b: seq<string>)
    ensures |Concat(a + b)| == |Concat(a)| + |Concat(b)|
  {
    ConcatAppend(a, b);
  }

  lemma EventCountAppend(g: seq<seq<string>>, h: seq<seq<string>>)
    ensures |Flatten(g + h)| == |Flatten(g)| + |Flatten(h)|
  {
    FlattenAppend(g, h);
  }

  /** Sent datagrams hold the first rendered events in order; `unsent` are the rendered ones that follow. */
  ghost predicate SentInOrder(source: nat -> string, rendered: nat, packets: seq<string>, groups: seq<seq<string>>, unsent: seq<string>) {
    PacketsOk(packets, groups) && Prefix(source, rendered) == Flatten(groups) + unsent
  }

  /** In bytes: what was sent is a prefix of the framed stream of all rendered events. */
  lemma SentIsStreamPrefix(source: nat -> string, rendered: nat, packets: seq<string>, groups: seq<seq<string>>, unsent: seq<string>)
    requires SentInOrder(source, rendered, packets, groups, unsent)
    ensures Frames(Prefix(source, rendered), Newline) == Concat(packets) + Frames(unsent, Newline)
  {
    PacketBytes(packets, groups);
    FramesAppend(Flatten(groups), unsent, Newline);
  }

  /** At the head of the loop the rest of the stream is the carried-over datagram and the frame of the carried-over payload. */
  lemma HeadStream(source: nat -> string, rendered: nat, packets: seq<string>, groups: seq<seq<string>>, carry: Carry, held: seq<string>, quota: nat)
    requires SentInOrder(source, rendered, packets, groups, held + Waiting(carry)) && CarryOk(carry, held, quota)
    ensures Frames(Prefix(source, rendered), Newline) ==
            Concat(packets) + (carry.packet + (if carry.hasPayload then Frame(carry.payload, Newline) else ""))
  {
    SentIsStreamPrefix(source, rendered, packets, groups, held + Waiting(carry));
    FramesAppend(held, Waiting(carry), Newline);
    assert carry.packet == Frames(held, Newline);
    if carry.hasPayload {
      FramesSnoc([], carry.payload, Newline);
      assert [] + [carry.payload] == Waiting(carry);
    }
  }

  /** Rendering more does not disturb what was sent. */
  lemma StaysInOrder(source: nat -> string, n: nat, more: nat, packets: seq<string>, groups: seq<seq<string>>, rest: seq<string>)
    requires n <= more && SentInOrder(source, n, packets, groups, rest)
    ensures SentInOrder(source, more, packets, groups, Prefix(source, more)[|Flatten(groups)|..])
  {
    var k := |Flatten(groups)|;
    assert Prefix(source, more)[..n] == Prefix(source, n);
    assert Prefix(source, more)[..k] == Prefix(source, n)[..k] == Flatten(groups);
  }

  /** When a batch went out in part: its first datagrams follow the earlier ones. */
  lemma PartOfBatch(source: nat -> string, rendered: nat, packets: seq<string>, groups: seq<seq<string>>,
                    batch: seq<string>, batchGroups: seq<seq<string>>, rest: seq<string>, gone: nat)
    requires PacketsOk(packets, groups) && PacketsOk(batch, batchGroups) && gone <= |batch|
    requires Prefix(source, rendered) == Flatten(groups) + Flatten(batchGroups) + rest
    ensures SentInOrder(source, rendered, packets + batch[..gone], groups + batchGroups[..gone], Flatten(batchGroups[gone..]) + rest)
  {
    PacketsAppend(packets, groups, batch[..gone], batchGroups[..gone]);
    FlattenParts(groups, batchGroups, rest, gone);
  }

  lemma FlattenParts(groups: seq<seq<string>>, batchGroups: seq<seq<string>>, rest: seq<string>, gone: nat)
    requires gone <= |batchGroups|
    ensures Flatten(groups) + Flatten(batchGroups) + rest
            == Flatten(groups + batchGroups[..gone]) + (Flatten(batchGroups[gone..]) + rest)
  {
    FlattenAppend(groups, batchGroups[..gone]);
    FlattenCut(batchGroups, gone);
    var first, second := Flatten(batchGroups[..gone]), Flatten(batchGroups[gone..]);
    Associate(Flatten(groups), first, second);
    Associate(Flatten(groups) + first, second, rest);
  }

  lemma FlattenCut(groups: seq<seq<string>>, k: nat)
    requires k <= |groups|
    ensures Flatten(groups) == Flatten(groups[..k]) + Flatten(groups[k..])
  {
    assert groups == groups[..k] + groups[k..];
    FlattenAppend(groups[..k], groups[k..]);
  }

  lemma WaitsSnoc(waits: seq<WaitRecord>, after: seq<WaitRecord>, events: nat)
    requires BatchSized(waits) && events <= MAX_BATCH_EVENTS
    requires |after| == |waits| + 1 && after[..|waits|] == waits && after[|waits|].events == events
    ensures BatchSized(after) && Events(after) == Events(waits) + events
  {
    assert forall i :: 0 <= i < |waits| ==> after[i] == after[..|waits|][i];
  }

  lemma HeadStep(source: nat -> string, rendered: nat, packets: seq<string>, groups: seq<seq<string>>,
                 batch: seq<string>, batchGroups: seq<seq<string>>, rest: seq<string>)
    requires PacketsOk(packets, groups) && PacketsOk(batch, batchGroups)
    requires Prefix(source, rendered) == Flatten(groups) + Flatten(batchGroups) + rest
    ensures SentInOrder(source, rendered, packets + batch, groups + batchGroups, rest)
  {
    FlattenAppend(groups, batchGroups);
    PacketsAppend(packets, groups, batch, batchGroups);
  }

  /** The datagrams sent have grown by a batch as full as it can be. */
  ghost predicate Grown(sizes: nat -> nat, packets: seq<string>, groups: seq<seq<string>>, after: seq<string>, afterGroups: seq<seq<string>>,
                        first: int, quota: nat, left: Carry, held: seq<string>, budget: int) {
    exists batch, batchGroups ::
      && after == packets + batch && afterGroups == groups + batchGroups
      && BatchClosed(sizes, |Flatten(groups)|, batch, batchGroups, first, quota, left, held, budget)
      && HeldAt(sizes, afterGroups, left.packet, held, budget)
  }

  lemma GrownHeld(sizes: nat -> nat, packets: seq<string>, groups: seq<seq<string>>, after: seq<string>, afterGroups: seq<seq<string>>,
                  first: int, quota: nat, left: Carry, held: seq<string>, budget: int)
    requires Grown(sizes, packets, groups, after, afterGroups, first, quota, left, held, budget)
    ensures HeldAt(sizes, afterGroups, left.packet, held, budget)
  {
  }

  lemma BatchAppended(sizes: nat -> nat, packets: seq<string>, groups: seq<seq<string>>, batch: seq<string>, batchGroups: seq<seq<string>>,
                      first: int, quota: nat, left: Carry, held: seq<string>, budget: int)
    requires BatchClosed(sizes, |Flatten(groups)|, batch, batchGroups, first, quota, left, held, budget)
    ensures Grown(sizes, packets, groups, packets + batch, groups + batchGroups, first, quota, left, held, budget)
  {
    HeldBehindBatch(sizes, groups, batch, batchGroups, first, quota, left, held, budget);
  }

  /** The datagram held back behind these events is as full as it was meant to be. */
  ghost predicate HeldAt(sizes: nat -> nat, groups: seq<seq<string>>, packet: string, held: seq<string>, budget: int) {
    held != [] ==> Closed(sizes, |Flatten(groups)|, packet, held, budget)
  }

  lemma SamePosition(sizes: nat -> nat, p: nat, q: nat, packet: string, held: seq<string>, budget: int)
    requires p == q && (held != [] ==> Closed(sizes, p, packet, held, budget))
    ensures held != [] ==> Closed(sizes, q, packet, held, budget)
  {
  }

  lemma HeldBehind(sizes: nat -> nat, groups: seq<seq<string>>, batchGroups: seq<seq<string>>, packet: string, held: seq<string>, budget: int,
                   p: nat, q: nat)
    requires p == |Flatten(groups)| + |Flatten(batchGroups)| && q == |Flatten(groups + batchGroups)|
    requires held != [] ==> Closed(sizes, p, packet, held, budget)
    ensures held != [] ==> Closed(sizes, q, packet, held, budget)
  {
    EventCountAppend(groups, batchGroups);
    SamePosition(sizes, p, q, packet, held, budget);
  }

  lemma HeldBehindBatch(sizes: nat -> nat, groups: seq<seq<string>>, batch: seq<string>, batchGroups: seq<seq<string>>,
                        first: int, quota: nat, left: Carry, held: seq<string>, budget: int)
    requires BatchClosed(sizes, |Flatten(groups)|, batch, batchGroups, first, quota, left, held, budget)
    ensures HeldAt(sizes, groups + batchGroups, left.packet, held, budget)
  {
    HeldBehind(sizes, groups, batchGroups, left.packet, held, budget, |Flatten(groups)| + |Flatten(batchGroups)|, |Flatten(groups + batchGroups)|);
  }

  lemma SomeEvents(packets: seq<string>, groups: seq<seq<string>>)
    requires PacketsOk(packets, groups) && packets != []
    ensures |Flatten(groups)| > 0
  {
    assert PacketOk(packets[0], groups[0]);
  }

  /** One worker of a packed UDP run. The ghost fields record the acknowledged batches and what is left at the end. */
  class PackedWorker {
    const source: nat -> string
    const pacer: RatePacer
    const clock: Clock
    const stop: StopToken
    const transport: DatagramTransport
    const counters: WorkerCounters
    var rendered: nat
    var carry: Carry
    ghost var held: seq<string>
    ghost var heldBudget: int
    ghost var packets: seq<string>
    ghost var groups: seq<seq<string>>
    ghost var sentGroups: seq<seq<string>>
    ghost var unsent: seq<string>

    /** What was acknowledged is what the transport sent, what was paced (but for the events of the batch in hand) and what was counted. */
    ghost predicate Books(inHand: nat)
      reads this`packets, this`groups, pacer, transport, counters
    {
      && pacer.Valid() && pacer.rate <= MAX_SIZE && BatchSized(pacer.waits)
      && (pacer.rate > 0 ==> Events(pacer.waits) == |Flatten(groups)| + inHand)
      && PacketsOk(packets, groups) && transport.sent == packets
      && AllDelivered(transport.log) && packets == Accepted(transport.log)
      && counters.Counts(|Flatten(groups)|, |packets|, |Concat(packets)|)
    }

    /** The head of the loop: besides, every rendered event is sent or carried over. */
    ghost predicate AtHead()
      reads this, pacer, transport, counters
    {
      && Books(0)
      && CarryOk(carry, held, pacer.rate)
      && SentInOrder(source, rendered, packets, groups, held + Waiting(carry))
      && counters.localMessages < PublishThreshold(pacer.rate)
    }

    /** The datagram held back for the next batch is as full as it was meant to be. */
    ghost predicate HeldClosed()
      reads this
    {
      HeldAt(FrameSizes(source), groups, carry.packet, held, heldBudget)
    }

    /** The budget of the first datagram of the next batch. */
    ghost function FirstBudget(): int
      reads this, pacer
    {
      if held == [] then PackedEventTarget(pacer.rate) else heldBudget
    }

    /** After the worker has left the loop: what went out, in order; what was counted; that it was paced. */
    ghost predicate Finished()
      reads this, pacer, transport, counters
    {
      && pacer.Valid() && BatchSized(pacer.waits)
      && SentInOrder(source, rendered, transport.sent, sentGroups, unsent)
      && PacketsOk(packets, groups) && packets <= transport.sent && packets == Accepted(transport.log)
      && counters.AllPublished(|Flatten(groups)|, |packets|, |Concat(packets)|)
      && (pacer.rate > 0 ==> |Flatten(groups)| <= Events(pacer.waits))
    }

    constructor (source: nat -> string, pacer: RatePacer, clock: Clock, stop: StopToken, transport: DatagramTransport, counters: WorkerCounters)
      requires pacer.Valid() && pacer.rate <= MAX_SIZE && pacer.waits == []
      requires counters.AllPublished(0, 0, 0) && transport.sent == [] && transport.log == []
      ensures AtHead() && HeldClosed()
      ensures this.source == source && this.pacer == pacer && this.clock == clock && this.stop == stop
      ensures this.transport == transport && this.counters == counters
    {
      this.source, this.pacer, this.clock, this.stop, this.transport, this.counters := source, pacer, clock, stop, transport, counters;
      rendered, carry := 0, NOTHING;
      held, heldBudget, packets, groups, sentGroups, unsent := [], 0, [], [], [], [];
    }

    /** Leaves the loop with everything that is not sent recorded as such, and publishes the counters. */
    method Leave(ghost goneGroups: seq<seq<string>>, ghost rest: seq<string>)
      requires pacer.Valid() && BatchSized(pacer.waits)
      requires SentInOrder(source, rendered, transport.sent, goneGroups, rest)
      requires PacketsOk(packets, groups) && packets <= transport.sent && packets == Accepted(transport.log)
      requires counters.Counts(|Flatten(groups)|, |packets|, |Concat(packets)|)
      requires pacer.rate > 0 ==> |Flatten(groups)| <= Events(pacer.waits)
      modifies this`sentGroups, this`unsent, counters
      ensures Finished()
    {
      sentGroups, unsent := goneGroups, rest;
      counters.Flush(|Flatten(groups)|, |packets|, |Concat(packets)|);
    }

    /** Leaves with nothing sent beyond what is acknowledged. */
    method LeaveEarly(ghost rest: seq<string>)
      requires Books(0) && SentInOrder(source, rendered, packets, groups, rest)
      modifies this`sentGroups, this`unsent, counters
      ensures Finished() && transport.sent == packets
    {
      Leave(groups, rest);
    }

    /** Leaves with a paced batch that was not handed over. */
    method LeaveUnsent(events: nat, ghost batch: seq<string>, ghost batchGroups: seq<seq<string>>, ghost rest: seq<string>)
      requires Books(events) && PacketsOk(batch, batchGroups)
      requires Prefix(source, rendered) == Flatten(groups) + Flatten(batchGroups) + rest
      modifies this`sentGroups, this`unsent, counters
      ensures Finished() && transport.sent == packets
    {
      PartOfBatch(source, rendered, packets, groups, batch, batchGroups, rest, 0);
      assert packets + batch[..0] == packets && groups + batchGroups[..0] == groups;
      Leave(groups, Flatten(batchGroups[0..]) + rest);
    }

    /** Builds the next batch behind what is already sent. */
    method Assemble() returns (batch: seq<string>, bytes: nat, events: nat, fits: bool, ghost batchGroups: seq<seq<string>>, ghost rest: seq<string>)
      requires CarryOk(carry, held, pacer.rate)
      requires SentInOrder(source, rendered, packets, groups, held + Waiting(carry)) && HeldClosed()
      modifies this`rendered, this`carry, this`held, this`heldBudget
      ensures fits ==> batch != [] && BatchSoFar(batch, batchGroups, bytes, events, pacer.rate)
      ensures fits ==> CarryOk(carry, held, pacer.rate)
      ensures fits ==> Prefix(source, rendered) == Flatten(groups) + Flatten(batchGroups) + held + Waiting(carry)
      ensures fits ==> Grown(FrameSizes(source), packets, groups, packets + batch, groups + batchGroups, old(FirstBudget()), pacer.rate,
                             carry, held, heldBudget)
      ensures !fits ==> SentInOrder(source, rendered, packets, groups, rest)
      ensures !fits ==> LastTooLarge(source, rendered)
    {
      var next, left;
      ghost var leftHeld, leftBudget;
      Associate(Flatten(groups), held, Waiting(carry));
      batch, bytes, events, next, left, fits, batchGroups, leftHeld, leftBudget :=
        BuildBatch(source, rendered, carry, pacer.rate, Flatten(groups), held, FirstBudget());
      StaysInOrder(source, rendered, next, packets, groups, held + Waiting(carry));
      rest := Prefix(source, next)[|Flatten(groups)|..];
      if fits {
        BatchAppended(FrameSizes(source), packets, groups, batch, batchGroups, FirstBudget(), pacer.rate, left, leftHeld, leftBudget);
      }
      rendered, carry, held, heldBudget := next, left, leftHeld, leftBudget;
    }

    /** One turn of the loop: build, pace, send, count. */
    method Turn() returns (ending: Ending)
      requires AtHead() && HeldClosed()
      modifies this, pacer, clock, stop, transport, counters
      ensures ending.StillRunning? ==> AtHead()
      ensures !ending.StillRunning? ==> Finished()
      ensures ending.Stopped? || ending.EventTooLarge? ==> transport.sent == packets
      ensures ending.EventTooLarge? ==> LastTooLarge(source, rendered)
      ensures ending.StillRunning? ==> |packets| > |old(packets)|
      ensures ending.Stopped? ==> stop.requested
      ensures old(stop.requested) ==> ending.Stopped?
      ensures Explains(ending, transport.log)
      ensures transport.log != old(transport.log) ==> !stop.requested
      ensures !ending.Stopped? && !ending.EventTooLarge? ==> |transport.log| == |old(transport.log)| + 1
      ensures ending.Stopped? || ending.EventTooLarge? ==> transport.log == old(transport.log)
      ensures ending.StillRunning? ==>
                HeldClosed() && Grown(FrameSizes(source), old(packets), old(groups), packets, groups, old(FirstBudget()), pacer.rate, carry, held, heldBudget)
    {
      var stopped := stop.Requested();
      if stopped {
        LeaveEarly(held + Waiting(carry));
        return Stopped;
      }
      ghost var before, beforeGroups, first := packets, groups, FirstBudget();
      ending := Proceed();
      if ending.StillRunning? {
        GrownHeld(FrameSizes(source), before, beforeGroups, packets, groups, first, pacer.rate, carry, held, heldBudget);
      }
    }

    /** A turn that was not stopped at the head of the loop. */
    method Proceed() returns (ending: Ending)
      requires AtHead() && HeldClosed()
      modifies this, pacer, clock, stop, transport, counters
      ensures ending.StillRunning? ==> AtHead()
      ensures !ending.StillRunning? ==> Finished()
      ensures ending.Stopped? || ending.EventTooLarge? ==> transport.sent == packets
      ensures ending.EventTooLarge? ==> LastTooLarge(source, rendered)
      ensures ending.StillRunning? ==> |packets| > |old(packets)|
      ensures ending.Stopped? ==> stop.requested
      ensures Explains(ending, transport.log)
      ensures transport.log != old(transport.log) ==> !stop.requested
      ensures !ending.Stopped? && !ending.EventTooLarge? ==> |transport.log| == |old(transport.log)| + 1
      ensures ending.Stopped? || ending.EventTooLarge? ==> transport.log == old(transport.log)
      ensures ending.StillRunning? ==>
                Grown(FrameSizes(source), old(packets), old(groups), packets, groups, old(FirstBudget()), pacer.rate, carry, held, heldBudget)
    {
      var batch, bytes, events, fits;
      ghost var batchGroups, rest;
      batch, bytes, events, fits, batchGroups, rest := Assemble();
      if !fits {
        LeaveEarly(rest);
        return EventTooLarge;
      }
      ending := SendBatch(batch, bytes, events, batchGroups);
    }

    /** The second half of a turn: the batch is built, and the state behind it is carried over. */
    method SendBatch(batch: seq<string>, bytes: nat, events: nat, ghost batchGroups: seq<seq<string>>) returns (ending: Ending)
      requires Books(0) && CarryOk(carry, held, pacer.rate)
      requires batch != [] && BatchSoFar(batch, batchGroups, bytes, events, pacer.rate)
      requires Prefix(source, rendered) == Flatten(groups) + Flatten(batchGroups) + held + Waiting(carry)
      modifies this`packets, this`groups, this`sentGroups, this`unsent, pacer, clock, stop, transport, counters
      ensures ending.StillRunning? ==> AtHead()
      ensures !ending.StillRunning? ==> Finished()
      ensures ending.Stopped? ==> transport.sent == packets && stop.requested
      ensures ending.StillRunning? ==> packets == old(packets) + batch && groups == old(groups) + batchGroups
      ensures !ending.EventTooLarge?
      ensures Explains(ending, transport.log)
      ensures transport.log != old(transport.log) ==> !stop.requested
      ensures !ending.Stopped? && !ending.EventTooLarge? ==> |transport.log| == |old(transport.log)| + 1
      ensures ending.Stopped? || ending.EventTooLarge? ==> transport.log == old(transport.log)
    {
      Pace(batch, bytes, events, batchGroups);
      ghost var rest := held + Waiting(carry);
      Associate(Flatten(groups) + Flatten(batchGroups), held, Waiting(carry));
      var stopped := stop.Requested();
      if stopped {
        LeaveUnsent(events, batch, batchGroups, rest);
        return Stopped;
      }
      ending := Deliver(batch, bytes, events, batchGroups, rest);
    }

    method Pace(batch: seq<string>, bytes: nat, events: nat, ghost batchGroups: seq<seq<string>>)
      requires Books(0) && batch != [] && BatchSoFar(batch, batchGroups, bytes, events, pacer.rate)
      modifies pacer, clock, stop
      ensures Books(events)
    {
      BatchEventsBounded(batch, batchGroups, bytes, events, pacer.rate);
      SomeEvents(batch, batchGroups);
      ghost var waits := pacer.waits;
      pacer.Wait(events, clock, stop);
      if pacer.rate > 0 {
        WaitsSnoc(waits, pacer.waits, events);
      }
    }

    method Deliver(batch: seq<string>, bytes: nat, events: nat, ghost batchGroups: seq<seq<string>>, ghost rest: seq<string>)
      returns (ending: Ending)
      requires Books(events) && CarryOk(carry, held, pacer.rate) && rest == held + Waiting(carry)
      requires batch != [] && BatchSoFar(batch, batchGroups, bytes, events, pacer.rate)
      requires Prefix(source, rendered) == Flatten(groups) + Flatten(batchGroups) + rest
      modifies this`packets, this`groups, this`sentGroups, this`unsent, transport, counters
      ensures ending.StillRunning? ==> AtHead()
      ensures ending.StillRunning? ==> packets == old(packets) + batch && groups == old(groups) + batchGroups
      ensures ending == AtLimit || ending == TransportFailed ==> Finished()
      ensures !ending.EventTooLarge? && !ending.Stopped?
      ensures Explains(ending, transport.log) && |transport.log| == |old(transport.log)| + 1
    {
      var delivery;
      ghost var gone;
      ghost var log := transport.log;
      delivery, gone := transport.SendBatch(batch);
      AnswerAdded(log, batch, delivery);
      if delivery != Delivered {
        PartOfBatch(source, rendered, packets, groups, batch, batchGroups, rest, gone);
        Leave(groups + batchGroups[..gone], Flatten(batchGroups[gone..]) + rest);
        return if delivery == LimitHit then AtLimit else TransportFailed;
      }
      assert batch[..gone] == batch;
      HeadStep(source, rendered, packets, groups, batch, batchGroups, rest);
      ByteCountAppend(packets, batch);
      EventCountAppend(groups, batchGroups);
      counters.Record(events, |batch|, bytes, PublishThreshold(pacer.rate), |Flatten(groups)|, |packets|, |Concat(packets)|);
      packets, groups := packets + batch, groups + batchGroups;
      return StillRunning;
    }

    /** Any number of turns: the worker ends finished, or is observed at the head of its loop. */
    method Run(rounds: nat) returns (ending: Ending)
      requires AtHead() && HeldClosed()
      modifies this, pacer, clock, stop, transport, counters
      ensures if ending.StillRunning? then AtHead() && HeldClosed() else Finished()
      ensures ending.StillRunning? ==> |packets| >= |old(packets)| + rounds
      ensures ending.Stopped? ==> stop.requested
      ensures Explains(ending, transport.log)
      ensures ending.StillRunning? ==> |transport.log| == |old(transport.log)| + rounds
      ensures transport.log != old(transport.log) && !ending.Stopped? && !ending.EventTooLarge? ==> !stop.requested
    {
      ending := StillRunning;
      for round := 0 to rounds
        invariant AtHead() && HeldClosed() && ending.StillRunning?
        invariant |packets| >= |old(packets)| + round
        invariant |transport.log| == |old(transport.log)| + round
        invariant if round == 0 then transport.log == old(transport.log) else !stop.requested
      {
        ending := Turn();
        if !ending.StillRunning? {
          return;
        }
      }
      NothingRefused(StillRunning, transport.log);
    }
  }
}
