/** The sending side of a channel (src/MPMC/producer.rs): the size check,
    the stamping of each message's metadata, and message-id allocation from
    the producer's sequence counter, layered on the ring.

    The wall clock and the process id are parameters (`now`, `pid`). The
    counter is a `u64` that `fetch_add` wraps; ids are computed with that
    wrap-around. */
module Producers {
  import opened Common
  import opened Meta
  import opened Buffer

  datatype Producer = Producer(
    channelId: u32,
    keepAlive: bool,
    maxMessageSize: nat,
    counter: u64)

  /** `Producer::new`: payloads are limited to what fits inline in a slot,
      the counter starts at 0 and the keep-alive flag is set. */
  function New(channelId: u32): (p: Producer)
    ensures p.channelId == channelId && p.keepAlive
    ensures p.counter == 0 && p.maxMessageSize == MSG_INLINE
  {
    Producer(channelId, true, MSG_INLINE, 0)
  }

  /** The metadata a producer stamps on a message: the given id and time,
      its channel, message type 1, runtime 1 (Rust), no flags, and the
      payload length. */
  function StampMeta(p: Producer, id: u64, now: u64, pid: u32, len: nat): MessageMeta
  {
    MessageMeta(id, now, p.channelId, 1, pid, 1, 0, AsU32(len))
  }

  /** The producer and ring after a send, and what the send returned. */
  datatype Sent = Sent(producer: Producer, ring: RingBuffer, result: Result<()>)

  /** The ring cannot be half-way through another producer's step: the slot
      of `tail` is not ahead of it. In such a state the source spins until
      that step completes; every valid ring satisfies this (`ValidTailSettled`). */
  predicate TailSettled(r: RingBuffer)
  {
    Shaped(r) && SeqAt(r, r.tail) <= r.tail
  }

  /** Every valid ring, of any capacity (one slot included), has its tail
      slot free or still holding the message at `head`, never ahead: a send
      never spins on it. */
  lemma ValidTailSettled(r: RingBuffer)
    requires Valid(r)
    ensures TailSettled(r)
  {
    if r.tail == r.head + r.capacity {
      ModShift(r.head, r.capacity);
      assert SeqAt(r, r.tail) == SeqAt(r, r.head) == r.head + 1;
    } else {
      assert SeqAt(r, r.tail) == r.tail;
    }
  }

  /** `send`: a payload longer than the producer's limit is invalid input,
      refused before an id is taken or the ring is touched. Otherwise the
      next id is taken (and stays taken whatever happens next), the message
      is stamped and enqueued; a full ring is reported as a broken pipe
      once the keep-alive flag is clear, and as "would block" before. */
  function Send(p: Producer, r: RingBuffer, payload: seq<byte>, now: u64, pid: u32): (o: Sent)
    requires TailSettled(r)
    ensures o.result == Err(InvalidInput) <==> |payload| > p.maxMessageSize
    ensures |payload| > p.maxMessageSize ==> o.producer == p && o.ring == r
    ensures |payload| <= p.maxMessageSize ==>
      && o.producer == p.(counter := AsU64(p.counter + 1))
      && (o.result.Ok? <==> SeqAt(r, r.tail) == r.tail)
      && (o.result.Err? ==>
            && o.ring == r
            && o.result.error == (if p.keepAlive then WouldBlock else BrokenPipe))
      && (o.result.Ok? ==>
            && Shaped(o.ring) && o.ring.capacity == r.capacity
            && o.ring.tail == r.tail + 1 && o.ring.head == r.head
            && o.ring.slots[SlotIndex(r, r.tail)].meta == StampMeta(p, p.counter, now, pid, |payload|))
  {
    if |payload| > p.maxMessageSize then Sent(p, r, Err(InvalidInput))
    else
      var p' := p.(counter := AsU64(p.counter + 1));
      match Enqueue(r, StampMeta(p, p.counter, now, pid, |payload|), payload)
        case Enqueued(_, r') => Sent(p', r', Ok(()))
        case _ => Sent(p', r, Err(if p.keepAlive then WouldBlock else BrokenPipe))
  }

  /** On a valid ring, `send` refines `Push` of the stamped message: it
      succeeds exactly when the payload is within the limit and the queue is
      below capacity, and then appends the message with its payload intact. */
  lemma SendRefinesPush(p: Producer, r: RingBuffer, payload: seq<byte>, now: u64, pid: u32)
    requires Valid(r) && r.capacity >= 2 && p.maxMessageSize <= MSG_INLINE
    ensures TailSettled(r)
    ensures var o := Send(p, r, payload, now, pid);
      && Valid(o.ring)
      && (o.result.Ok? <==> |payload| <= p.maxMessageSize && |Contents(r)| < r.capacity)
      && (o.result.Ok? ==>
            Contents(o.ring) == Contents(r) + [Item(StampMeta(p, p.counter, now, pid, |payload|), payload)])
      && (o.result.Err? ==> Contents(o.ring) == Contents(r))
  {
    TailSlot(r);
    var meta := StampMeta(p, p.counter, now, pid, |payload|);
    EnqueueRefinesPush(r, meta, payload);
    assert Stamped(meta, payload) == Item(meta, payload);
  }

  /** A new producer accepts exactly the payloads that fit inline. */
  lemma NewProducerLimit(channelId: u32, r: RingBuffer, payload: seq<byte>, now: u64, pid: u32)
    requires TailSettled(r)
    ensures New(channelId).counter == 0 && New(channelId).maxMessageSize == MSG_INLINE
    ensures Send(New(channelId), r, payload, now, pid).result != Err(InvalidInput) <==> |payload| <= MSG_INLINE
  {
  }

  // ---------------------------------------------------------------------
  // Batches.

  /** The messages of a batch as stamped: item `i` gets id `base + i` (in
      `u64` arithmetic) and all share one timestamp. */
  function BatchItems(p: Producer, base: u64, now: u64, pid: u32, payloads: seq<seq<byte>>): (items: seq<Item>)
    ensures |items| == |payloads|
    ensures forall i :: 0 <= i < |items| ==>
      && items[i].payload == payloads[i]
      && items[i].meta.messageId == AsU64(base + i)
      && items[i].meta.timestampNs == now
  {
    seq(|payloads|, i requires 0 <= i < |payloads| =>
      Item(StampMeta(p, AsU64(base + i), now, pid, |payloads[i]|), payloads[i]))
  }

  /** `send_batch` as written: an empty batch succeeds at once and takes no
      ids. Otherwise `n` ids are taken up front (and stay taken), the items
      are stamped, and the ring takes the whole batch or none of it; a
      refusal is "would block". No payload size is checked. */
  function SendBatchAsWritten(p: Producer, r: RingBuffer, payloads: seq<seq<byte>>, now: u64, pid: u32): (o: Sent)
    requires Shaped(r)
    ensures |payloads| == 0 ==> o == Sent(p, r, Ok(()))
    ensures |payloads| > 0 ==> o.producer == p.(counter := AsU64(p.counter + |payloads|))
    ensures o.result.Ok? <==> |payloads| == 0 || (|payloads| <= r.capacity && AllFree(r, |payloads|))
    ensures o.result.Err? ==> o.result == Err(WouldBlock) && o.ring == r
  {
    if |payloads| == 0 then Sent(p, r, Ok(()))
    else
      var p' := p.(counter := AsU64(p.counter + |payloads|));
      match EnqueueBatch(r, BatchItems(p, p.counter, now, pid, payloads))
        case Batched(_, r') => Sent(p', r', Ok(()))
        case Rejected => Sent(p', r, Err(WouldBlock))
  }

  predicate AllWithin(payloads: seq<seq<byte>>, limit: nat)
  {
    forall i :: 0 <= i < |payloads| ==> |payloads[i]| <= limit
  }

  /** `send_batch` with the check `send` performs: a batch holding any
      payload over the producer's limit is invalid input, refused before
      ids are taken; otherwise as written. */
  function SendBatch(p: Producer, r: RingBuffer, payloads: seq<seq<byte>>, now: u64, pid: u32): (o: Sent)
    requires Shaped(r)
    ensures !AllWithin(payloads, p.maxMessageSize) ==> o == Sent(p, r, Err(InvalidInput))
    ensures AllWithin(payloads, p.maxMessageSize) ==> o == SendBatchAsWritten(p, r, payloads, now, pid)
  {
    if !AllWithin(payloads, p.maxMessageSize) then Sent(p, r, Err(InvalidInput))
    else SendBatchAsWritten(p, r, payloads, now, pid)
  }

  lemma BatchFits(p: Producer, base: u64, now: u64, pid: u32, payloads: seq<seq<byte>>)
    requires AllWithin(payloads, MSG_INLINE)
    ensures FitsInline(BatchItems(p, base, now, pid, payloads))
    ensures StampAll(BatchItems(p, base, now, pid, payloads)) == BatchItems(p, base, now, pid, payloads)
  {
    var items := BatchItems(p, base, now, pid, payloads);
    assert forall i :: 0 <= i < |items| ==> Stamped(items[i].meta, items[i].payload) == items[i];
  }

  /** On a valid ring, the checked `send_batch` refines `PushAll` of the
      stamped batch: all of it is appended, in order and intact, exactly
      when every payload is within the limit and the whole batch fits;
      otherwise the queue is unchanged. */
  lemma SendBatchRefinesPushAll(p: Producer, r: RingBuffer, payloads: seq<seq<byte>>, now: u64, pid: u32)
    requires Valid(r) && r.capacity >= 2 && p.maxMessageSize <= MSG_INLINE
    ensures var o := SendBatch(p, r, payloads, now, pid);
      && Valid(o.ring)
      && (o.result.Ok? <==>
            AllWithin(payloads, p.maxMessageSize) && |Contents(r)| + |payloads| <= r.capacity)
      && (o.result.Ok? ==>
            Contents(o.ring) == Contents(r) + BatchItems(p, p.counter, now, pid, payloads))
      && (o.result.Err? ==> Contents(o.ring) == Contents(r))
  {
    if AllWithin(payloads, p.maxMessageSize) {
      var items := BatchItems(p, p.counter, now, pid, payloads);
      BatchFits(p, p.counter, now, pid, payloads);
      EnqueueBatchRefinesPushAll(r, items);
      if |payloads| == 0 {
        assert Contents(r) + items == Contents(r);
      }
    }
  }

  /** Finding: `send_batch` lets a payload one byte over the inline size
      through. The batch is accepted into an empty ring; the slot it fills
      holds only the inline prefix of the payload, yet records the full
      length. A dequeue takes the message from that slot and copies
      `payload_len` bytes, more than the slot holds. The checked version
      refuses the batch. */
  lemma OversizedBatchTruncated(p: Producer, r: RingBuffer, payload: seq<byte>, now: u64, pid: u32)
    requires Valid(r) && r.capacity >= 2 && Contents(r) == []
    requires |payload| == MSG_INLINE + 1 && p.maxMessageSize == MSG_INLINE
    ensures var o := SendBatchAsWritten(p, r, [payload], now, pid);
      var s := o.ring.slots[SlotIndex(r, r.tail)];
      && o.result.Ok?
      && s.data == payload[..MSG_INLINE]
      && s.meta.payloadLen == AsU32(|payload|)
      && (|payload| < 0x1_0000_0000 ==> s.meta.payloadLen > |s.data|)
      && Dequeue(o.ring).Dequeued?
      && Dequeue(o.ring).item.meta == s.meta
    ensures SendBatch(p, r, [payload], now, pid).result == Err(InvalidInput)
  {
    var items := BatchItems(p, p.counter, now, pid, [payload]);
    AllFreeIffFits(r, 1);
    var r' := EnqueueBatch(r, items).ring;
    WriteBatchNew(r, items, r.tail);
    var k := SlotIndex(r, r.tail);
    assert r'.slots[k] == Write(r.slots[k], r.tail + 1, items[0].meta, payload);
    assert SlotIndex(r', r'.head) == k;
  }
}
