/** The per-channel bounded queue (src/MPMC/Buffer/Buffer_impl.rs): a ring of
    `capacity` slots driven by the sequence-number protocol. Each slot carries
    a sequence number, a metadata record and `MSG_INLINE` payload bytes; the
    channel entry carries the `head` (consumer) and `tail` (producer) cursors.

    Each operation is modelled as one atomic step: the successful
    compare-exchange on a cursor is where it takes effect, and a failed
    compare-exchange is a retry that changes nothing. Where the source spins
    because another thread is half-way through an operation, the model
    returns `Spin` or `Unpublished`; in the states reachable through whole steps
    (`Valid`) that never happens.

    Cursors are unbounded; the source's `u64` cursors and the signed
    `seq as i64 - tail as i64` differences are assumed never to wrap. */
module Buffer {
  import opened Common
  import opened Meta

  datatype Slot = Slot(sequence: nat, meta: MessageMeta, data: seq<byte>)

  datatype RingBuffer = RingBuffer(
    capacity: nat,
    mask: nat,
    head: nat,
    tail: nat,
    slots: seq<Slot>)

  /** A message as the queue hands it out: metadata plus payload bytes. */
  datatype Item = Item(meta: MessageMeta, payload: seq<byte>)

  /** The slot memory as the allocator lays it out: `capacity` slots, each
      with exactly `MSG_INLINE` inline payload bytes. */
  predicate Shaped(r: RingBuffer)
  {
    && r.capacity > 0
    && |r.slots| == r.capacity
    && forall k :: 0 <= k < |r.slots| ==> |r.slots[k].data| == MSG_INLINE
  }

  /** The slot that position `p` maps to: `p & mask`, which for a
      power-of-two capacity is `p % capacity`. */
  function SlotIndex(r: RingBuffer, p: nat): (k: nat)
    requires Shaped(r)
    ensures k < r.capacity
  {
    Mod(p, r.capacity)
  }

  function SeqAt(r: RingBuffer, p: nat): nat
    requires Shaped(r)
  {
    r.slots[SlotIndex(r, p)].sequence
  }

  /** The sequence-number invariant: positions in `[head, tail)` are filled
      and carry `p + 1`, positions in `[tail, head + capacity)` are free and
      carry `p`. */
  predicate Valid(r: RingBuffer)
  {
    && Shaped(r)
    && IsPowerOfTwo(r.capacity)
    && r.mask == r.capacity - 1
    && r.head <= r.tail <= r.head + r.capacity
    && (forall p: nat :: r.head <= p < r.tail ==> SeqAt(r, p) == p + 1)
    && (forall p: nat :: r.tail <= p < r.head + r.capacity ==> SeqAt(r, p) == p)
  }

  /** The bytes a dequeue copies out of a slot: `payload_len` bytes from the
      inline area. A length beyond the inline area makes the source read past
      the slot; the model returns only the inline bytes then. */
  function Read(s: Slot): (b: seq<byte>)
    ensures |b| == Min(s.meta.payloadLen, |s.data|)
    ensures b == s.data[..|b|]
  {
    if s.meta.payloadLen <= |s.data| then s.data[..s.meta.payloadLen] else s.data
  }

  function ItemAt(r: RingBuffer, p: nat): Item
    requires Shaped(r)
  {
    var s := r.slots[SlotIndex(r, p)];
    Item(s.meta, Read(s))
  }

  /** The abstract queue a ring represents: the messages at positions
      `head .. tail - 1`, oldest first. */
  function Contents(r: RingBuffer): (q: seq<Item>)
    requires Shaped(r) && r.head <= r.tail
    ensures |q| == r.tail - r.head
  {
    seq(r.tail - r.head, i requires 0 <= i < r.tail - r.head => ItemAt(r, r.head + i))
  }

  // ---------------------------------------------------------------------
  // The reference behaviour: a bounded FIFO of messages.

  /** What an enqueue of `payload` with metadata `meta` stores: the metadata
      with `payload_len` set to the payload length (`as u32`). */
  function Stamped(meta: MessageMeta, payload: seq<byte>): Item
  {
    Item(meta.(payloadLen := AsU32(|payload|)), payload)
  }

  function StampAll(items: seq<Item>): (q: seq<Item>)
    ensures |q| == |items|
  {
    seq(|items|, i requires 0 <= i < |items| => Stamped(items[i].meta, items[i].payload))
  }

  function Push(q: seq<Item>, bound: nat, x: Item): Option<seq<Item>>
  {
    if |q| < bound then Some(q + [x]) else None
  }

  function PushAll(q: seq<Item>, bound: nat, xs: seq<Item>): Option<seq<Item>>
  {
    if |q| + |xs| <= bound then Some(q + xs) else None
  }

  function Pop(q: seq<Item>): Option<(Item, seq<Item>)>
  {
    if |q| == 0 then None else Some((q[0], q[1..]))
  }

  predicate FitsInline(items: seq<Item>)
  {
    forall i :: 0 <= i < |items| ==> |items[i].payload| <= MSG_INLINE
  }

  // ---------------------------------------------------------------------
  // Construction.

  /** `RingBuffer::new`: a view over an existing channel entry and its slot
      memory. `capacity - 1` underflows for a zero capacity, which callers
      never pass (the allocator only views initialised channels). */
  function New(capacity: nat, head: nat, tail: nat, slots: seq<Slot>): (r: RingBuffer)
    requires capacity > 0
    ensures r.capacity == capacity && r.mask == capacity - 1
    ensures r.head == head && r.tail == tail && r.slots == slots
    ensures Shaped(r) <==>
      |slots| == capacity && forall k :: 0 <= k < |slots| ==> |slots[k].data| == MSG_INLINE
  {
    RingBuffer(capacity, capacity - 1, head, tail, slots)
  }

  /** `init_slots`: slot `k` gets sequence number `k`; metadata and payload
      bytes are left as they are. */
  function InitSlots(r: RingBuffer): (r': RingBuffer)
    requires Shaped(r)
    ensures r'.head == r.head && r'.tail == r.tail && r'.capacity == r.capacity && r'.mask == r.mask
    ensures Shaped(r')
    ensures forall k :: 0 <= k < r.capacity ==> r'.slots[k].sequence == k
    ensures forall k :: 0 <= k < r.capacity ==>
      r'.slots[k].meta == r.slots[k].meta && r'.slots[k].data == r.slots[k].data
  {
    r.(slots := seq(r.capacity, k requires 0 <= k < r.capacity => r.slots[k].(sequence := k)))
  }

  /** The ring a newly created channel starts with: cursors at zero and
      initialised slots. Slot memory the model has not seen is zero-filled;
      it is never read before it is written. */
  function Fresh(capacity: nat): RingBuffer
    requires capacity > 0
  {
    var blank := Slot(0, DefaultMeta, seq(MSG_INLINE, _ => 0));
    InitSlots(New(capacity, 0, 0, seq(capacity, _ => blank)))
  }

  /** A freshly initialised power-of-two ring satisfies the invariant and
      represents the empty queue. */
  lemma FreshIsEmpty(capacity: nat)
    requires IsPowerOfTwo(capacity)
    ensures Valid(Fresh(capacity)) && Contents(Fresh(capacity)) == []
  {
    var r := Fresh(capacity);
    forall p: nat | 0 <= p < capacity
      ensures SeqAt(r, p) == p
    {
      assert SlotIndex(r, p) == p;
    }
  }

  // ---------------------------------------------------------------------
  // Enqueue.

  /** Storing a message into a slot: the metadata with `payload_len` set to
      the full length, but only the first `min(len, MSG_INLINE)` payload
      bytes copied over the slot's inline area. */
  function Write(s: Slot, sequence: nat, meta: MessageMeta, payload: seq<byte>): (s': Slot)
    requires |s.data| == MSG_INLINE
    ensures |s'.data| == MSG_INLINE
    ensures s'.sequence == sequence && s'.meta == Stamped(meta, payload).meta
    ensures |payload| <= MSG_INLINE ==> Read(s') == payload
    ensures |payload| > MSG_INLINE ==> s'.data == payload[..MSG_INLINE]
  {
    var n := Min(|payload|, MSG_INLINE);
    Slot(sequence, meta.(payloadLen := AsU32(|payload|)), payload[..n] + s.data[n..])
  }

  datatype EnqueueOutcome = Enqueued(index: nat, ring: RingBuffer) | Full | Spin

  /** `enqueue`: succeeds exactly when the slot of position `tail` carries
      sequence `tail`; it then stores the message there, publishes sequence
      `tail + 1`, advances `tail` and returns the slot index. A smaller
      sequence means the ring is full. */
  function Enqueue(r: RingBuffer, meta: MessageMeta, payload: seq<byte>): (o: EnqueueOutcome)
    requires Shaped(r)
    ensures o.Enqueued? <==> SeqAt(r, r.tail) == r.tail
    ensures o.Full? <==> SeqAt(r, r.tail) < r.tail
    ensures o.Enqueued? ==>
      && o.index == SlotIndex(r, r.tail)
      && Shaped(o.ring)
      && o.ring.head == r.head && o.ring.tail == r.tail + 1
      && o.ring.capacity == r.capacity && o.ring.mask == r.mask
      && o.ring.slots[o.index].sequence == r.tail + 1
      && o.ring.slots[o.index].meta == Stamped(meta, payload).meta
      && (forall k :: 0 <= k < r.capacity && k != o.index ==> o.ring.slots[k] == r.slots[k])
  {
    var idx := SlotIndex(r, r.tail);
    var s := r.slots[idx];
    if s.sequence == r.tail then
      Enqueued(idx, r.(tail := r.tail + 1, slots := r.slots[idx := Write(s, r.tail + 1, meta, payload)]))
    else if s.sequence < r.tail then
      Full
    else
      Spin
  }

  /** On a valid ring of at least two slots the slot of `tail` is free
      exactly when the queue is below capacity, and is never ahead of it. */
  lemma TailSlot(r: RingBuffer)
    requires Valid(r) && r.capacity >= 2
    ensures SeqAt(r, r.tail) <= r.tail
    ensures SeqAt(r, r.tail) == r.tail <==> r.tail < r.head + r.capacity
  {
    if r.tail == r.head + r.capacity {
      ModShift(r.head, r.capacity);
      assert SeqAt(r, r.tail) == SeqAt(r, r.head) == r.head + 1;
    }
  }

  /** A successful enqueue on a valid ring keeps the sequence invariant. */
  lemma EnqueueKeepsValid(r: RingBuffer, meta: MessageMeta, payload: seq<byte>)
    requires Valid(r) && r.tail < r.head + r.capacity
    ensures Enqueue(r, meta, payload).Enqueued?
    ensures Valid(Enqueue(r, meta, payload).ring)
  {
    var cap := r.capacity;
    var r' := Enqueue(r, meta, payload).ring;
    forall p: nat | r'.head <= p < r'.head + cap && p != r.tail
      ensures SeqAt(r', p) == SeqAt(r, p)
    {
      if p < r.tail { ModDistinct(p, r.tail, cap); } else { ModDistinct(r.tail, p, cap); }
    }
  }

  /** ... and appends the stamped message to the queue it represents. */
  lemma EnqueueAppends(r: RingBuffer, meta: MessageMeta, payload: seq<byte>)
    requires Shaped(r) && r.head <= r.tail < r.head + r.capacity && SeqAt(r, r.tail) == r.tail
    requires |payload| <= MSG_INLINE
    ensures Enqueue(r, meta, payload).Enqueued?
    ensures Contents(Enqueue(r, meta, payload).ring) == Contents(r) + [Stamped(meta, payload)]
  {
    var cap := r.capacity;
    var r' := Enqueue(r, meta, payload).ring;
    var q := Contents(r) + [Stamped(meta, payload)];
    forall i | 0 <= i < |q|
      ensures Contents(r')[i] == q[i]
    {
      if i < |Contents(r)| {
        ModDistinct(r.head + i, r.tail, cap);
        assert ItemAt(r', r.head + i) == ItemAt(r, r.head + i);
      } else {
        var k := SlotIndex(r, r.tail);
        assert r'.slots[k] == Write(r.slots[k], r.tail + 1, meta, payload);
        assert ItemAt(r', r.tail) == Stamped(meta, payload);
      }
    }
  }

  /** `enqueue` refines `Push` on the abstract queue, for rings of at least
      two slots: it succeeds exactly when the queue is below capacity, keeps
      the invariant, and appends the stamped message. */
  lemma EnqueueRefinesPush(r: RingBuffer, meta: MessageMeta, payload: seq<byte>)
    requires Valid(r) && r.capacity >= 2
    ensures var o := Enqueue(r, meta, payload);
      && !o.Spin?
      && (o.Enqueued? <==> Push(Contents(r), r.capacity, Stamped(meta, payload)).Some?)
      && (o.Enqueued? ==> Valid(o.ring))
      && (o.Enqueued? && |payload| <= MSG_INLINE ==>
            Contents(o.ring) == Push(Contents(r), r.capacity, Stamped(meta, payload)).value)
  {
    TailSlot(r);
    if r.tail < r.head + r.capacity {
      EnqueueKeepsValid(r, meta, payload);
      if |payload| <= MSG_INLINE {
        EnqueueAppends(r, meta, payload);
      }
    }
  }

  // ---------------------------------------------------------------------
  // Batch enqueue.

  /** Every slot of positions `tail .. tail + n - 1` is free for that
      position (`dif == 0` for each; any other difference rejects). */
  predicate AllFree(r: RingBuffer, n: nat)
    requires Shaped(r)
  {
    forall p: nat :: r.tail <= p < r.tail + n ==> SeqAt(r, p) == p
  }

  /** The slots after item `i` of the batch has been stored at position
      `tail + i` with sequence `tail + i + 1`, for every `i`. */
  function WriteBatch(r: RingBuffer, items: seq<Item>): (slots: seq<Slot>)
    requires Shaped(r) && |items| <= r.capacity
    ensures |slots| == r.capacity
    ensures forall k :: 0 <= k < r.capacity ==> |slots[k].data| == MSG_INLINE
  {
    seq(r.capacity, k requires 0 <= k < r.capacity =>
      var i := WindowOffset(r.tail, k, r.capacity);
      if i < |items| then Write(r.slots[k], r.tail + i + 1, items[i].meta, items[i].payload)
      else r.slots[k])
  }

  /** Position `tail + i` of the batch window receives item `i`. */
  lemma WriteBatchNew(r: RingBuffer, items: seq<Item>, p: nat)
    requires Shaped(r) && |items| <= r.capacity
    requires r.tail <= p < r.tail + |items|
    ensures WriteBatch(r, items)[SlotIndex(r, p)] ==
      Write(r.slots[SlotIndex(r, p)], p + 1, items[p - r.tail].meta, items[p - r.tail].payload)
  {
    WindowOffsetOf(r.tail, p - r.tail, r.capacity);
  }

  /** Every other position of the ring, filled or free, keeps its slot as long
      as the batch does not reach round to `head`. */
  lemma WriteBatchOld(r: RingBuffer, items: seq<Item>, p: nat)
    requires Shaped(r) && |items| <= r.capacity
    requires r.head <= r.tail && r.tail + |items| <= r.head + r.capacity
    requires r.head <= p < r.tail || r.tail + |items| <= p < r.tail + r.capacity
    ensures WriteBatch(r, items)[SlotIndex(r, p)] == r.slots[SlotIndex(r, p)]
  {
    var cap := r.capacity;
    var k := SlotIndex(r, p);
    var i := WindowOffset(r.tail, k, cap);
    if p >= r.tail {
      WindowOffsetOf(r.tail, p - r.tail, cap);
    } else if i < |items| {
      WindowOffsetAt(r.tail, k, cap);
      ModDistinct(p, r.tail + i, cap);
    }
  }

  datatype BatchOutcome = Batched(index: nat, ring: RingBuffer) | Rejected

  /** `enqueue_batch`: all or nothing. An empty batch succeeds with index 0
      and no change; a batch larger than the ring, or one meeting any slot
      that is not free, is rejected and writes nothing; otherwise item `i`
      is stored at position `tail + i`, `tail` advances by the batch size
      and the slot index of the old `tail` is returned. */
  function EnqueueBatch(r: RingBuffer, items: seq<Item>): (o: BatchOutcome)
    requires Shaped(r)
    ensures o.Batched? <==> |items| == 0 || (|items| <= r.capacity && AllFree(r, |items|))
    ensures |items| == 0 ==> o == Batched(0, r)
    ensures o.Batched? && |items| > 0 ==>
      && o.index == SlotIndex(r, r.tail)
      && Shaped(o.ring)
      && o.ring.head == r.head && o.ring.tail == r.tail + |items|
      && o.ring.capacity == r.capacity && o.ring.mask == r.mask
  {
    if |items| == 0 then Batched(0, r)
    else if |items| > r.capacity then Rejected
    else if !AllFree(r, |items|) then Rejected
    else Batched(SlotIndex(r, r.tail), r.(tail := r.tail + |items|, slots := WriteBatch(r, items)))
  }

  /** On a valid ring of at least two slots, the free-slot scan succeeds
      exactly when the batch fits below capacity. */
  lemma AllFreeIffFits(r: RingBuffer, n: nat)
    requires Valid(r) && r.capacity >= 2 && n <= r.capacity
    ensures AllFree(r, n) <==> r.tail + n <= r.head + r.capacity
  {
    if r.tail + n > r.head + r.capacity {
      var p: nat := r.head + r.capacity;
      ModShift(r.head, r.capacity);
      assert SeqAt(r, p) == SeqAt(r, r.head) == r.head + 1;
    }
  }

  /** A successful batch on a valid ring keeps the sequence invariant. */
  lemma EnqueueBatchKeepsValid(r: RingBuffer, items: seq<Item>)
    requires Valid(r) && r.capacity >= 2
    requires 0 < |items| && r.tail + |items| <= r.head + r.capacity
    ensures EnqueueBatch(r, items).Batched?
    ensures Valid(EnqueueBatch(r, items).ring)
  {
    var cap := r.capacity;
    AllFreeIffFits(r, |items|);
    var r' := EnqueueBatch(r, items).ring;
    forall p: nat | r'.head <= p < r'.tail
      ensures SeqAt(r', p) == p + 1
    {
      if p < r.tail {
        WriteBatchOld(r, items, p);
        assert SeqAt(r', p) == SeqAt(r, p);
      } else {
        WriteBatchNew(r, items, p);
      }
    }
    forall p: nat | r'.tail <= p < r'.head + cap
      ensures SeqAt(r', p) == p
    {
      WriteBatchOld(r, items, p);
      assert SeqAt(r', p) == SeqAt(r, p);
    }
  }

  lemma EnqueueBatchItemAt(r: RingBuffer, items: seq<Item>, i: nat)
    requires Shaped(r) && r.head <= r.tail && AllFree(r, |items|)
    requires 0 < |items| && r.tail + |items| <= r.head + r.capacity && FitsInline(items)
    requires i < r.tail - r.head + |items|
    ensures EnqueueBatch(r, items).Batched?
    ensures Contents(EnqueueBatch(r, items).ring)[i] == (Contents(r) + StampAll(items))[i]
  {
    var p := r.head + i;
    var r' := EnqueueBatch(r, items).ring;
    assert Contents(r')[i] == ItemAt(r', p);
    if p < r.tail {
      WriteBatchOld(r, items, p);
      assert (Contents(r) + StampAll(items))[i] == Contents(r)[i] == ItemAt(r, p);
    } else {
      var j := p - r.tail;
      WriteBatchNew(r, items, p);
      assert (Contents(r) + StampAll(items))[i] == StampAll(items)[j];
      assert ItemAt(r', p) == Stamped(items[j].meta, items[j].payload);
    }
  }

  /** ... and appends the stamped messages, in order, to the queue. */
  lemma EnqueueBatchAppends(r: RingBuffer, items: seq<Item>)
    requires Valid(r) && r.capacity >= 2
    requires 0 < |items| && r.tail + |items| <= r.head + r.capacity && FitsInline(items)
    ensures EnqueueBatch(r, items).Batched?
    ensures Contents(EnqueueBatch(r, items).ring) == Contents(r) + StampAll(items)
  {
    AllFreeIffFits(r, |items|);
    forall i | 0 <= i < r.tail - r.head + |items|
      ensures Contents(EnqueueBatch(r, items).ring)[i] == (Contents(r) + StampAll(items))[i]
    {
      EnqueueBatchItemAt(r, items, i);
    }
  }

  /** `enqueue_batch` refines `PushAll`: it succeeds exactly when the whole
      batch fits, keeps the invariant, and appends the stamped messages in
      order. */
  lemma EnqueueBatchRefinesPushAll(r: RingBuffer, items: seq<Item>)
    requires Valid(r) && r.capacity >= 2
    ensures var o := EnqueueBatch(r, items);
      && (o.Batched? <==> PushAll(Contents(r), r.capacity, StampAll(items)).Some?)
      && (o.Batched? ==> Valid(o.ring))
      && (o.Batched? && FitsInline(items) ==>
            Contents(o.ring) == PushAll(Contents(r), r.capacity, StampAll(items)).value)
  {
    var n := |items|;
    if n == 0 {
      assert Contents(r) + StampAll(items) == Contents(r);
    } else if n <= r.capacity {
      AllFreeIffFits(r, n);
      if r.tail + n <= r.head + r.capacity {
        EnqueueBatchKeepsValid(r, items);
        if FitsInline(items) {
          EnqueueBatchAppends(r, items);
        }
      }
    }
  }

  // ---------------------------------------------------------------------
  // Dequeue.

  datatype DequeueOutcome = Dequeued(item: Item, ring: RingBuffer) | Empty | Unpublished

  /** `dequeue`: succeeds exactly when the slot of position `head` carries
      `head + 1`; it returns the stored metadata and `payload_len` bytes,
      releases the slot with sequence `head + capacity` and advances `head`.
      A smaller sequence means the ring is empty. */
  function Dequeue(r: RingBuffer): (o: DequeueOutcome)
    requires Shaped(r)
    ensures o.Dequeued? <==> SeqAt(r, r.head) == r.head + 1
    ensures o.Empty? <==> SeqAt(r, r.head) < r.head + 1
    ensures o.Dequeued? ==>
      && o.item == ItemAt(r, r.head)
      && Shaped(o.ring)
      && o.ring.head == r.head + 1 && o.ring.tail == r.tail
      && o.ring.capacity == r.capacity && o.ring.mask == r.mask
      && o.ring.slots[SlotIndex(r, r.head)].sequence == r.head + r.capacity
      && (forall k :: 0 <= k < r.capacity && k != SlotIndex(r, r.head) ==> o.ring.slots[k] == r.slots[k])
  {
    var idx := SlotIndex(r, r.head);
    var s := r.slots[idx];
    if s.sequence == r.head + 1 then
      Dequeued(Item(s.meta, Read(s)),
               r.(head := r.head + 1, slots := r.slots[idx := s.(sequence := r.head + r.capacity)]))
    else if s.sequence < r.head + 1 then
      Empty
    else
      Unpublished
  }

  /** A successful dequeue on a valid ring keeps the sequence invariant. */
  lemma DequeueKeepsValid(r: RingBuffer)
    requires Valid(r) && r.head < r.tail
    ensures Dequeue(r).Dequeued?
    ensures Valid(Dequeue(r).ring)
  {
    var cap := r.capacity;
    var r' := Dequeue(r).ring;
    forall p: nat | r.head < p < r.head + cap
      ensures SeqAt(r', p) == SeqAt(r, p)
    {
      ModDistinct(r.head, p, cap);
    }
    ModShift(r.head, cap);
  }

  /** ... and hands out the oldest message, leaving the rest in order. */
  lemma DequeueTakesFirst(r: RingBuffer)
    requires Shaped(r) && r.head < r.tail <= r.head + r.capacity
    requires SeqAt(r, r.head) == r.head + 1
    ensures Dequeue(r).Dequeued?
    ensures Dequeue(r).item == Contents(r)[0]
    ensures Contents(Dequeue(r).ring) == Contents(r)[1..]
  {
    var cap := r.capacity;
    var r' := Dequeue(r).ring;
    forall i | 0 <= i < r.tail - r.head - 1
      ensures Contents(r')[i] == Contents(r)[1..][i]
    {
      ModDistinct(r.head, r.head + 1 + i, cap);
      assert ItemAt(r', r.head + 1 + i) == ItemAt(r, r.head + 1 + i);
    }
  }

  /** `dequeue` refines `Pop`: on a valid ring it never spins, succeeds
      exactly when the queue is non-empty, returns the oldest message and
      keeps the invariant with that message removed. */
  lemma DequeueRefinesPop(r: RingBuffer)
    requires Valid(r)
    ensures var o := Dequeue(r);
      && !o.Unpublished?
      && (o.Dequeued? <==> Pop(Contents(r)).Some?)
      && (o.Dequeued? ==>
            && Valid(o.ring)
            && (o.item, Contents(o.ring)) == Pop(Contents(r)).value)
  {
    if r.head < r.tail {
      assert SeqAt(r, r.head) == r.head + 1;
      DequeueKeepsValid(r);
      DequeueTakesFirst(r);
    } else {
      assert SeqAt(r, r.head) == r.head;
    }
  }
}
