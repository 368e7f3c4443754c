/** Behaviour of the ring over sequences of operations: messages come out
    whole and in the order they went in, the capacity bound is exact, and
    (as a finding) a one-slot ring breaks the protocol. */
module Fifo {
  import opened Common
  import opened Meta
  import opened Buffer

  /** Enqueues the messages one after another; `None` if any is refused. */
  function EnqueueEach(r: RingBuffer, xs: seq<Item>): (o: Option<RingBuffer>)
    requires Shaped(r)
    ensures o.Some? ==> Shaped(o.value) && o.value.capacity == r.capacity
    decreases |xs|
  {
    if |xs| == 0 then Some(r)
    else match Enqueue(r, xs[0].meta, xs[0].payload)
      case Enqueued(_, r1) => EnqueueEach(r1, xs[1..])
      case _ => None
  }

  /** Dequeues `n` messages one after another; `None` if any attempt finds
      nothing. */
  function DequeueN(r: RingBuffer, n: nat): (o: Option<(seq<Item>, RingBuffer)>)
    requires Shaped(r)
    ensures o.Some? ==> |o.value.0| == n && Shaped(o.value.1)
    decreases n
  {
    if n == 0 then Some(([], r))
    else match Dequeue(r)
      case Dequeued(x, r1) =>
        (match DequeueN(r1, n - 1)
          case Some(rest) => Some(([x] + rest.0, rest.1))
          case None => None)
      case _ => None
  }

  lemma StampAllCons(xs: seq<Item>)
    requires |xs| > 0
    ensures StampAll(xs) == [Stamped(xs[0].meta, xs[0].payload)] + StampAll(xs[1..])
  {
    assert forall i :: 0 <= i < |xs| - 1 ==> StampAll(xs[1..])[i] == StampAll(xs)[i + 1];
  }

  lemma TailFits(xs: seq<Item>)
    requires |xs| > 0 && FitsInline(xs)
    ensures |xs[0].payload| <= MSG_INLINE && FitsInline(xs[1..])
  {
    assert forall i :: 0 <= i < |xs| - 1 ==> xs[1..][i] == xs[i + 1];
  }

  lemma AppendAssoc(q: seq<Item>, x: Item, rest: seq<Item>)
    ensures q + [x] + rest == q + ([x] + rest)
  {
  }

  lemma {:induction false} EnqueueEachAppends(r: RingBuffer, xs: seq<Item>)
    requires Valid(r) && r.capacity >= 2
    requires |Contents(r)| + |xs| <= r.capacity && FitsInline(xs)
    ensures var o := EnqueueEach(r, xs);
      o.Some? && Valid(o.value) && Contents(o.value) == Contents(r) + StampAll(xs)
    decreases |xs|
  {
    if |xs| > 0 {
      TailFits(xs);
      var x := Stamped(xs[0].meta, xs[0].payload);
      EnqueueRefinesPush(r, xs[0].meta, xs[0].payload);
      var o := Enqueue(r, xs[0].meta, xs[0].payload);
      assert o.Enqueued? && Valid(o.ring) && Contents(o.ring) == Contents(r) + [x];
      EnqueueEachAppends(o.ring, xs[1..]);
      StampAllCons(xs);
      AppendAssoc(Contents(r), x, StampAll(xs[1..]));
    } else {
      assert Contents(r) + StampAll(xs) == Contents(r);
    }
  }

  lemma TakeAfterFirst(q: seq<Item>, rest: seq<Item>, left: seq<Item>, n: nat)
    requires 0 < n <= |q| && rest == q[1..][..n - 1] && left == q[1..][n - 1..]
    ensures [q[0]] + rest == q[..n] && left == q[n..]
  {
  }

  lemma {:induction false} DequeueNTakes(r: RingBuffer, n: nat)
    requires Valid(r) && n <= |Contents(r)|
    ensures var o := DequeueN(r, n);
      && o.Some?
      && o.value.0 == Contents(r)[..n]
      && Valid(o.value.1)
      && Contents(o.value.1) == Contents(r)[n..]
    decreases n
  {
    var q := Contents(r);
    if n > 0 {
      DequeueRefinesPop(r);
      var o := Dequeue(r);
      DequeueNTakes(o.ring, n - 1);
      var rest := DequeueN(o.ring, n - 1).value;
      assert DequeueN(r, n) == Some(([o.item] + rest.0, rest.1));
      TakeAfterFirst(q, rest.0, Contents(rest.1), n);
    } else {
      assert q[..0] == [] && q[0..] == q;
    }
  }

  /** First in, first out: messages enqueued into an empty ring, as many as
      it holds, are dequeued in the same order with byte-identical payloads
      and their metadata as stamped. */
  lemma FifoRoundTrip(r: RingBuffer, xs: seq<Item>)
    requires Valid(r) && r.capacity >= 2 && Contents(r) == []
    requires |xs| <= r.capacity && FitsInline(xs)
    ensures EnqueueEach(r, xs).Some?
    ensures var out := DequeueN(EnqueueEach(r, xs).value, |xs|);
      && out.Some?
      && out.value.0 == StampAll(xs)
      && (forall i :: 0 <= i < |xs| ==> out.value.0[i].payload == xs[i].payload)
      && Valid(out.value.1)
      && Contents(out.value.1) == []
  {
    EnqueueEachAppends(r, xs);
    var full := EnqueueEach(r, xs).value;
    DequeueNTakes(full, |xs|);
    assert Contents(full)[..|xs|] == StampAll(xs);
  }

  /** A four-slot ring takes exactly four messages, refuses a fifth, and
      takes one again after a dequeue. */
  lemma FullBufferScenario(meta: MessageMeta, payload: seq<byte>)
    requires |payload| <= MSG_INLINE
    ensures var r4 := EnqueueEach(Fresh(4), seq(4, _ => Item(meta, payload)));
      && r4.Some?
      && Enqueue(r4.value, meta, payload).Full?
      && Dequeue(r4.value).Dequeued?
      && Enqueue(Dequeue(r4.value).ring, meta, payload).Enqueued?
  {
    var xs := seq(4, _ => Item(meta, payload));
    FreshIsEmpty(4);
    EnqueueEachAppends(Fresh(4), xs);
    var r4 := EnqueueEach(Fresh(4), xs).value;
    EnqueueRefinesPush(r4, meta, payload);
    DequeueRefinesPop(r4);
    EnqueueRefinesPush(Dequeue(r4).ring, meta, payload);
  }

  /** In a one-slot ring holding one message, the slot of `tail` is the slot
      of `head`, whose sequence `head + 1` equals `tail`: the enqueue takes
      it. Afterwards the cursors are two apart and the slot's sequence is
      ahead of what a dequeue expects. */
  lemma OneSlotSecondEnqueue(r: RingBuffer, meta: MessageMeta, payload: seq<byte>)
    requires Shaped(r) && r.capacity == 1 && r.head == 0 && r.tail == 1
    requires r.slots[0].sequence == 1
    ensures var o := Enqueue(r, meta, payload);
      && o.Enqueued?
      && o.ring.head == 0 && o.ring.tail == 2
      && !Valid(o.ring)
      && Dequeue(o.ring).Unpublished?
  {
    assert Mod(1, 1) == Mod(0, 1) == 0;
    var r2 := Enqueue(r, meta, payload).ring;
    assert SeqAt(r2, 0) == 2;
  }

  /** Finding: with a single slot, "full" and "free" look the same to the
      sequence check. Creation accepts capacity 1, yet a second enqueue into
      the full one-slot ring succeeds, overwriting the unread message, and
      leaves a state in which every dequeue spins. */
  lemma CapacityOneOverwrites(a: Item, b: Item)
    requires |a.payload| <= MSG_INLINE
    ensures IsPowerOfTwo(1)
    ensures var o1 := Enqueue(Fresh(1), a.meta, a.payload);
      && o1.Enqueued?
      && Contents(o1.ring) == [Stamped(a.meta, a.payload)]
      && var o2 := Enqueue(o1.ring, b.meta, b.payload);
      && o2.Enqueued?
      && !Valid(o2.ring)
      && Dequeue(o2.ring).Unpublished?
  {
    var r0 := Fresh(1);
    assert SeqAt(r0, 0) == 0;
    var o1 := Enqueue(r0, a.meta, a.payload);
    var r1 := o1.ring;
    assert r1.slots[0] == Write(r0.slots[0], 1, a.meta, a.payload);
    assert Contents(r1)[0] == ItemAt(r1, 0);
    OneSlotSecondEnqueue(r1, b.meta, b.payload);
  }
}
