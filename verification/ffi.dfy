/** The C interface (src/ffi.rs): status codes, the decisions behind
    `dmxp_producer_send` and `dmxp_consumer_receive`, and the life cycle of
    handles.

    A handle is an address; 0 is the null pointer. The live handles are a
    map from address to endpoint state, and an unused address for a new
    handle is a parameter. A caller's output buffer is the byte sequence
    it holds; its `out_len` is an optional number (absent = null). */
module Ffi {
  import opened Common
  import opened Buffer
  import opened Alloc
  import Producers
  import Consumers
  import Builder

  const SUCCESS: int := 0
  const ERROR_NULL_POINTER: int := -1
  const ERROR_INVALID_ARG: int := -2
  const ERROR_ALLOCATION_FAILED: int := -3
  const ERROR_CHANNEL_FULL: int := -4
  const ERROR_EMPTY: int := -5
  const ERROR_INTERNAL: int := -6

  const NULL: nat := 0

  /** Region size the C interface opens: 128 MiB. */
  const SHM_SIZE: nat := 128 * 1024 * 1024

  datatype Handles = Handles(
    producers: map<nat, Producers.Producer>,
    consumers: map<nat, Consumers.Consumer>)

  // ---------------------------------------------------------------------
  // Producer side.

  /** How a send's result is reported: success, "channel full" for
      would-block, and an internal error for anything else (an oversized
      payload or a broken pipe). */
  function SendStatus(r: Result<()>): (code: int)
    ensures code == SUCCESS <==> r.Ok?
    ensures code == ERROR_CHANNEL_FULL <==> r == Err(WouldBlock)
    ensures code == ERROR_INTERNAL <==> r.Err? && r.error != WouldBlock
  {
    match r
      case Ok(_) => SUCCESS
      case Err(WouldBlock) => ERROR_CHANNEL_FULL
      case Err(_) => ERROR_INTERNAL
  }

  datatype SendCall = SendCall(status: int, handles: Handles, ring: RingBuffer)

  /** `dmxp_producer_send`: a null handle or data pointer is refused before
      anything happens; otherwise the producer sends the bytes and the
      result is mapped to a status. */
  function ProducerSend(h: Handles, handle: nat, data: Option<seq<byte>>, r: RingBuffer, now: u64, pid: u32): (o: SendCall)
    requires handle == NULL || handle in h.producers
    requires Producers.TailSettled(r)
    ensures o.status == ERROR_NULL_POINTER <==> handle == NULL || data.None?
    ensures o.status == ERROR_NULL_POINTER ==> o.handles == h && o.ring == r
    ensures o.status in {SUCCESS, ERROR_NULL_POINTER, ERROR_CHANNEL_FULL, ERROR_INTERNAL}
    ensures handle != NULL && data.Some? ==>
      var s := Producers.Send(h.producers[handle], r, data.value, now, pid);
      && o.status == SendStatus(s.result)
      && o.ring == s.ring
      && o.handles == h.(producers := h.producers[handle := s.producer])
  {
    if handle == NULL || data.None? then SendCall(ERROR_NULL_POINTER, h, r)
    else
      var s := Producers.Send(h.producers[handle], r, data.value, now, pid);
      SendCall(SendStatus(s.result), h.(producers := h.producers[handle := s.producer]), s.ring)
  }

  /** Through the C interface, a new producer on a valid ring reports
      success exactly when the payload fits inline and the queue has room,
      "channel full" when only room is lacking, and an internal error for
      an oversized payload. */
  lemma ProducerSendStatuses(h: Handles, handle: nat, data: seq<byte>, r: RingBuffer, now: u64, pid: u32)
    requires handle in h.producers && handle != NULL
    requires h.producers[handle].maxMessageSize == MSG_INLINE && h.producers[handle].keepAlive
    requires Valid(r) && r.capacity >= 2
    ensures Producers.TailSettled(r)
    ensures var o := ProducerSend(h, handle, Some(data), r, now, pid);
      && (o.status == SUCCESS <==> |data| <= MSG_INLINE && |Contents(r)| < r.capacity)
      && (o.status == ERROR_CHANNEL_FULL <==> |data| <= MSG_INLINE && |Contents(r)| == r.capacity)
      && (o.status == ERROR_INTERNAL <==> |data| > MSG_INLINE)
      && (o.status != SUCCESS ==> o.ring == r)
  {
    var p := h.producers[handle];
    Producers.SendRefinesPush(p, r, data, now, pid);
  }

  // ---------------------------------------------------------------------
  // Consumer side.

  /** What the receive call reports and leaves in the caller's `out_len`
      and output buffer. */
  datatype Delivery = Delivery(status: int, outLen: nat, outBuf: Option<seq<byte>>)

  /** The decision after a receive, given what it fetched and the caller's
      `*out_len`: an error is internal, nothing is "empty"; a message longer
      than the buffer is invalid and its length is written back (the
      message is gone all the same); otherwise the bytes are copied to the
      start of a non-null buffer and their length written back, and a null
      buffer is a success that leaves `out_len` alone. */
  function Deliver(fetched: Result<Option<seq<byte>>>, maxLen: nat, outBuf: Option<seq<byte>>): (d: Delivery)
    requires outBuf.Some? ==> |outBuf.value| >= maxLen
    ensures d.status == ERROR_INTERNAL <==> fetched.Err?
    ensures d.status == ERROR_EMPTY <==> fetched == Ok(None)
    ensures d.status == ERROR_INVALID_ARG <==>
      fetched.Ok? && fetched.value.Some? && |fetched.value.value| > maxLen
    ensures d.status == SUCCESS <==>
      fetched.Ok? && fetched.value.Some? && |fetched.value.value| <= maxLen
    ensures d.status == ERROR_INVALID_ARG ==>
      d.outLen == |fetched.value.value| && d.outBuf == outBuf
    ensures d.status == SUCCESS && outBuf.Some? ==>
      var data := fetched.value.value;
      && d.outLen == |data|
      && d.outBuf.Some? && |d.outBuf.value| == |outBuf.value|
      && d.outBuf.value[..|data|] == data
      && d.outBuf.value[|data|..] == outBuf.value[|data|..]
    ensures (d.status == SUCCESS && outBuf.None?) || d.status == ERROR_INTERNAL || d.status == ERROR_EMPTY ==>
      d.outLen == maxLen && d.outBuf == outBuf
  {
    match fetched
      case Err(_) => Delivery(ERROR_INTERNAL, maxLen, outBuf)
      case Ok(None) => Delivery(ERROR_EMPTY, maxLen, outBuf)
      case Ok(Some(data)) =>
        if |data| > maxLen then Delivery(ERROR_INVALID_ARG, |data|, outBuf)
        else if outBuf.None? then Delivery(SUCCESS, maxLen, None)
        else Delivery(SUCCESS, |data|, Some(data + outBuf.value[|data|..]))
  }

  /** The caller's side of a receive call, and the consumer's state and
      ring after the receive it made (absent when it made none). */
  datatype ReceiveCall = ReceiveCall(
    status: int,
    outLen: Option<nat>,
    outBuf: Option<seq<byte>>,
    received: Option<Consumers.Received<seq<byte>>>)

  predicate BufferFits(outBuf: Option<seq<byte>>, outLen: Option<nat>)
  {
    outBuf.Some? && outLen.Some? ==> |outBuf.value| >= outLen.value
  }

  /** `dmxp_consumer_receive` without blocking: a null handle or `out_len`
      is refused before anything is dequeued; otherwise one receive is made
      and its result delivered. */
  function ConsumerReceiveNow(h: Handles, handle: nat, outBuf: Option<seq<byte>>, outLen: Option<nat>,
                              r: RingBuffer, now: int): (o: ReceiveCall)
    requires handle == NULL || handle in h.consumers
    requires Consumers.HeadSettled(r) && BufferFits(outBuf, outLen)
    ensures o.status == ERROR_NULL_POINTER <==> handle == NULL || outLen.None?
    ensures o.received.None? <==> o.status == ERROR_NULL_POINTER
    ensures o.status == ERROR_NULL_POINTER ==> o.outLen == outLen && o.outBuf == outBuf
    ensures o.received.Some? ==>
      && o.received.value == Consumers.Receive(h.consumers[handle], r, now)
      && var d := Deliver(o.received.value.result, outLen.value, outBuf);
      && o.status == d.status && o.outLen == Some(d.outLen) && o.outBuf == d.outBuf
  {
    if handle == NULL || outLen.None? then ReceiveCall(ERROR_NULL_POINTER, outLen, outBuf, None)
    else
      var rec := Consumers.Receive(h.consumers[handle], r, now);
      var d := Deliver(rec.result, outLen.value, outBuf);
      ReceiveCall(d.status, Some(d.outLen), d.outBuf, Some(rec))
  }

  /** A message longer than the caller's buffer is reported as invalid with
      its length written back, but it has been taken off the queue: the
      next receive sees the message after it. */
  lemma TooSmallBufferLosesMessage(h: Handles, handle: nat, outBuf: Option<seq<byte>>, maxLen: nat,
                                   r: RingBuffer, now: int)
    requires handle in h.consumers && handle != NULL
    requires Valid(r) && |Contents(r)| > 0 && |Contents(r)[0].payload| > maxLen
    requires BufferFits(outBuf, Some(maxLen))
    ensures Consumers.HeadSettled(r)
    ensures var o := ConsumerReceiveNow(h, handle, outBuf, Some(maxLen), r, now);
      && o.status == ERROR_INVALID_ARG
      && o.outLen == Some(|Contents(r)[0].payload|)
      && o.outBuf == outBuf
      && Valid(o.received.value.ring)
      && Contents(o.received.value.ring) == Contents(r)[1..]
  {
    Consumers.ReceiveRefinesPop(h.consumers[handle], r, now);
  }

  /** A non-blocking receive on an empty valid ring reports "empty" while
      the producer is judged alive, and an internal error once it is not;
      the ring is untouched. */
  lemma EmptyReceiveStatus(h: Handles, handle: nat, outBuf: Option<seq<byte>>, maxLen: nat,
                           r: RingBuffer, now: int)
    requires handle in h.consumers && handle != NULL
    requires Valid(r) && Contents(r) == [] && BufferFits(outBuf, Some(maxLen))
    ensures Consumers.HeadSettled(r)
    ensures var o := ConsumerReceiveNow(h, handle, outBuf, Some(maxLen), r, now);
      && (o.status == ERROR_EMPTY <==> Consumers.IsProducerAlive(h.consumers[handle], now))
      && (o.status == ERROR_INTERNAL <==> !Consumers.IsProducerAlive(h.consumers[handle], now))
      && o.received.value.ring == r
  {
    Consumers.ReceiveRefinesPop(h.consumers[handle], r, now);
  }

  /** What a receive of a message with its metadata fetched, as bytes. */
  function Fetched(rec: Consumers.Received<Item>): (f: Result<Option<seq<byte>>>)
    ensures f.Err? <==> rec.result.Err?
    ensures f == Ok(None) <==> rec.result == Ok(None)
    ensures rec.result.Ok? && rec.result.value.Some? ==> f == Ok(Some(rec.result.value.value.payload))
  {
    match rec.result
      case Ok(Some(item)) => Ok(Some(item.payload))
      case Ok(None) => Ok(None)
      case Err(e) => Err(e)
  }

  /** `dmxp_consumer_receive` with blocking: as without, but the receive is
      the blocking one, so the call never reports "empty". `None` means the
      call has not returned within the observed rounds; when it has, it
      reports what the first round that did not find "nothing yet" fetched,
      and carries that round's consumer and ring. A message too long for
      the buffer has left the queue all the same. */
  method ConsumerReceiveBlocking(h: Handles, handle: nat, outBuf: Option<seq<byte>>, outLen: Option<nat>,
                                 attempts: seq<Consumers.Attempt>) returns (o: Option<ReceiveCall>)
    requires handle == NULL || handle in h.consumers
    requires Consumers.AllSettled(attempts) && BufferFits(outBuf, outLen)
    ensures handle == NULL || outLen.None? ==> o == Some(ReceiveCall(ERROR_NULL_POINTER, outLen, outBuf, None))
    ensures handle != NULL && outLen.Some? ==>
      (o.None? <==> Consumers.QuietUpTo(h.consumers[handle], attempts, |attempts|))
    ensures o.Some? ==> o.value.status != ERROR_EMPTY
    ensures o.Some? ==> (o.value.received.None? <==> o.value.status == ERROR_NULL_POINTER)
    ensures handle != NULL && outLen.Some? && o.Some? ==>
      exists k :: 0 <= k < |attempts| && Consumers.QuietUpTo(h.consumers[handle], attempts, k)
        && Reports(o.value, Consumers.Poll(h.consumers[handle], attempts[k]), outLen.value, outBuf)
        && Consumers.PayloadOf(o.value.received.value, Consumers.Poll(h.consumers[handle], attempts[k]))
    ensures o.Some? && o.value.status == ERROR_INVALID_ARG ==> o.value.received.Some?
    ensures o.Some? && o.value.status == ERROR_INVALID_ARG ==>
      exists k :: 0 <= k < |attempts| && Dequeue(attempts[k].ring).Dequeued? &&
        o.value.received.value.ring == Dequeue(attempts[k].ring).ring
  {
    if handle == NULL || outLen.None? {
      return Some(ReceiveCall(ERROR_NULL_POINTER, outLen, outBuf, None));
    }
    var c := h.consumers[handle];
    var r := Consumers.ReceiveBlocking(c, attempts);
    if r.None? {
      return None;
    }
    ghost var k :| 0 <= k < |attempts| && Consumers.QuietUpTo(c, attempts, k)
      && Consumers.PayloadOf(r.value, Consumers.Poll(c, attempts[k]));
    ghost var rec := Consumers.Poll(c, attempts[k]);
    assert r.value.result == Fetched(rec);
    var d := Deliver(r.value.result, outLen.value, outBuf);
    o := Some(ReceiveCall(d.status, Some(d.outLen), d.outBuf, Some(r.value)));
    assert Reports(o.value, rec, outLen.value, outBuf);
    if d.status == ERROR_INVALID_ARG {
      assert Dequeue(attempts[k].ring).Dequeued?;
    }
  }

  /** The call reports what the receive fetched, delivered into the
      caller's buffer. */
  predicate Reports(call: ReceiveCall, rec: Consumers.Received<Item>, maxLen: nat, outBuf: Option<seq<byte>>)
    requires outBuf.Some? ==> |outBuf.value| >= maxLen
  {
    var d := Deliver(Fetched(rec), maxLen, outBuf);
    call.status == d.status && call.outLen == Some(d.outLen) && call.outBuf == d.outBuf
  }

  // ---------------------------------------------------------------------
  // Handles.

  /** `dmxp_producer_new`: open the region (attach, else create); on
      failure the result is null. Then build a producer for the channel
      with the requested capacity through the builder, which opens the
      region again; on failure null, on success a new handle. */
  function ProducerNew(h: Handles, attached: Result<Allocator>, channelId: u32, capacity: u32, addr: nat)
    : (o: (Handles, nat))
    requires Builder.WellFormed(attached)
    requires addr != NULL && addr !in h.producers
    ensures o.1 == NULL || o.1 == addr
    ensures o.1 == NULL ==> o.0 == h
    ensures o.1 == addr <==> Builder.BuildProducer(ProducerBuilder(channelId, capacity), attached).Ok?
    ensures o.1 == addr ==> o.0 == h.(producers := h.producers[addr := Producers.New(channelId)])
  {
    var region := Builder.ProducerRegion(Builder.Default(), attached);
    if region.Err? then (h, NULL)
    else
      match Builder.BuildProducer(ProducerBuilder(channelId, capacity), attached)
        case Ok(built) => (h.(producers := h.producers[addr := built.endpoint]), addr)
        case Err(_) => (h, NULL)
  }

  function ProducerBuilder(channelId: u32, capacity: u32): Builder.ChannelBuilder
  {
    Builder.WithCapacity(Builder.WithChannelId(Builder.Default(), channelId), capacity)
  }

  /** `dmxp_consumer_new`: build a consumer for the channel; null on failure. */
  function ConsumerNew(h: Handles, attached: Result<Allocator>, channelId: u32, addr: nat): (o: (Handles, nat))
    requires Builder.WellFormed(attached)
    requires addr != NULL && addr !in h.consumers
    ensures o.1 == NULL || o.1 == addr
    ensures o.1 == NULL ==> o.0 == h
    ensures o.1 == addr <==> attached.Ok? && GetChannel(attached.value, channelId).Some?
    ensures o.1 == addr ==> o.0 == h.(consumers := h.consumers[addr := Consumers.New(channelId)])
  {
    match Builder.BuildConsumer(Builder.WithChannelId(Builder.Default(), channelId), attached)
      case Ok(built) => (h.(consumers := h.consumers[addr := built.endpoint]), addr)
      case Err(_) => (h, NULL)
  }

  /** `dmxp_producer_free`: null is a no-op; a live handle is released and
      no other handle is affected. */
  function ProducerFree(h: Handles, handle: nat): (h': Handles)
    requires handle == NULL || handle in h.producers
    ensures handle == NULL ==> h' == h
    ensures handle != NULL ==> handle !in h'.producers && h'.consumers == h.consumers
    ensures forall a :: a != handle && a in h.producers ==> a in h'.producers && h'.producers[a] == h.producers[a]
  {
    if handle == NULL then h else h.(producers := h.producers - {handle})
  }

  /** `dmxp_consumer_free`, likewise. */
  function ConsumerFree(h: Handles, handle: nat): (h': Handles)
    requires handle == NULL || handle in h.consumers
    ensures handle == NULL ==> h' == h
    ensures handle != NULL ==> handle !in h'.consumers && h'.producers == h.producers
    ensures forall a :: a != handle && a in h.consumers ==> a in h'.consumers && h'.consumers[a] == h.consumers[a]
  {
    if handle == NULL then h else h.(consumers := h.consumers - {handle})
  }

  /** Freeing the handle a creation returned restores the handles as they
      were before it, whether it returned null or a new handle. */
  lemma FreeAfterNew(h: Handles, attached: Result<Allocator>, channelId: u32, capacity: u32, addr: nat)
    requires Builder.WellFormed(attached)
    requires addr != NULL && addr !in h.producers && addr !in h.consumers
    ensures var o := ProducerNew(h, attached, channelId, capacity, addr);
      (o.1 == NULL || o.1 in o.0.producers) && ProducerFree(o.0, o.1) == h
    ensures var o := ConsumerNew(h, attached, channelId, addr);
      (o.1 == NULL || o.1 in o.0.consumers) && ConsumerFree(o.0, o.1) == h
  {
    var o := ProducerNew(h, attached, channelId, capacity, addr);
    if o.1 == addr {
      assert o.0.producers - {addr} == h.producers;
    }
    var c := ConsumerNew(h, attached, channelId, addr);
    if c.1 == addr {
      assert c.0.consumers - {addr} == h.consumers;
    }
  }
}
