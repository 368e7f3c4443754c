/** The receiving side of a channel (src/MPMC/consumer.rs): non-blocking,
    blocking and time-limited receives, and the producer-liveness judgement.

    The wall clock (whole seconds since the epoch) is a parameter. A loop
    that waits — for the futex signal, or a sleep between polls — is given
    the sequence of ring states and clock readings it observes, one per
    round; what other threads do in between is not modelled beyond that. */
module Consumers {
  import opened Common
  import opened Meta
  import opened Buffer
  import Producers

  datatype Consumer = Consumer(
    channelId: u32,
    producerAlive: bool,
    lastMessageTime: int)

  /** `Consumer::new`: the alive flag is set and no message has been seen. */
  function New(channelId: u32): (c: Consumer)
    ensures c.channelId == channelId && c.producerAlive && c.lastMessageTime == 0
    ensures forall now :: IsProducerAlive(c, now)
  {
    Consumer(channelId, true, 0)
  }

  /** Messages arriving within this many seconds vouch for the producer. */
  const RECENT_SECS: int := 5

  /** `is_producer_alive`: a message received less than five seconds ago
      (with a positive receive time) means alive; otherwise the alive flag
      decides. */
  function IsProducerAlive(c: Consumer, now: int): (alive: bool)
    ensures c.producerAlive ==> alive
    ensures !alive ==> c.lastMessageTime <= 0 || now - c.lastMessageTime >= RECENT_SECS
    ensures !c.producerAlive && (c.lastMessageTime <= 0 || now - c.lastMessageTime >= RECENT_SECS) ==> !alive
  {
    if c.lastMessageTime > 0 && now - c.lastMessageTime < RECENT_SECS then true
    else c.producerAlive
  }

  /** A fresh consumer, whatever the clock says, judges by its flag alone,
      which starts set. */
  lemma FreshConsumerAlive(channelId: u32, now: int)
    ensures IsProducerAlive(New(channelId), now)
    ensures forall flag: bool :: IsProducerAlive(New(channelId).(producerAlive := flag), now) == flag
  {
  }

  /** The ring cannot be half-way through a producer's step at `head`: the
      slot's sequence is not ahead of `head + 1`. In such a state the source
      spins until the producer publishes; every valid ring satisfies this. */
  predicate HeadSettled(r: RingBuffer)
  {
    Shaped(r) && SeqAt(r, r.head) <= r.head + 1
  }

  lemma ValidHeadSettled(r: RingBuffer)
    requires Valid(r)
    ensures HeadSettled(r)
  {
    if r.head < r.tail {
      assert SeqAt(r, r.head) == r.head + 1;
    } else {
      assert SeqAt(r, r.head) == r.head;
    }
  }

  /** The consumer and ring after a receive, and what it returned. */
  datatype Received<+T> = Received(consumer: Consumer, ring: RingBuffer, result: Result<Option<T>>)

  /** `receive_with_meta`: a message if `dequeue` yields one, recording the
      time of receipt; on an empty ring, a broken pipe if the producer is
      judged dead and "nothing yet" otherwise, the ring untouched either way. */
  function ReceiveWithMeta(c: Consumer, r: RingBuffer, now: int): (o: Received<Item>)
    requires HeadSettled(r)
    ensures o.result.Ok? && o.result.value.Some? <==> Dequeue(r).Dequeued?
    ensures Dequeue(r).Dequeued? ==>
      && o.result.value.value == Dequeue(r).item
      && o.ring == Dequeue(r).ring
      && o.consumer == c.(lastMessageTime := now)
    ensures !Dequeue(r).Dequeued? ==>
      && Dequeue(r).Empty?
      && o.ring == r && o.consumer == c
      && (o.result == Err(BrokenPipe) <==> !IsProducerAlive(c, now))
      && (o.result.Ok? ==> o.result.value.None?)
  {
    var d := Dequeue(r);
    if d.Dequeued? then Received(c.(lastMessageTime := now), d.ring, Ok(Some(d.item)))
    else if !IsProducerAlive(c, now) then Received(c, r, Err(BrokenPipe))
    else Received(c, r, Ok(None))
  }

  /** `receive`: the same, handing back only the payload bytes. */
  function Receive(c: Consumer, r: RingBuffer, now: int): (o: Received<seq<byte>>)
    requires HeadSettled(r)
    ensures o.result.Ok? && o.result.value.Some? <==> Dequeue(r).Dequeued?
    ensures Dequeue(r).Dequeued? ==> o.result.value.value == Dequeue(r).item.payload
    ensures !Dequeue(r).Dequeued? ==>
      o.result == (if IsProducerAlive(c, now) then Ok(None) else Err(BrokenPipe))
    ensures o.consumer == ReceiveWithMeta(c, r, now).consumer
    ensures o.ring == ReceiveWithMeta(c, r, now).ring
  {
    var m := ReceiveWithMeta(c, r, now);
    match m.result
      case Ok(Some(item)) => Received(m.consumer, m.ring, Ok(Some(item.payload)))
      case Ok(None) => Received(m.consumer, m.ring, Ok(None))
      case Err(e) => Received(m.consumer, m.ring, Err(e))
  }

  /** On a valid ring, receiving refines `Pop`: a message comes back exactly
      when the queue is non-empty, and it is the oldest one, removed from
      the queue; otherwise the queue is unchanged and the answer is
      "nothing yet" exactly when the producer is judged alive. */
  lemma ReceiveRefinesPop(c: Consumer, r: RingBuffer, now: int)
    requires Valid(r)
    ensures HeadSettled(r)
    ensures var o := ReceiveWithMeta(c, r, now);
      && Valid(o.ring)
      && (o.result.Ok? && o.result.value.Some? <==> Pop(Contents(r)).Some?)
      && (o.result.Ok? && o.result.value.Some? ==>
            (o.result.value.value, Contents(o.ring)) == Pop(Contents(r)).value)
      && (Pop(Contents(r)).None? ==>
            && Contents(o.ring) == Contents(r)
            && (o.result == Ok(None) <==> IsProducerAlive(c, now)))
  {
    ValidHeadSettled(r);
    DequeueRefinesPop(r);
  }

  /** A receipt at a positive time vouches for the producer for the next
      five seconds, whatever its flag says. */
  lemma ReceiptKeepsProducerAlive(c: Consumer, r: RingBuffer, now: int, later: int)
    requires HeadSettled(r) && Dequeue(r).Dequeued?
    requires 0 < now <= later < now + RECENT_SECS
    ensures IsProducerAlive(ReceiveWithMeta(c, r, now).consumer, later)
    ensures IsProducerAlive(ReceiveWithMeta(c, r, now).consumer.(producerAlive := false), later)
  {
  }

  // ---------------------------------------------------------------------
  // Waiting receives.

  /** What one round of a waiting loop observes: the ring and the clock. */
  datatype Attempt = Attempt(ring: RingBuffer, now: int)

  predicate AllSettled(attempts: seq<Attempt>)
  {
    forall k :: 0 <= k < |attempts| ==> HeadSettled(attempts[k].ring)
  }

  function Poll(c: Consumer, a: Attempt): Received<Item>
    requires HeadSettled(a.ring)
  {
    ReceiveWithMeta(c, a.ring, a.now)
  }

  /** Rounds `0 .. k - 1` all found nothing while the producer was judged
      alive. */
  predicate QuietUpTo(c: Consumer, attempts: seq<Attempt>, k: nat)
    requires AllSettled(attempts) && k <= |attempts|
  {
    forall j :: 0 <= j < k ==> Poll(c, attempts[j]).result == Ok(None)
  }

  /** How a blocking receive ends: with a message (and the consumer and
      ring after taking it), with a broken pipe (and the ring it found
      empty), or not within the observed rounds. */
  datatype Blocked = Got(consumer: Consumer, ring: RingBuffer, item: Item) | Broken(ring: RingBuffer) | Waiting

  /** A blocking receive's ending agrees with a non-blocking receive's
      answer: a message with the same message, consumer and ring, or a
      broken pipe. */
  predicate Answers(o: Blocked, rec: Received<Item>)
  {
    && (o.Got? <==> rec.result.Ok?)
    && (o.Got? ==> rec.result == Ok(Some(o.item)) && o.consumer == rec.consumer && o.ring == rec.ring)
    && (o.Broken? ==> rec.result == Err(BrokenPipe) && o.ring == rec.ring)
  }

  /** `receive_blocking_with_meta`: poll the ring; take a message if there
      is one; otherwise give up with a broken pipe if the producer is judged
      dead, and wait for the next signal if not. It never reports "empty":
      it ends exactly at the first round where a non-blocking receive would
      not have answered "nothing yet", and answers as that receive does. */
  method ReceiveBlockingWithMeta(c: Consumer, attempts: seq<Attempt>) returns (o: Blocked)
    requires AllSettled(attempts)
    ensures o.Waiting? <==> QuietUpTo(c, attempts, |attempts|)
    ensures !o.Waiting? ==>
      exists k :: 0 <= k < |attempts| && QuietUpTo(c, attempts, k) && Answers(o, Poll(c, attempts[k]))
  {
    var i := 0;
    while i < |attempts|
      invariant 0 <= i <= |attempts|
      invariant QuietUpTo(c, attempts, i)
    {
      var a := attempts[i];
      var d := Dequeue(a.ring);
      if d.Dequeued? {
        return Got(c.(lastMessageTime := a.now), d.ring, d.item);
      }
      if !IsProducerAlive(c, a.now) {
        return Broken(a.ring);
      }
      i := i + 1;
    }
    return Waiting;
  }

  /** `receive_blocking`: the blocking receive, handing back the payload
      together with the consumer and ring of the round it ends at (the
      receipt time recorded and the head moved, after a message). `None`
      means it has not returned within the observed rounds. */
  method ReceiveBlocking(c: Consumer, attempts: seq<Attempt>) returns (o: Option<Received<seq<byte>>>)
    requires AllSettled(attempts)
    ensures o.None? <==> QuietUpTo(c, attempts, |attempts|)
    ensures o.Some? ==>
      && o.value.result != Ok(None)
      && (o.value.result.Err? ==> o.value.result.error == BrokenPipe)
      && exists k :: 0 <= k < |attempts| && QuietUpTo(c, attempts, k) && PayloadOf(o.value, Poll(c, attempts[k]))
  {
    var b := ReceiveBlockingWithMeta(c, attempts);
    match b {
      case Got(c', r', item) => o := Some(Received(c', r', Ok(Some(item.payload))));
      case Broken(r') => o := Some(Received(c, r', Err(BrokenPipe)));
      case Waiting => o := None;
    }
  }

  /** One round of a time-limited receive: the ring and clock the poll
      sees, and the elapsed time read after an empty poll and again after
      the sleep. */
  datatype TimedAttempt = TimedAttempt(attempt: Attempt, elapsed: nat, elapsedAfterSleep: nat)

  predicate Expired(t: TimedAttempt, timeout: nat)
  {
    t.elapsed >= timeout || t.elapsedAfterSleep >= timeout
  }

  predicate AllTimedSettled(attempts: seq<TimedAttempt>)
  {
    forall k :: 0 <= k < |attempts| ==> HeadSettled(attempts[k].attempt.ring)
  }

  /** Rounds `0 .. k - 1` found nothing, the producer alive, and time left. */
  predicate PatientUpTo(c: Consumer, attempts: seq<TimedAttempt>, timeout: nat, k: nat)
    requires AllTimedSettled(attempts) && k <= |attempts|
  {
    forall j :: 0 <= j < k ==>
      Poll(c, attempts[j].attempt).result == Ok(None) && !Expired(attempts[j], timeout)
  }

  /** `receive_timeout_with_meta`: poll with `receive_with_meta`, returning
      a message or an error at once; after an empty poll, return "nothing"
      once the elapsed time reaches the timeout, checked before and after
      the sleep. The answer is that of the first round that returns; `None`
      means no round among those observed returned. A zero timeout makes
      exactly one attempt. */
  method ReceiveTimeoutWithMeta(c: Consumer, timeout: nat, attempts: seq<TimedAttempt>)
    returns (o: Option<Received<Item>>)
    requires AllTimedSettled(attempts)
    ensures o.None? <==> PatientUpTo(c, attempts, timeout, |attempts|)
    ensures o.Some? ==>
      exists k :: 0 <= k < |attempts| && PatientUpTo(c, attempts, timeout, k) &&
        o.value == Poll(c, attempts[k].attempt) &&
        (o.value.result == Ok(None) ==> Expired(attempts[k], timeout))
    ensures timeout == 0 && |attempts| > 0 ==> o == Some(Poll(c, attempts[0].attempt))
  {
    var i := 0;
    while i < |attempts|
      invariant 0 <= i <= |attempts|
      invariant PatientUpTo(c, attempts, timeout, i)
    {
      var t := attempts[i];
      var rec := ReceiveWithMeta(c, t.attempt.ring, t.attempt.now);
      if rec.result != Ok(None) {
        return Some(rec);
      }
      if t.elapsed >= timeout {
        return Some(rec);
      }
      if t.elapsedAfterSleep >= timeout {
        return Some(rec);
      }
      i := i + 1;
    }
    return None;
  }

  /** `o` is `rec` with each message reduced to its payload: same consumer,
      same ring, "nothing" and errors passed on as they are. */
  predicate PayloadOf(o: Received<seq<byte>>, rec: Received<Item>)
  {
    && o.consumer == rec.consumer && o.ring == rec.ring
    && (o.result.Ok? <==> rec.result.Ok?)
    && (o.result.Ok? ==>
          (o.result.value.Some? <==> rec.result.value.Some?)
          && (o.result.value.Some? ==> o.result.value.value == rec.result.value.value.payload))
    && (o.result.Err? ==> o.result.error == rec.result.error)
  }

  /** `receive_timeout`: the payload of what the time-limited receive returns. */
  method ReceiveTimeout(c: Consumer, timeout: nat, attempts: seq<TimedAttempt>)
    returns (o: Option<Received<seq<byte>>>)
    requires AllTimedSettled(attempts)
    ensures o.None? <==> PatientUpTo(c, attempts, timeout, |attempts|)
    ensures o.Some? ==>
      exists k :: 0 <= k < |attempts| && PatientUpTo(c, attempts, timeout, k) &&
        PayloadOf(o.value, Poll(c, attempts[k].attempt)) &&
        (o.value.result == Ok(None) ==> Expired(attempts[k], timeout))
    ensures timeout == 0 && |attempts| > 0 ==>
      o == Some(Receive(c, attempts[0].attempt.ring, attempts[0].attempt.now))
  {
    var m := ReceiveTimeoutWithMeta(c, timeout, attempts);
    if m.None? {
      return None;
    }
    ghost var k :| 0 <= k < |attempts| && PatientUpTo(c, attempts, timeout, k) &&
      m.value == Poll(c, attempts[k].attempt) &&
      (m.value.result == Ok(None) ==> Expired(attempts[k], timeout));
    var v := m.value;
    match v.result {
      case Ok(Some(item)) => o := Some(Received(v.consumer, v.ring, Ok(Some(item.payload))));
      case Ok(None) => o := Some(Received(v.consumer, v.ring, Ok(None)));
      case Err(e) => o := Some(Received(v.consumer, v.ring, Err(e)));
    }
  }

  // ---------------------------------------------------------------------
  // End to end.

  /** A message sent into an empty valid ring comes back from the next
      receive exactly as stamped, with its payload intact, and leaves the
      ring empty and valid. */
  lemma SendThenReceive(p: Producers.Producer, c: Consumer, r: RingBuffer, payload: seq<byte>,
                        sentAt: u64, pid: u32, now: int)
    requires Valid(r) && r.capacity >= 2 && Contents(r) == []
    requires p.maxMessageSize == MSG_INLINE && |payload| <= MSG_INLINE
    ensures Producers.TailSettled(r)
    ensures var s := Producers.Send(p, r, payload, sentAt, pid);
      && s.result.Ok?
      && HeadSettled(s.ring)
      && var o := ReceiveWithMeta(c, s.ring, now);
      && o.result == Ok(Some(Item(Producers.StampMeta(p, p.counter, sentAt, pid, |payload|), payload)))
      && o.result.value.value.meta.messageId == p.counter
      && Valid(o.ring) && Contents(o.ring) == []
  {
    Producers.SendRefinesPush(p, r, payload, sentAt, pid);
    var s := Producers.Send(p, r, payload, sentAt, pid);
    ReceiveRefinesPop(c, s.ring, now);
  }
}
