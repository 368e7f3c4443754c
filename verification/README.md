# DMXP-MPMC core, modelled in Dafny

DMXP-MPMC is a shared-memory message channel for processes on one host.

- A region of shared memory holds a fixed table of `MAX_CHANNELS` (256) channel entries.
- Each live entry owns a 128-byte-aligned band of slots placed after the table.
- Each band is a bounded lock-free ring buffer with multiple producers and multiple consumers. It uses per-slot sequence numbers: a slot for position `p` is free when its sequence is `p`, and published when it is `p + 1`.
- Producers stamp each message with a 40-byte little-endian `MessageMeta` header and enqueue it, one at a time or as an all-or-nothing batch.
- Consumers dequeue, with a liveness heuristic that turns "empty" into "broken pipe" once the producer seems gone.
- A `ChannelBuilder` opens or creates the region and the channel.
- A C interface wraps all of this in status codes and opaque handles.

The model is split into modules that follow the program:

- `Common`: machine integers, the 128-byte rounding, the size constants and the error kinds.
- `Meta`: the `MessageMeta` record and its byte layout.
- `Buffer`: the ring buffer and its refinement of a bounded FIFO queue.
- `Fifo`: multi-step FIFO behaviour of the ring.
- `Alloc`: the channel table and band allocation.
- `Producers` and `Consumers`: the two endpoints.
- `Builder`: channel opening.
- `Ffi`: the C interface.

The ring is modelled as a value with explicit `head`, `tail` and slot sequence numbers. Each step of a producer or consumer is one atomic transition. The abstraction `Buffer.Contents` reads the published slots `[head, tail)` as a queue. The main theorems are refinements: every ring operation behaves as the matching operation on a bounded FIFO (`Push`, `PushAll`, `Pop`), and it keeps the ring invariant `Buffer.Valid`.

Some inputs are parameters rather than effects:

- the wall clock (`now`) and the process id (`pid`);
- the result of attaching to an existing region (`attached`);
- the successive ring states a waiting consumer observes (`attempts`);
- fresh handle addresses.

## Model

| member | source | states |
|---|---|---|
| Common.AlignUp128 | src/Core/alloc/mod.rs:37 | rounding up to 128 gives a multiple of 128 that is at least the input and less than 128 above it |
| Common.AlignUp128Least | src/Core/alloc/mod.rs:215 | the rounded value is the least multiple of 128 not below the input |
| Common.AlignUp128Monotone | src/Core/alloc/mod.rs:158 | rounding up preserves order |
| Common.ModDistinct | src/MPMC/Buffer/Buffer_impl.rs:144 | positions less than one capacity apart map to different slot indices under the mask |
| Common.WindowOffsetAt | src/MPMC/Buffer/Buffer_impl.rs:193 | every slot index is the index of some position in each window of `capacity` consecutive positions |
| Meta.Encode | src/MPMC/Structs/Buffer_Structs.rs:7-18 | the 40-byte image holds each field little-endian at offsets 0, 8, 16, 20, 24, 28, 30 and 32, with 4 zero padding bytes |
| Meta.Decode | src/MPMC/Structs/Buffer_Structs.rs:7-18 | decoding succeeds exactly on 40-byte inputs and reads `payload_len` from bytes 32..36 |
| Meta.DecodeEncode | tests/layout.rs:33-42 | decoding an encoded header gives the header back |
| Meta.EncodeDecode | tests/layout.rs:33-42 | every 40-byte image with zero padding is the encoding of the header it decodes to |
| Meta.EncodeDefault | src/MPMC/Structs/Buffer_Structs.rs:8 | the default header encodes to 40 zero bytes |
| Meta.LittleEndianRoundTrip | src/MPMC/Structs/Buffer_Structs.rs:6 | reading back a value written little-endian in a wide enough field gives the value |
| Meta.LittleEndianOfValue | src/MPMC/Structs/Buffer_Structs.rs:6 | writing back the value read from a byte field gives the same bytes |
| Buffer.New | src/MPMC/Buffer/Buffer_impl.rs:14-22 | the view takes the entry's capacity, a mask one below it, and the given cursors and slots; it is well-shaped exactly when there are `capacity` slots of inline size |
| Buffer.Read | src/MPMC/Buffer/Buffer_impl.rs:203-212 | the bytes copied out are the front of the slot's inline area, `payload_len` of them when they fit there; never more than the inline area holds (see Left out) |
| Buffer.InitSlots | src/MPMC/Buffer/Buffer_impl.rs:35-40 | slot `k` gets sequence `k` for each `k`, and nothing else changes |
| Buffer.FreshIsEmpty | src/MPMC/Buffer/Buffer_impl.rs:14-40 | a newly initialised ring of power-of-two capacity satisfies the ring invariant and holds no message |
| Buffer.Write | src/MPMC/Buffer/Buffer_impl.rs:155-170 | a written slot carries the new sequence, the metadata with `payload_len` set to the payload length, and the payload when it fits; only the inline prefix of a longer payload |
| Buffer.Enqueue | src/MPMC/Buffer/Buffer_impl.rs:137-183 | publishes exactly when the tail slot's sequence equals the tail, reports full exactly when it is behind, and touches only that slot |
| Buffer.TailSlot | src/MPMC/Buffer/Buffer_impl.rs:147-181 | on a valid ring the tail slot is never ahead, and it is free exactly when the queue is below capacity |
| Buffer.EnqueueKeepsValid | src/MPMC/Buffer/Buffer_impl.rs:149-171 | an enqueue into a ring below capacity succeeds and keeps the ring invariant |
| Buffer.EnqueueAppends | src/MPMC/Buffer/Buffer_impl.rs:149-171 | a successful enqueue appends the stamped message to the queue |
| Buffer.EnqueueRefinesPush | src/MPMC/Buffer/Buffer_impl.rs:137-183 | enqueue never spins on a valid ring, succeeds exactly when a bounded FIFO push succeeds, and then yields the pushed queue |
| Buffer.WriteBatchNew | src/MPMC/Buffer/Buffer_impl.rs:106-127 | batch item `i` is written to the slot of position `tail + i` with sequence `tail + i + 1` |
| Buffer.WriteBatchOld | src/MPMC/Buffer/Buffer_impl.rs:106-127 | a batch write leaves every slot outside the claimed range unchanged |
| Buffer.EnqueueBatch | src/MPMC/Buffer/Buffer_impl.rs:51-133 | an empty batch succeeds without change; otherwise the batch is taken exactly when it fits in the capacity and every target slot is free, and then the tail moves by the batch size |
| Buffer.AllFreeIffFits | src/MPMC/Buffer/Buffer_impl.rs:66-98 | on a valid ring all target slots are free exactly when the queue has room for the whole batch |
| Buffer.EnqueueBatchKeepsValid | src/MPMC/Buffer/Buffer_impl.rs:100-129 | a batch that fits is taken and the ring invariant holds afterwards |
| Buffer.EnqueueBatchAppends | src/MPMC/Buffer/Buffer_impl.rs:100-129 | a batch that is taken appends its stamped messages in order |
| Buffer.EnqueueBatchRefinesPushAll | src/MPMC/Buffer/Buffer_impl.rs:51-133 | a batch enqueue succeeds exactly when an all-or-nothing FIFO push succeeds, and then yields the pushed queue |
| Buffer.Dequeue | src/MPMC/Buffer/Buffer_impl.rs:187-231 | takes the head message exactly when its slot is published, reports empty exactly when it is behind, and frees the slot for position `head + capacity` |
| Buffer.DequeueKeepsValid | src/MPMC/Buffer/Buffer_impl.rs:198-219 | dequeuing from a non-empty valid ring succeeds and keeps the ring invariant |
| Buffer.DequeueTakesFirst | src/MPMC/Buffer/Buffer_impl.rs:198-219 | a dequeue returns the oldest message and leaves the rest of the queue |
| Buffer.DequeueRefinesPop | src/MPMC/Buffer/Buffer_impl.rs:187-231 | dequeue never spins on a valid ring and behaves as FIFO pop: a message exactly when the queue is non-empty, and then the first one |
| Fifo.EnqueueEachAppends | src/MPMC/Buffer/Buffer_impl.rs:137-183 | enqueuing a sequence of messages that fits appends all of them in order and keeps the invariant |
| Fifo.DequeueNTakes | src/MPMC/Buffer/Buffer_impl.rs:187-231 | `n` dequeues return the first `n` queued messages and leave the rest |
| Fifo.FifoRoundTrip | tests/ringbuffer.rs:47-55 | messages enqueued into an empty ring come back in order with payloads intact, and the ring is empty again |
| Fifo.FullBufferScenario | tests/ringbuffer.rs:63-88 | on a capacity-4 ring, four enqueues fill it, the fifth is refused, and after one dequeue an enqueue succeeds again |
| Fifo.CapacityOneOverwrites | src/MPMC/Buffer/Buffer_impl.rs:143-171 | with one slot, a second enqueue succeeds over an unread message and leaves a ring whose head reads as unpublished |
| Alloc.AcceptsCapacityCorrects | src/Core/alloc/mod.rs:150-155 | the corrected check refuses what the written check refuses, and capacity 1 besides; every ring it admits starts valid and empty |
| Alloc.CapacityOneAccepted | src/Core/alloc/mod.rs:150-155 | as written, creation on a fresh table accepts capacity 1 and places a one-slot channel 0, so not every live ring can tell full from free; the corrected creation refuses the same request unchanged |
| Alloc.CreateChannelChecked | src/Core/alloc/mod.rs:150-155 | the corrected creation refuses capacity 1 as invalid input with nothing changed and handles every other capacity as creation does |
| Alloc.CheckedCreationKeepsRingsUsable | src/Core/alloc/mod.rs:148-253 | the corrected creation keeps the allocator sound and every live ring at two slots or more, and what it creates starts as a valid, empty ring |
| Alloc.FrontierUpToLeast | src/Core/alloc/mod.rs:199-212 | the scan's result is the least bound on the header size and the ends of all live bands |
| Alloc.New | src/Core/alloc/mod.rs:35-92 | creation succeeds exactly when the 128-rounded size holds the header, with a zeroed table, no channels and the counter at 0; otherwise invalid input |
| Alloc.NewIsEmpty | src/Core/alloc/mod.rs:72-91 | a new allocator satisfies the counted invariant, lists no channels and uses exactly the header |
| Alloc.PlaceChannel | src/Core/alloc/mod.rs:199-246 | the band starts at the aligned frontier; out of memory exactly when the aligned band would pass the region's end; otherwise only the chosen row changes and the count rises by one |
| Alloc.CreateChannel | src/Core/alloc/mod.rs:148-253 | a capacity that is not a non-zero power of two is refused unchanged, while capacity 1 is accepted; an exhausted counter is out of memory; otherwise the id is consumed even when creation then fails; a success returns the consumed id, places the band at the aligned frontier in that row with head and tail 0, leaves every other row unchanged, and the lookup finds it |
| Alloc.GetChannel | src/Core/alloc/mod.rs:256-274 | a channel is found exactly for an id inside the table whose row is live, with that row's capacity and offset |
| Alloc.RemoveChannel | src/Core/alloc/mod.rs:299-319 | succeeds exactly for a live row; frees only that row; leaves the counter and the channel count unchanged; an error changes nothing |
| Alloc.PlaceKeepsSound | src/Core/alloc/mod.rs:199-246 | placing a band keeps bands disjoint, aligned and inside the region, and a success pushes the frontier forward |
| Alloc.CreateKeepsSound | src/Core/alloc/mod.rs:148-253 | creation keeps the allocator sound and counted, succeeds exactly when the capacity is a non-zero power of two (1 included), an id is left and the aligned band fits, grows used memory on success, and never reports a row already in use |
| Alloc.RemoveKeepsSound | src/Core/alloc/mod.rs:299-319 | removal keeps the allocator sound; afterwards the id is not found, every other lookup is unchanged, and used memory does not grow |
| Alloc.UsedPlusAvailable | src/Core/alloc/mod.rs:277-296 | used and available memory add up to the region size, both for the whole-table frontier and for the scan as written |
| Alloc.GetChannelsAsWrittenSpec | src/Core/alloc/mod.rs:322-339 | the listing as written holds exactly the channels the lookup finds with an id below `channel_count`, in increasing id order |
| Alloc.UsedMemoryAsWrittenSpec | src/Core/alloc/mod.rs:277-291 | the used memory as written is the least bound on the header size and the band ends of rows below `channel_count`, removed rows included, and lies inside the region |
| Alloc.AvailableMemory | src/Core/alloc/mod.rs:294-296 | available memory never exceeds the region size; it is 0 exactly when the used bytes reach the size, and otherwise adds up with them to the size |
| Alloc.AvailableMemoryAsWritten | src/Core/alloc/mod.rs:294-296 | the same saturating difference, taken from the used memory as the source scans it |
| Alloc.LiveChannelsSpec | src/Core/alloc/mod.rs:322-339 | the corrected listing holds exactly the channels the lookup finds, in increasing id order |
| Alloc.LiveUpToSpec | src/Core/alloc/mod.rs:322-339 | scanning rows below `n` lists exactly the found channels with ids below `n`, in increasing order |
| Alloc.AsWrittenAgreesWithoutBurnedIds | src/Core/alloc/mod.rs:277-291 | when no live row lies at or past the channel count, the listing as written equals the corrected one, and so does used memory if those rows are all live |
| Alloc.BurnedIdHidesChannel | src/Core/alloc/mod.rs:161-183 | a failed creation consumes id 1; the next channel gets id 2; the listing as written omits it and undercounts used memory, while the corrected listing includes it |
| Alloc.ChannelCountCountsCreations | src/Core/alloc/mod.rs:342-344 | over any sequence of creations and removals, `channel_count` grows by exactly the number of ids issued; removals and failures leave it as it was |
| Alloc.RunIssuesFreshIds | src/Core/alloc/mod.rs:161-183 | over any sequence of creations and removals the allocator stays counted, and the ids issued are fresh and strictly increasing |
| Producers.Send | src/MPMC/producer.rs:100-153 | an oversized payload is invalid input and changes nothing; otherwise an id is consumed; success exactly when the tail slot is free; a full ring is "would block" while keep-alive is set and "broken pipe" after; the slot gets the stamped metadata |
| Producers.SendRefinesPush | src/MPMC/producer.rs:100-153 | on a valid ring, send succeeds exactly when the payload fits and the queue has room, and then appends the stamped message; otherwise the queue is unchanged |
| Producers.New | src/MPMC/producer.rs:21-37 | a new producer is bound to its channel id, has keep-alive set, numbers messages from 0 and limits payloads to the inline size |
| Producers.ValidTailSettled | src/MPMC/Buffer/Buffer_impl.rs:147-181 | on every valid ring, one slot included, the tail slot is never ahead of the tail, so a send never spins |
| Producers.NewProducerLimit | src/MPMC/producer.rs:26-35 | a new producer starts at id 0 and refuses exactly the payloads longer than the inline size |
| Producers.BatchItems | src/MPMC/producer.rs:60-70 | batch item `i` carries payload `i`, id `base + i` modulo 2^64, and the batch's one timestamp |
| Producers.SendBatchAsWritten | src/MPMC/producer.rs:41-90 | an empty batch succeeds with nothing consumed; otherwise `n` ids are consumed; success exactly when the batch fits and all its slots are free; a refusal is "would block" and leaves the ring unchanged |
| Producers.OversizedBatchTruncated | src/MPMC/producer.rs:41-90 | as written, a batch with a payload one byte over the inline size is accepted; its slot stores only the inline prefix yet records the full length, so the dequeue that takes it copies `payload_len` bytes, more than the slot holds; the checked batch send refuses it |
| Producers.SendBatch | src/MPMC/producer.rs:100-113 | a batch holding an oversized payload is invalid input and changes nothing; otherwise it behaves as written |
| Producers.SendBatchRefinesPushAll | src/MPMC/producer.rs:41-90 | on a valid ring, the checked batch send succeeds exactly when all payloads fit and the queue has room, and then appends the stamped batch in order |
| Consumers.New | src/MPMC/consumer.rs:20-32 | a new consumer is bound to its channel id, has the alive flag set and no receipt time, and so counts the producer as alive at any time |
| Consumers.IsProducerAlive | src/MPMC/consumer.rs:107-125 | the producer counts as alive when the keep-alive flag is set or a message arrived less than 5 seconds ago, and as gone otherwise |
| Consumers.FreshConsumerAlive | src/MPMC/consumer.rs:20-32 | a new consumer, with no message yet, judges liveness by the flag alone, which starts set |
| Consumers.ValidHeadSettled | src/MPMC/Buffer/Buffer_impl.rs:222-228 | on a valid ring the head slot is never ahead, so a receive never spins |
| Consumers.ReceiveWithMeta | src/MPMC/consumer.rs:56-75 | a message is returned exactly when dequeue yields one, and it records the receipt time; otherwise the ring is unchanged; "broken pipe" exactly when the producer seems gone, and "nothing" otherwise |
| Consumers.Receive | src/MPMC/consumer.rs:50-53 | returns the payload of the message that receive-with-meta returns, with the same consumer and ring; on an empty ring, "nothing" while the producer seems alive and "broken pipe" otherwise |
| Consumers.ReceiveRefinesPop | src/MPMC/consumer.rs:56-75 | on a valid ring, a receive is FIFO pop; on an empty queue the queue stays unchanged and the answer is "nothing" exactly while the producer seems alive |
| Consumers.ReceiptKeepsProducerAlive | src/MPMC/consumer.rs:35-42 | for 5 seconds after a receipt the producer counts as alive even with the flag cleared |
| Consumers.ReceiveBlockingWithMeta | src/MPMC/consumer.rs:84-104 | waits exactly while every round finds nothing and the producer seems alive; otherwise it ends at the first other round with that round's answer, and never reports "empty" |
| Consumers.ReceiveBlocking | src/MPMC/consumer.rs:78-104 | waits exactly while every round finds nothing; otherwise returns the ending round's answer reduced to its payload (never "nothing", and only the broken pipe as an error), with that round's consumer and ring, so the receipt time and the moved head are kept |
| Consumers.ReceiveTimeoutWithMeta | src/MPMC/consumer.rs:142-168 | keeps polling exactly while rounds find nothing before the deadline; otherwise returns the first message, error or expired "nothing"; a zero timeout returns the first poll |
| Consumers.ReceiveTimeout | src/MPMC/consumer.rs:136-139 | keeps polling exactly while rounds find nothing before the deadline; otherwise returns the first round's answer reduced to its payload, with "nothing" only once that round expired; a zero timeout is a single receive |
| Consumers.SendThenReceive | src/MPMC/producer.rs:123-137 | a message sent into an empty valid ring is received with its stamped header and payload, and the ring is empty again |
| Builder.Default | src/MPMC/builder.rs:10-23 | the default builder uses channel 0, 1024 slots (a power of two of at least two, so creation accepts it and the ring can tell full from free), and a 128-aligned 128 MiB region |
| Builder.WithBufferSize | src/MPMC/builder.rs:25-28 | sets the region size and keeps the channel id and capacity |
| Builder.WithChannelId | src/MPMC/builder.rs:30-33 | sets the channel id and keeps the region size and capacity |
| Builder.WithCapacity | src/MPMC/builder.rs:63-66 | sets the capacity and keeps the region size and channel id |
| Builder.SettersIndependent | src/MPMC/builder.rs:25-66 | each setter sets its own field and nothing else, so setters of different fields commute |
| Builder.CreateChannelAt | src/MPMC/builder.rs:54-57 | creation at a chosen id: a capacity that is not a non-zero power of two (capacity 1 passes) or an id past the table is invalid input, a live row already exists, and an error changes nothing; a success is found at that id and leaves every other lookup unchanged |
| Builder.CreateAtKeepsSound | src/MPMC/builder.rs:54-57 | creation at a chosen id keeps the allocator sound, succeeds exactly when the capacity is a non-zero power of two (1 included), the row exists and is free, and the aligned band fits, and then grows used memory |
| Builder.BuildProducer | src/MPMC/builder.rs:35-61 | a failure to open the region is returned as is; when the id is absent, the build succeeds exactly when creation at that id does, and otherwise returns creation's error; a built producer holds an allocator in which its channel id is found, and a fresh producer for that id |
| Builder.BuildProducerReuses | src/MPMC/builder.rs:49-53 | an existing channel is reused with the allocator untouched, whatever capacity was requested |
| Builder.BuildProducerCreatesOnlyWhenAbsent | src/MPMC/builder.rs:54-57 | the allocator changes only if the id was absent, and then the channel has the requested id and capacity |
| Builder.BuildConsumer | src/MPMC/builder.rs:68-77 | a consumer succeeds exactly when attach succeeds and the id is found, holding the attached allocator unchanged; otherwise "not found" or the attach error |
| Builder.BuildProducerKeepsSound | src/MPMC/builder.rs:35-61 | opening keeps a sound allocator sound, whether attached or created |
| Builder.ProducerThenConsumer | src/MPMC/builder.rs:68-77 | a consumer opened on the allocator a producer built finds the producer's channel |
| Ffi.SendStatus | src/ffi.rs:105-109 | success is 0; "would block" is -4; every other error is -6 |
| Ffi.ProducerSend | src/ffi.rs:93-110 | a null handle or data pointer gives -1 and changes nothing; otherwise the status is that of the producer's send, whose effects are kept; only 0, -1, -4 and -6 occur |
| Ffi.ProducerSendStatuses | src/ffi.rs:93-110 | for a new producer on a valid ring, 0 exactly when the payload fits and there is room; -4 exactly when only room is lacking; -6 exactly for an oversized payload |
| Ffi.Deliver | src/ffi.rs:176-204 | an error gives -6 and nothing gives -5; a message longer than `*out_len` gives -2 and writes its length back; otherwise 0 with the bytes copied to the front of a non-null buffer and their length written back; a null buffer leaves `out_len` alone |
| Ffi.ConsumerReceiveNow | src/ffi.rs:163-205 | a null handle or `out_len` gives -1 before any dequeue; otherwise exactly one receive is made and its result is delivered |
| Ffi.TooSmallBufferLosesMessage | src/ffi.rs:189-193 | a message longer than the caller's buffer gives -2 with its length written back, yet it has left the queue |
| Ffi.EmptyReceiveStatus | src/ffi.rs:182-186 | a non-blocking receive on an empty queue gives -5 while the producer seems alive and -6 once it does not, with the ring untouched |
| Ffi.ConsumerReceiveBlocking | src/ffi.rs:163-205 | a blocking receive never gives -5; it keeps waiting exactly while every round finds nothing, and otherwise reports the first other round's answer and carries that round's consumer and ring; after -2 the message has left the queue |
| Ffi.ProducerNew | src/ffi.rs:37-81 | the handle is the new address exactly when the builder succeeds, bound to a fresh producer, and null with nothing changed otherwise |
| Ffi.ConsumerNew | src/ffi.rs:134-148 | the handle is the new address exactly when the attached region holds the channel, bound to a fresh consumer, and null with nothing changed otherwise |
| Ffi.ProducerFree | src/ffi.rs:114-120 | freeing null does nothing; freeing a handle releases it and leaves every other handle |
| Ffi.ConsumerFree | src/ffi.rs:209-215 | freeing null does nothing; freeing a handle releases it and leaves every other handle |
| Ffi.FreeAfterNew | src/ffi.rs:39-81 | freeing the handle a creation returned, null or not, restores the handles as they were |

## Left out

- Shared-memory mapping (memfd, mmap, `attach` with its magic check, `SharedMemory.rs`) is left out: `New` succeeds whenever its size check passes, and attaching is a parameter.
- Attaching on Linux: `SharedMemory::attach` (src/Core/SharedMemory.rs:140-147) is a stub that always fails with `Unsupported`. So in the program as shipped, `build_consumer` and `dmxp_consumer_new` always fail and `build_producer` always creates a new region. The model's branches for a successful attach describe the intended behaviour, not the current one.
- Atomics, compare-and-swap retries and memory ordering are left out: each step is one atomic transition. Interleavings of several processes are not modelled.
- The spin branches of enqueue and dequeue are left out: enqueue spins while a tail slot is ahead, and dequeue spins while a head slot is unpublished. `Producers.TailSettled` and `Consumers.HeadSettled` exclude those states, and every valid ring meets both, whatever its capacity (`Producers.ValidTailSettled`, `Consumers.ValidHeadSettled`).
- Futex signalling (`signal_consumer`, `wait_for_data`, `futex.rs`) is left out: a waiting loop is modelled over the sequence of ring states and clock readings it observes.
- The wall clock and `std::process::id` are parameters.
- The `i64` casts of sequence numbers and the `u64` wrap-around of the ring cursors are left out: cursors are unbounded naturals.
- Slot byte layout, raw-pointer copies and `slot_stride` are left out: `SLOT_HEADER`, `HEADER_SIZE` and `MSG_INLINE` are abstract positive constants.
- Buffer.Read: when `payload_len` exceeds the inline size, the source copies past the slot's payload array. The model returns only the inline bytes, because the bytes past the slot are not part of the model.
- Consumers.IsProducerAlive: the `i64` subtraction `now - last` is taken without overflow.
- The debug and getter files (`debug.rs`, `getters.rs`, `StructDebug.rs`), the stale `Buffer.rs` and `layout.rs` definitions, and the Python, Go and C clients are not part of this model.
- Builder.CreateChannelAt: the allocator offers no creation at a chosen id; the builder's call is modelled by this stand-in, with the same capacity check and placement as `create_channel`.
- Alloc.GetChannelsAsWritten: the source indexes the 256-row table with every row below `channel_count` and would stop with a bounds panic once `channel_count` passes 256 (reachable only through the builder's creation at a chosen id, which the allocator does not define and `Builder.CreateChannelAt` stands in for: `create_channel` refuses ids from 256 on and never reuses one, so through it `channel_count` cannot pass 256); the model stops the scan at the table's end instead.
- Alloc.UsedMemoryAsWritten: the same bounds panic past 256 rows is not modelled; the scan stops at the table's end.
- Ffi.ProducerNew: the region opened first is dropped and the builder opens it again. The model gives both openings the same attach result, because the region they reach has the same content.
- `Drop`, reference counting and the `eprintln!` diagnostics are left out.

## Findings

| source | as written | input that shows it | evidently intended | confidence | as-written member | corrected member |
|---|---|---|---|---|---|---|
| src/Core/alloc/mod.rs:150 | capacity is accepted when it is a non-zero power of two, so 1 passes | `create_channel(1)`, then two enqueues and no dequeue (`Fifo.CapacityOneOverwrites`) | a ring that can tell full from free: at least two slots | high, not executed | Alloc.CapacityOneAccepted | Alloc.CheckedCreationKeepsRingsUsable |
| src/Core/alloc/mod.rs:282 | `used_memory` and `get_channels` scan rows `0 .. channel_count`, but a failed creation consumes an id without counting a channel | region with room for one 2-slot band after the first: create(2), create(256) fails and consumes id 1, create(2) gets id 2 | scan the whole table | high, not executed | Alloc.BurnedIdHidesChannel | Alloc.LiveChannelsSpec |
| src/MPMC/producer.rs:41-90 | `send_batch` never checks payload size; the slot records the full length but stores only the inline bytes, so the dequeue copies past the slot | a batch of one payload of `MSG_INLINE + 1` bytes | refuse oversized payloads as `send` does | high, not executed | Producers.OversizedBatchTruncated | Producers.SendBatchRefinesPushAll |
