/** `ChannelBuilder` (src/MPMC/builder.rs): defaults, setters, and the
    get-or-create policy that opens a channel for a producer or a consumer.

    Attaching to an existing region is a parameter (`attached`): the result
    of `SharedMemoryAllocator::attach`, whose mapping and magic check are
    not part of this model.

    The producer path asks the allocator to create a channel at the
    builder's chosen id (src/MPMC/builder.rs:56), but the allocator's
    `create_channel` (src/Core/alloc/mod.rs:148) takes only a capacity and
    issues ids from its own counter. `CreateChannelAt` stands in for the
    call the builder makes: it validates and places a band exactly as
    creation does, but in the requested row, and lifts the id counter past
    that row so that counter-issued ids never collide with it. Only its
    promise matters to the builder: on success the requested id is found. */
module Builder {
  import opened Common
  import opened Alloc
  import Producers
  import Consumers

  datatype ChannelBuilder = ChannelBuilder(bufferSize: nat, channelId: u32, capacity: nat)

  const DEFAULT_BUFFER_SIZE: nat := 128 * 1024 * 1024
  const DEFAULT_CAPACITY: nat := 1024

  /** `ChannelBuilder::default` / `new`: channel 0, 1024 slots (a capacity
      creation accepts, and the ring can tell full from free) and a 128 MiB
      region (already 128-aligned, so `new` keeps its size). */
  function Default(): (d: ChannelBuilder)
    ensures d.channelId == 0 && d.capacity == 1024
    ensures AcceptsCapacityAsWritten(d.capacity) && AcceptsCapacity(d.capacity)
    ensures AlignUp128(d.bufferSize) == d.bufferSize == 134217728
  {
    DefaultsUsable();
    ChannelBuilder(DEFAULT_BUFFER_SIZE, 0, DEFAULT_CAPACITY)
  }

  /** `with_buffer_size`: sets the region size and keeps the rest. */
  function WithBufferSize(b: ChannelBuilder, size: nat): (r: ChannelBuilder)
    ensures r.bufferSize == size && r.channelId == b.channelId && r.capacity == b.capacity
  {
    b.(bufferSize := size)
  }

  /** `with_channel_id`: sets the channel id and keeps the rest. */
  function WithChannelId(b: ChannelBuilder, id: u32): (r: ChannelBuilder)
    ensures r.channelId == id && r.bufferSize == b.bufferSize && r.capacity == b.capacity
  {
    b.(channelId := id)
  }

  /** `with_capacity`: sets the capacity and keeps the rest. */
  function WithCapacity(b: ChannelBuilder, capacity: nat): (r: ChannelBuilder)
    ensures r.capacity == capacity && r.bufferSize == b.bufferSize && r.channelId == b.channelId
  {
    b.(capacity := capacity)
  }

  /** The default constants: 1024 is a power of two, and 128 MiB is a
      multiple of 128. */
  lemma DefaultsUsable()
    ensures IsPowerOfTwo(DEFAULT_CAPACITY) && DEFAULT_CAPACITY >= 2
    ensures AlignUp128(DEFAULT_BUFFER_SIZE) == DEFAULT_BUFFER_SIZE == 134217728
  {
    assert IsPowerOfTwo(4) && IsPowerOfTwo(8) && IsPowerOfTwo(16) && IsPowerOfTwo(32);
    assert IsPowerOfTwo(64) && IsPowerOfTwo(128) && IsPowerOfTwo(256) && IsPowerOfTwo(512);
    AlignUp128Of(DEFAULT_BUFFER_SIZE);
  }

  /** Each setter changes its own field and nothing else, so setters of
      different fields commute and a later setter of the same field wins. */
  lemma SettersIndependent(b: ChannelBuilder, size: nat, id: u32, capacity: nat)
    ensures WithBufferSize(b, size).bufferSize == size
    ensures WithBufferSize(b, size).(bufferSize := b.bufferSize) == b
    ensures WithChannelId(b, id).channelId == id
    ensures WithChannelId(b, id).(channelId := b.channelId) == b
    ensures WithCapacity(b, capacity).capacity == capacity
    ensures WithCapacity(b, capacity).(capacity := b.capacity) == b
    ensures WithChannelId(WithCapacity(b, capacity), id) == WithCapacity(WithChannelId(b, id), capacity)
    ensures WithBufferSize(WithChannelId(b, id), size) == WithChannelId(WithBufferSize(b, size), id)
    ensures WithCapacity(WithCapacity(b, 1), capacity) == WithCapacity(b, capacity)
  {
  }

  // ---------------------------------------------------------------------
  // Creation at a chosen id.

  /** Creation in row `id`: an unaccepted capacity or an id past the table
      is invalid input, a live row already exists; otherwise the band is
      placed as `create_channel` places it, and the counter is raised past
      `id` if it was not already. */
  function CreateChannelAt(a: Allocator, capacity: nat, id: nat): (o: Outcome<Channel>)
    requires |a.entries| == MAX_CHANNELS
    ensures |o.alloc.entries| == MAX_CHANNELS
    ensures o.result.Err? ==> o.alloc == a
    ensures !AcceptsCapacityAsWritten(capacity) || id >= MAX_CHANNELS ==> o.result == Err(InvalidInput)
    ensures AcceptsCapacityAsWritten(capacity) && id < MAX_CHANNELS && Live(a.entries[id]) ==>
      o.result == Err(AlreadyExists)
    ensures o.result.Ok? ==>
      && o.result.value.id == id && o.result.value.capacity == capacity
      && GetChannel(o.alloc, id) == Some(o.result.value)
      && o.alloc.channelCount == a.channelCount + 1
      && (forall j :: j != id ==> GetChannel(o.alloc, j) == GetChannel(a, j))
  {
    if !AcceptsCapacityAsWritten(capacity) || id >= MAX_CHANNELS then Outcome(a, Err(InvalidInput))
    else if Live(a.entries[id]) then Outcome(a, Err(AlreadyExists))
    else
      var o := PlaceChannel(a.(nextId := Max(a.nextId, id + 1)), id, capacity);
      if o.result.Err? then Outcome(a, o.result) else o
  }

  /** Creation at a chosen id keeps the allocator sound; it succeeds exactly
      when the capacity is accepted, the row exists and is free, and the
      aligned band fits; and a success strictly grows the used memory. */
  lemma CreateAtKeepsSound(a: Allocator, capacity: nat, id: nat)
    requires Sound(a)
    ensures var o := CreateChannelAt(a, capacity, id);
      && Sound(o.alloc)
      && (o.result.Ok? <==>
            && AcceptsCapacityAsWritten(capacity) && id < MAX_CHANNELS && !Live(a.entries[id])
            && AlignUp128(Frontier(a)) + AlignUp128(BandSize(capacity)) <= a.size)
      && (o.result.Ok? ==> UsedMemory(o.alloc) > UsedMemory(a))
  {
    if AcceptsCapacityAsWritten(capacity) && id < MAX_CHANNELS && !Live(a.entries[id]) {
      var claimed := a.(nextId := Max(a.nextId, id + 1));
      assert Sound(claimed) by {
        forall i | 0 <= i < MAX_CHANNELS && Live(a.entries[i])
          ensures Placed(claimed, i)
        {
          assert Placed(a, i);
        }
      }
      assert Frontier(claimed) == Frontier(a);
      PlaceKeepsSound(claimed, id, capacity);
    }
  }

  // ---------------------------------------------------------------------
  // Building endpoints.

  /** An opened endpoint: the allocator it holds, its channel, and the
      producer or consumer state. */
  datatype Built<+T> = Built(alloc: Allocator, channel: Channel, endpoint: T)

  /** The allocator a producer opens: the attached one, or else a new
      region of the builder's size. */
  function ProducerRegion(b: ChannelBuilder, attached: Result<Allocator>): (r: Result<Allocator>)
    ensures attached.Ok? ==> r == attached
    ensures attached.Err? ==> r == New(b.bufferSize)
  {
    if attached.Ok? then attached else New(b.bufferSize)
  }

  predicate WellFormed(attached: Result<Allocator>)
  {
    attached.Ok? ==> |attached.value.entries| == MAX_CHANNELS
  }

  /** `build_producer`: open the region (attaching, else creating); reuse
      the channel if the id is already live, whatever capacity was asked
      for; otherwise create it at that id. Errors propagate. */
  function BuildProducer(b: ChannelBuilder, attached: Result<Allocator>): (o: Result<Built<Producers.Producer>>)
    requires WellFormed(attached)
    ensures o.Ok? ==>
      && ProducerRegion(b, attached).Ok?
      && |o.value.alloc.entries| == MAX_CHANNELS
      && GetChannel(o.value.alloc, b.channelId) == Some(o.value.channel)
      && o.value.endpoint == Producers.New(b.channelId)
    ensures ProducerRegion(b, attached).Err? ==> o == Err(ProducerRegion(b, attached).error)
    ensures ProducerRegion(b, attached).Ok? && GetChannel(ProducerRegion(b, attached).value, b.channelId).None? ==>
      var c := CreateChannelAt(ProducerRegion(b, attached).value, b.capacity, b.channelId);
      && (o.Ok? <==> c.result.Ok?)
      && (c.result.Err? ==> o == Err(c.result.error))
      && (c.result.Ok? ==> o == Ok(Built(c.alloc, c.result.value, Producers.New(b.channelId))))
  {
    var region := ProducerRegion(b, attached);
    if region.Err? then Err(region.error)
    else
      var a := region.value;
      match GetChannel(a, b.channelId)
        case Some(ch) => Ok(Built(a, ch, Producers.New(b.channelId)))
        case None =>
          var c := CreateChannelAt(a, b.capacity, b.channelId);
          if c.result.Err? then Err(c.result.error)
          else Ok(Built(c.alloc, c.result.value, Producers.New(b.channelId)))
  }

  /** `build_consumer`: attach (failing if that fails) and look the channel
      up; an absent channel is not found. Nothing is ever created. */
  function BuildConsumer(b: ChannelBuilder, attached: Result<Allocator>): (o: Result<Built<Consumers.Consumer>>)
    requires WellFormed(attached)
    ensures o.Ok? <==> attached.Ok? && GetChannel(attached.value, b.channelId).Some?
    ensures o.Ok? ==>
      && o.value.alloc == attached.value
      && Some(o.value.channel) == GetChannel(attached.value, b.channelId)
      && o.value.endpoint == Consumers.New(b.channelId)
    ensures attached.Ok? && GetChannel(attached.value, b.channelId).None? ==> o == Err(NotFound)
    ensures attached.Err? ==> o == Err(attached.error)
  {
    if attached.Err? then Err(attached.error)
    else
      match GetChannel(attached.value, b.channelId)
        case Some(ch) => Ok(Built(attached.value, ch, Consumers.New(b.channelId)))
        case None => Err(NotFound)
  }

  /** An existing channel is reused unchanged: the allocator is untouched,
      the channel is the one the lookup finds, and the requested capacity
      makes no difference. */
  lemma BuildProducerReuses(b: ChannelBuilder, a: Allocator)
    requires |a.entries| == MAX_CHANNELS && GetChannel(a, b.channelId).Some?
    ensures BuildProducer(b, Ok(a)) == Ok(Built(a, GetChannel(a, b.channelId).value, Producers.New(b.channelId)))
    ensures forall capacity :: BuildProducer(WithCapacity(b, capacity), Ok(a)) == BuildProducer(b, Ok(a))
  {
  }

  /** A channel is created only when the lookup finds none: whenever the
      allocator a producer ends up with differs from the one it opened, the
      id was absent there, and it is present afterwards with the requested
      capacity. */
  lemma BuildProducerCreatesOnlyWhenAbsent(b: ChannelBuilder, attached: Result<Allocator>)
    requires WellFormed(attached)
    ensures var o := BuildProducer(b, attached);
      o.Ok? && o.value.alloc != ProducerRegion(b, attached).value ==>
        && GetChannel(ProducerRegion(b, attached).value, b.channelId).None?
        && o.value.channel.capacity == b.capacity
        && o.value.channel.id == b.channelId
  {
  }

  /** Opening keeps the allocator sound, whether it was attached (and
      sound) or newly created. */
  lemma BuildProducerKeepsSound(b: ChannelBuilder, attached: Result<Allocator>)
    requires attached.Ok? ==> Sound(attached.value)
    ensures WellFormed(attached)
    ensures BuildProducer(b, attached).Ok? ==> Sound(BuildProducer(b, attached).value.alloc)
  {
    var region := ProducerRegion(b, attached);
    if attached.Err? && region.Ok? {
      NewIsEmpty(b.bufferSize);
    }
    if region.Ok? && GetChannel(region.value, b.channelId).None? {
      CreateAtKeepsSound(region.value, b.capacity, b.channelId);
    }
  }

  /** A consumer built on the allocator a producer opened finds the
      producer's channel. */
  lemma ProducerThenConsumer(b: ChannelBuilder, attached: Result<Allocator>)
    requires WellFormed(attached) && BuildProducer(b, attached).Ok?
    ensures var p := BuildProducer(b, attached).value;
      && WellFormed(Ok(p.alloc))
      && BuildConsumer(b, Ok(p.alloc)) == Ok(Built(p.alloc, p.channel, Consumers.New(b.channelId)))
  {
  }
}
