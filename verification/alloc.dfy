/** The channel registry (src/Core/alloc/mod.rs): a fixed table of
    `MAX_CHANNELS` entries at the start of a shared region, a sequential
    channel-id counter, and bump allocation of 128-byte-aligned data bands
    after the header.

    The model keeps the table and the counter; the bytes of the region and
    the slot memory of each band are not modelled here (a channel's ring is
    modelled by `Buffer`). Creating the region (memfd, mmap) is left out:
    `New` succeeds whenever the size check passes. */
module Alloc {
  import opened Common
  import opened Buffer

  /** One row of the channel table. `capacity == 0` marks a free row. */
  datatype Entry = Entry(
    channelId: nat,
    flags: nat,
    bandOffset: nat,
    capacity: nat,
    head: nat,
    tail: nat)

  /** A zeroed row, as the header is initialised. */
  const EmptyEntry: Entry := Entry(0, 0, 0, 0, 0, 0)

  predicate Live(e: Entry)
  {
    e.capacity != 0
  }

  /** Bytes of slot memory a channel of `capacity` slots spans. */
  function BandSize(capacity: nat): nat
  {
    capacity * SLOT_STRIDE
  }

  function BandEnd(e: Entry): nat
  {
    e.bandOffset + BandSize(e.capacity)
  }

  datatype Allocator = Allocator(
    size: nat,
    nextId: nat,
    channelCount: nat,
    entries: seq<Entry>)

  /** What a lookup hands back: the id, the capacity and where the band
      starts (the source's `ChannelPartition`, whose ring view is `Buffer`). */
  datatype Channel = Channel(id: nat, capacity: nat, bandOffset: nat)

  /** The allocator after an operation, and what the operation returned. */
  datatype Outcome<+T> = Outcome(alloc: Allocator, result: Result<T>)

  // ---------------------------------------------------------------------
  // Capacity validation.

  /** The check creation performs: `capacity != 0` and
      `capacity & (capacity - 1) == 0`, that is, a power of two. It admits
      capacity 1, for which the ring cannot tell full from free (see
      `Fifo.CapacityOneOverwrites`). */
  predicate AcceptsCapacityAsWritten(capacity: nat)
  {
    IsPowerOfTwo(capacity)
  }

  /** The check as the ring needs it: a power of two of at least two slots. */
  predicate AcceptsCapacity(capacity: nat)
  {
    IsPowerOfTwo(capacity) && capacity >= 2
  }

  /** The corrected check refuses exactly what the written one refuses, and
      capacity 1 besides; every ring it lets through satisfies the ring's
      invariant from the start and refines the bounded FIFO. */
  lemma AcceptsCapacityCorrects(capacity: nat)
    ensures AcceptsCapacity(capacity) <==> AcceptsCapacityAsWritten(capacity) && capacity != 1
    ensures AcceptsCapacity(capacity) ==>
      && Valid(Fresh(capacity)) && Contents(Fresh(capacity)) == []
      && Fresh(capacity).capacity >= 2
  {
    if AcceptsCapacity(capacity) {
      FreshIsEmpty(capacity);
    }
  }

  // ---------------------------------------------------------------------
  // Scans over the table.

  /** The end of the highest live band among rows `0 .. n - 1`, and at least
      the header size: where creation may start the next band (before
      alignment). */
  function FrontierUpTo(es: seq<Entry>, n: nat): (f: nat)
    requires n <= |es|
    ensures f >= HEADER_SIZE
    ensures forall i :: 0 <= i < n && Live(es[i]) ==> BandEnd(es[i]) <= f
  {
    if n == 0 then HEADER_SIZE
    else Max(FrontierUpTo(es, n - 1), if Live(es[n - 1]) then BandEnd(es[n - 1]) else 0)
  }

  /** The frontier is the least such bound. */
  lemma {:induction false} FrontierUpToLeast(es: seq<Entry>, n: nat, bound: nat)
    requires n <= |es| && HEADER_SIZE <= bound
    requires forall i :: 0 <= i < n && Live(es[i]) ==> BandEnd(es[i]) <= bound
    ensures FrontierUpTo(es, n) <= bound
  {
    if n > 0 {
      FrontierUpToLeast(es, n - 1, bound);
    }
  }

  function Frontier(a: Allocator): nat
    requires |a.entries| == MAX_CHANNELS
  {
    FrontierUpTo(a.entries, |a.entries|)
  }

  /** The live rows among `0 .. n - 1`, in row order, as channels named by
      their stored ids. */
  function LiveUpTo(es: seq<Entry>, n: nat): (cs: seq<Channel>)
    requires n <= |es|
    ensures |cs| <= n
  {
    if n == 0 then []
    else
      var e := es[n - 1];
      LiveUpTo(es, n - 1) + (if Live(e) then [Channel(e.channelId, e.capacity, e.bandOffset)] else [])
  }

  /** `max(header, band_offset + capacity * stride)` over rows `0 .. n - 1`,
      live or not: the scan `used_memory` performs. */
  function EndsUpTo(es: seq<Entry>, n: nat): (f: nat)
    requires n <= |es|
    ensures f >= HEADER_SIZE
    ensures forall i :: 0 <= i < n ==> BandEnd(es[i]) <= f
  {
    if n == 0 then HEADER_SIZE else Max(EndsUpTo(es, n - 1), BandEnd(es[n - 1]))
  }

  lemma {:induction false} EndsUpToLeast(es: seq<Entry>, n: nat, bound: nat)
    requires n <= |es| && HEADER_SIZE <= bound
    requires forall i :: 0 <= i < n ==> BandEnd(es[i]) <= bound
    ensures EndsUpTo(es, n) <= bound
  {
    if n > 0 {
      EndsUpToLeast(es, n - 1, bound);
    }
  }

  // ---------------------------------------------------------------------
  // The invariant.

  /** A live row names itself, holds an accepted capacity, and has a
      128-aligned band after the header and inside the region. */
  predicate Placed(a: Allocator, i: nat)
    requires i < |a.entries|
  {
    var e := a.entries[i];
    && e.channelId == i
    && AcceptsCapacityAsWritten(e.capacity)
    && HEADER_SIZE <= e.bandOffset
    && e.bandOffset % 128 == 0
  }

  predicate Disjoint(e: Entry, f: Entry)
  {
    BandEnd(e) <= f.bandOffset || BandEnd(f) <= e.bandOffset
  }

  /** What every reachable allocator satisfies: a full table, rows from the
      counter on still free, every band (even a removed one) inside the
      region, live rows placed, and live bands pairwise disjoint. */
  predicate Sound(a: Allocator)
  {
    && |a.entries| == MAX_CHANNELS
    && a.size % 128 == 0 && HEADER_SIZE <= a.size
    && a.nextId <= MAX_CHANNELS
    && (forall i :: a.nextId <= i < MAX_CHANNELS ==> !Live(a.entries[i]))
    && (forall i :: 0 <= i < MAX_CHANNELS ==> BandEnd(a.entries[i]) <= a.size)
    && (forall i :: 0 <= i < MAX_CHANNELS && Live(a.entries[i]) ==> Placed(a, i))
    && (forall i, j :: 0 <= i < j < MAX_CHANNELS && Live(a.entries[i]) && Live(a.entries[j]) ==>
          Disjoint(a.entries[i], a.entries[j]))
  }

  /** The counter bound that holds when channels come only from `create_channel`:
      every success is counted once, and each claimed a fresh id. */
  predicate Counted(a: Allocator)
  {
    Sound(a) && a.channelCount <= a.nextId
  }

  // ---------------------------------------------------------------------
  // Operations.

  /** `SharedMemoryAllocator::new`: the size is rounded up to a multiple of
      128 and must hold the header; the table starts zeroed with no
      channels and the id counter at 0. */
  function New(size: nat): (r: Result<Allocator>)
    ensures r.Ok? <==> HEADER_SIZE <= AlignUp128(size)
    ensures r.Err? ==> r.error == InvalidInput
    ensures r.Ok? ==>
      && r.value.size == AlignUp128(size)
      && r.value.nextId == 0 && r.value.channelCount == 0
      && |r.value.entries| == MAX_CHANNELS
      && (forall i :: 0 <= i < MAX_CHANNELS ==> r.value.entries[i] == EmptyEntry)
  {
    var aligned := AlignUp128(size);
    if aligned < HEADER_SIZE then Err(InvalidInput)
    else Ok(Allocator(aligned, 0, 0, seq(MAX_CHANNELS, _ => EmptyEntry)))
  }

  /** A new allocator is sound, lists no channels and uses just the header. */
  lemma NewIsEmpty(size: nat)
    requires New(size).Ok?
    ensures Counted(New(size).value)
    ensures LiveChannels(New(size).value) == []
    ensures UsedMemory(New(size).value) == HEADER_SIZE
  {
    EmptyTableCounted(New(size).value);
    EmptyTableScans(New(size).value.entries);
  }

  lemma EmptyTableScans(es: seq<Entry>)
    requires |es| == MAX_CHANNELS
    requires forall i :: 0 <= i < MAX_CHANNELS ==> es[i] == EmptyEntry
    ensures LiveUpTo(es, MAX_CHANNELS) == []
    ensures FrontierUpTo(es, MAX_CHANNELS) == HEADER_SIZE
  {
    NoLiveNoChannels(es, MAX_CHANNELS);
    FrontierUpToLeast(es, MAX_CHANNELS, HEADER_SIZE);
  }

  lemma EmptyTableCounted(a: Allocator)
    requires |a.entries| == MAX_CHANNELS && a.nextId == 0 && a.channelCount == 0
    requires a.size % 128 == 0 && HEADER_SIZE <= a.size
    requires forall i :: 0 <= i < MAX_CHANNELS ==> a.entries[i] == EmptyEntry
    ensures Counted(a)
  {
    assert forall i :: 0 <= i < MAX_CHANNELS ==> !Live(a.entries[i]) && BandEnd(a.entries[i]) == 0;
  }

  lemma {:induction false} NoLiveNoChannels(es: seq<Entry>, n: nat)
    requires n <= |es| && forall i :: 0 <= i < n ==> !Live(es[i])
    ensures LiveUpTo(es, n) == []
  {
    if n > 0 {
      NoLiveNoChannels(es, n - 1);
    }
  }

  /** The last step of creation, shared by both creation paths: start the
      band at the aligned frontier, refuse it if the aligned band would run
      past the region, otherwise fill row `id` (head and tail 0) and count
      the channel. */
  function PlaceChannel(a: Allocator, id: nat, capacity: nat): (o: Outcome<Channel>)
    requires |a.entries| == MAX_CHANNELS && id < MAX_CHANNELS
    ensures o.result.Ok? <==> AlignUp128(Frontier(a)) + AlignUp128(BandSize(capacity)) <= a.size
    ensures o.result.Err? ==> o == Outcome(a, Err(OutOfMemory))
    ensures o.result.Ok? ==>
      && o.result.value == Channel(id, capacity, AlignUp128(Frontier(a)))
      && o.alloc.size == a.size && o.alloc.nextId == a.nextId
      && o.alloc.channelCount == a.channelCount + 1
      && |o.alloc.entries| == MAX_CHANNELS
      && o.alloc.entries[id] == Entry(id, 0, AlignUp128(Frontier(a)), capacity, 0, 0)
      && (forall j :: 0 <= j < MAX_CHANNELS && j != id ==> o.alloc.entries[j] == a.entries[j])
  {
    var offset := AlignUp128(Frontier(a));
    if offset + AlignUp128(BandSize(capacity)) > a.size then
      Outcome(a, Err(OutOfMemory))
    else
      Outcome(
        a.(entries := a.entries[id := Entry(id, 0, offset, capacity, 0, 0)],
           channelCount := a.channelCount + 1),
        Ok(Channel(id, capacity, offset)))
  }

  /** `create_channel`: validate the capacity; claim the next id (failing
      once all `MAX_CHANNELS` are issued); refuse a row already in use; then
      place the band. The id is claimed before the row and space checks, so
      those failures still consume it. */
  function CreateChannel(a: Allocator, capacity: nat): (o: Outcome<Channel>)
    requires |a.entries| == MAX_CHANNELS
    ensures |o.alloc.entries| == MAX_CHANNELS
    ensures !AcceptsCapacityAsWritten(capacity) ==> o == Outcome(a, Err(InvalidInput))
    ensures AcceptsCapacityAsWritten(capacity) && a.nextId >= MAX_CHANNELS ==> o == Outcome(a, Err(OutOfMemory))
    ensures AcceptsCapacityAsWritten(capacity) && a.nextId < MAX_CHANNELS ==>
      && o.alloc.nextId == a.nextId + 1
      && (o.result.Err? ==> o.alloc == a.(nextId := a.nextId + 1))
    ensures o.result.Ok? ==>
      && o.result.value.id == a.nextId
      && o.result.value.capacity == capacity
      && o.alloc.channelCount == a.channelCount + 1
      && GetChannel(o.alloc, a.nextId) == Some(o.result.value)
      && o.result.value.bandOffset == AlignUp128(Frontier(a))
      && o.alloc.entries[a.nextId] == Entry(a.nextId, 0, o.result.value.bandOffset, capacity, 0, 0)
      && (forall j :: 0 <= j < MAX_CHANNELS && j != a.nextId ==> o.alloc.entries[j] == a.entries[j])
  {
    if !AcceptsCapacityAsWritten(capacity) then Outcome(a, Err(InvalidInput))
    else if a.nextId >= MAX_CHANNELS then Outcome(a, Err(OutOfMemory))
    else
      var id := a.nextId;
      var claimed := a.(nextId := id + 1);
      if Live(a.entries[id]) then Outcome(claimed, Err(AlreadyExists))
      else PlaceChannel(claimed, id, capacity)
  }

  /** `get_channel`: nothing for an id past the table or a free row;
      otherwise the row's capacity and band. */
  function GetChannel(a: Allocator, id: nat): (c: Option<Channel>)
    requires |a.entries| == MAX_CHANNELS
    ensures c.Some? <==> id < MAX_CHANNELS && Live(a.entries[id])
    ensures c.Some? ==>
      c.value.id == id && c.value.capacity == a.entries[id].capacity
      && c.value.bandOffset == a.entries[id].bandOffset
  {
    if id >= MAX_CHANNELS then None
    else
      var e := a.entries[id];
      if !Live(e) then None else Some(Channel(id, e.capacity, e.bandOffset))
  }

  /** `remove_channel`: an id past the table or a free row is invalid input;
      otherwise only that row's capacity is zeroed. The counter and
      `channel_count` are left as they are. */
  function RemoveChannel(a: Allocator, id: nat): (o: Outcome<()>)
    requires |a.entries| == MAX_CHANNELS
    ensures o.result.Ok? <==> id < MAX_CHANNELS && Live(a.entries[id])
    ensures o.result.Err? ==> o == Outcome(a, Err(InvalidInput))
    ensures o.result.Ok? ==>
      && o.alloc.size == a.size && o.alloc.nextId == a.nextId
      && o.alloc.channelCount == a.channelCount
      && |o.alloc.entries| == MAX_CHANNELS
      && !Live(o.alloc.entries[id])
      && o.alloc.entries[id].bandOffset == a.entries[id].bandOffset
      && (forall j :: 0 <= j < MAX_CHANNELS && j != id ==> o.alloc.entries[j] == a.entries[j])
  {
    if id >= MAX_CHANNELS then Outcome(a, Err(InvalidInput))
    else if !Live(a.entries[id]) then Outcome(a, Err(InvalidInput))
    else Outcome(a.(entries := a.entries[id := a.entries[id].(capacity := 0)]), Ok(()))
  }

  /** `get_channels` as written: only rows `0 .. channel_count - 1` are
      scanned (the scan stops at the table's end). */
  function GetChannelsAsWritten(a: Allocator): seq<Channel>
    requires |a.entries| == MAX_CHANNELS
  {
    LiveUpTo(a.entries, Min(a.channelCount, MAX_CHANNELS))
  }

  /** `used_memory` as written: the header size or the highest band end
      among rows `0 .. channel_count - 1`, live or not. */
  function UsedMemoryAsWritten(a: Allocator): nat
    requires |a.entries| == MAX_CHANNELS
  {
    EndsUpTo(a.entries, Min(a.channelCount, MAX_CHANNELS))
  }

  /** Every live channel, in id order: the whole table, as creation scans it. */
  function LiveChannels(a: Allocator): seq<Channel>
    requires |a.entries| == MAX_CHANNELS
  {
    LiveUpTo(a.entries, |a.entries|)
  }

  /** The bytes in use: the frontier creation computes. */
  function UsedMemory(a: Allocator): nat
    requires |a.entries| == MAX_CHANNELS
  {
    Frontier(a)
  }

  /** `size.saturating_sub(used)`. */
  function SaturatingSub(x: nat, y: nat): nat
  {
    if x >= y then x - y else 0
  }

  /** `available_memory`: the region size less the used bytes, never
      negative: nothing is available exactly when the used bytes reach the
      size, and otherwise the two add up to the size. */
  function AvailableMemory(a: Allocator): (m: nat)
    requires |a.entries| == MAX_CHANNELS
    ensures m <= a.size
    ensures m == 0 <==> UsedMemory(a) >= a.size
    ensures m > 0 ==> m + UsedMemory(a) == a.size
  {
    SaturatingSub(a.size, UsedMemory(a))
  }

  /** `available_memory` over the used bytes as the source scans them. */
  function AvailableMemoryAsWritten(a: Allocator): (m: nat)
    requires |a.entries| == MAX_CHANNELS
    ensures m <= a.size
    ensures m == 0 <==> UsedMemoryAsWritten(a) >= a.size
    ensures m > 0 ==> m + UsedMemoryAsWritten(a) == a.size
  {
    SaturatingSub(a.size, UsedMemoryAsWritten(a))
  }

  /** `channel_count`: successful creations so far; removal does not lower it. */
  function ChannelCount(a: Allocator): nat
  {
    a.channelCount
  }

  // ---------------------------------------------------------------------
  // Properties.

  lemma BandSizeBounds(capacity: nat)
    requires capacity >= 1
    ensures BandSize(capacity) >= SLOT_STRIDE > MSG_INLINE
  {
  }

  /** Placing a band on a sound allocator keeps it sound: the new band lies
      past every live band and inside the region. On success the frontier
      strictly grows. */
  lemma PlaceKeepsSound(a: Allocator, id: nat, capacity: nat)
    requires Sound(a) && id < a.nextId && !Live(a.entries[id]) && AcceptsCapacityAsWritten(capacity)
    ensures Sound(PlaceChannel(a, id, capacity).alloc)
    ensures PlaceChannel(a, id, capacity).result.Ok? ==>
      Frontier(PlaceChannel(a, id, capacity).alloc) > Frontier(a)
  {
    var o := PlaceChannel(a, id, capacity);
    if o.result.Ok? {
      var a' := o.alloc;
      var offset := AlignUp128(Frontier(a));
      var e := a'.entries[id];
      BandSizeBounds(capacity);
      assert BandEnd(e) <= a.size;
      assert Placed(a', id);
      forall j | 0 <= j < MAX_CHANNELS && j != id && Live(a'.entries[j])
        ensures BandEnd(a'.entries[j]) <= offset && Placed(a', j)
      {
        assert a'.entries[j] == a.entries[j];
        assert Placed(a, j);
      }
      forall i, j | 0 <= i < j < MAX_CHANNELS && Live(a'.entries[i]) && Live(a'.entries[j])
        ensures Disjoint(a'.entries[i], a'.entries[j])
      {
        if i != id && j != id {
          assert a'.entries[i] == a.entries[i] && a'.entries[j] == a.entries[j];
        }
      }
      forall i | 0 <= i < MAX_CHANNELS
        ensures BandEnd(a'.entries[i]) <= a'.size
      {
        if i != id {
          assert a'.entries[i] == a.entries[i];
        }
      }
      assert BandEnd(e) <= Frontier(a');
    }
  }

  /** Creation keeps the allocator sound (and, since it counts one success
      per fresh id, the counter bound too). On a sound allocator the row at
      the counter is always free, so creation succeeds exactly when the
      capacity is accepted, an id is left, and the aligned band fits after
      the aligned frontier; a success strictly grows the used memory. */
  lemma CreateKeepsSound(a: Allocator, capacity: nat)
    requires Sound(a)
    ensures var o := CreateChannel(a, capacity);
      && Sound(o.alloc)
      && (Counted(a) ==> Counted(o.alloc))
      && (o.result.Ok? <==>
            && AcceptsCapacityAsWritten(capacity)
            && a.nextId < MAX_CHANNELS
            && AlignUp128(Frontier(a)) + AlignUp128(BandSize(capacity)) <= a.size)
      && (o.result.Ok? ==> UsedMemory(o.alloc) > UsedMemory(a))
      && (o.result.Err? ==> o.result.error != AlreadyExists)
  {
    if AcceptsCapacityAsWritten(capacity) && a.nextId < MAX_CHANNELS {
      var claimed := a.(nextId := a.nextId + 1);
      assert Sound(claimed) by {
        assert forall i :: 0 <= i < MAX_CHANNELS && Live(a.entries[i]) ==> Placed(claimed, i) by {
          forall i | 0 <= i < MAX_CHANNELS && Live(a.entries[i])
            ensures Placed(claimed, i)
          {
            assert Placed(a, i);
          }
        }
      }
      assert Frontier(claimed) == Frontier(a);
      PlaceKeepsSound(claimed, a.nextId, capacity);
    }
  }

  lemma RemovedRowSound(a: Allocator, id: nat)
    requires Sound(a) && id < MAX_CHANNELS && Live(a.entries[id])
    ensures Sound(RemoveChannel(a, id).alloc)
  {
    var a' := RemoveChannel(a, id).alloc;
    forall i | 0 <= i < MAX_CHANNELS && Live(a'.entries[i])
      ensures Placed(a', i)
    {
      assert a'.entries[i] == a.entries[i];
      assert Placed(a, i);
    }
    forall i | 0 <= i < MAX_CHANNELS
      ensures BandEnd(a'.entries[i]) <= a'.size
    {
      if i == id {
        assert BandEnd(a'.entries[i]) <= BandEnd(a.entries[i]);
      } else {
        assert a'.entries[i] == a.entries[i];
      }
    }
    forall i, j | 0 <= i < j < MAX_CHANNELS && Live(a'.entries[i]) && Live(a'.entries[j])
      ensures Disjoint(a'.entries[i], a'.entries[j])
    {
      assert a'.entries[i] == a.entries[i] && a'.entries[j] == a.entries[j];
    }
  }

  lemma RemovedRowFrontier(a: Allocator, id: nat)
    requires |a.entries| == MAX_CHANNELS
    ensures UsedMemory(RemoveChannel(a, id).alloc) <= UsedMemory(a)
  {
    var a' := RemoveChannel(a, id).alloc;
    forall i | 0 <= i < MAX_CHANNELS && Live(a'.entries[i])
      ensures BandEnd(a'.entries[i]) <= Frontier(a)
    {
      assert a'.entries[i] == a.entries[i];
    }
    FrontierUpToLeast(a'.entries, MAX_CHANNELS, Frontier(a));
  }

  /** Removal keeps the allocator sound and the counter bound; the removed
      id is gone, every other lookup is unchanged, and the used memory never
      grows. */
  lemma RemoveKeepsSound(a: Allocator, id: nat)
    requires Sound(a)
    ensures var o := RemoveChannel(a, id);
      && Sound(o.alloc)
      && (Counted(a) ==> Counted(o.alloc))
      && GetChannel(o.alloc, id).None?
      && (forall j :: j != id ==> GetChannel(o.alloc, j) == GetChannel(a, j))
      && UsedMemory(o.alloc) <= UsedMemory(a)
  {
    if id < MAX_CHANNELS && Live(a.entries[id]) {
      RemovedRowSound(a, id);
    }
    RemovedRowFrontier(a, id);
  }

  /** `used_memory + available_memory` is the region size, for the corrected
      scan and for the scan as written alike. */
  lemma UsedPlusAvailable(a: Allocator)
    requires Sound(a)
    ensures UsedMemory(a) <= a.size
    ensures UsedMemory(a) + AvailableMemory(a) == a.size
    ensures UsedMemoryAsWritten(a) + AvailableMemoryAsWritten(a) == a.size
  {
    FrontierUpToLeast(a.entries, MAX_CHANNELS, a.size);
    EndsUpToLeast(a.entries, Min(a.channelCount, MAX_CHANNELS), a.size);
  }

  /** The listing scan over rows `0 .. n - 1` yields exactly the channels
      `get_channel` finds below `n`, in increasing id order. */
  lemma {:induction false} LiveUpToSpec(a: Allocator, n: nat)
    requires Sound(a) && n <= MAX_CHANNELS
    ensures forall c :: c in LiveUpTo(a.entries, n) <==> c.id < n && GetChannel(a, c.id) == Some(c)
    ensures forall k, l :: 0 <= k < l < |LiveUpTo(a.entries, n)| ==>
      LiveUpTo(a.entries, n)[k].id < LiveUpTo(a.entries, n)[l].id
  {
    if n > 0 {
      LiveUpToSpec(a, n - 1);
      var e := a.entries[n - 1];
      if Live(e) {
        assert Placed(a, n - 1);
      }
    }
  }

  /** `LiveChannels` lists every channel `get_channel` can find, and nothing
      else, in increasing id order. */
  lemma LiveChannelsSpec(a: Allocator)
    requires Sound(a)
    ensures forall c :: c in LiveChannels(a) <==> GetChannel(a, c.id) == Some(c)
    ensures forall k, l :: 0 <= k < l < |LiveChannels(a)| ==> LiveChannels(a)[k].id < LiveChannels(a)[l].id
  {
    LiveUpToSpec(a, MAX_CHANNELS);
  }

  lemma {:induction false} LiveUpToSkip(es: seq<Entry>, m: nat, n: nat)
    requires m <= n <= |es| && forall i :: m <= i < n ==> !Live(es[i])
    ensures LiveUpTo(es, n) == LiveUpTo(es, m)
  {
    if n > m {
      LiveUpToSkip(es, m, n - 1);
    }
  }

  lemma {:induction false} FrontierUpToSkip(es: seq<Entry>, m: nat, n: nat)
    requires m <= n <= |es| && forall i :: m <= i < n ==> !Live(es[i])
    ensures FrontierUpTo(es, n) == FrontierUpTo(es, m)
  {
    if n > m {
      FrontierUpToSkip(es, m, n - 1);
    }
  }

  lemma {:induction false} EndsMatchFrontier(es: seq<Entry>, n: nat)
    requires n <= |es| && forall i :: 0 <= i < n ==> Live(es[i])
    ensures EndsUpTo(es, n) == FrontierUpTo(es, n)
  {
    if n > 0 {
      EndsMatchFrontier(es, n - 1);
    }
  }

  /** When no live row lies at or past `channel_count` (no id was burned),
      the scans as written agree with the whole-table scans: the listing
      always, and the used memory too when no channel was removed. */
  lemma AsWrittenAgreesWithoutBurnedIds(a: Allocator)
    requires Sound(a) && a.channelCount <= MAX_CHANNELS
    requires forall i :: a.channelCount <= i < MAX_CHANNELS ==> !Live(a.entries[i])
    ensures GetChannelsAsWritten(a) == LiveChannels(a)
    ensures (forall i :: 0 <= i < a.channelCount ==> Live(a.entries[i])) ==>
      UsedMemoryAsWritten(a) == UsedMemory(a)
  {
    LiveUpToSkip(a.entries, a.channelCount, MAX_CHANNELS);
    FrontierUpToSkip(a.entries, a.channelCount, MAX_CHANNELS);
    if forall i :: 0 <= i < a.channelCount ==> Live(a.entries[i]) {
      EndsMatchFrontier(a.entries, a.channelCount);
    }
  }

  /** The listing as written holds exactly the channels the lookup finds
      with an id below `channel_count`, in increasing id order. */
  lemma GetChannelsAsWrittenSpec(a: Allocator)
    requires Sound(a)
    ensures forall c :: c in GetChannelsAsWritten(a) <==> c.id < a.channelCount && GetChannel(a, c.id) == Some(c)
    ensures forall k, l :: 0 <= k < l < |GetChannelsAsWritten(a)| ==>
      GetChannelsAsWritten(a)[k].id < GetChannelsAsWritten(a)[l].id
  {
    LiveUpToSpec(a, Min(a.channelCount, MAX_CHANNELS));
  }

  /** The used memory as written is the least bound on the header size and
      the band ends of rows below `channel_count`, removed rows included;
      on a sound allocator it lies inside the region. */
  lemma UsedMemoryAsWrittenSpec(a: Allocator, bound: nat)
    requires Sound(a)
    ensures HEADER_SIZE <= UsedMemoryAsWritten(a) <= a.size
    ensures forall i :: 0 <= i < a.channelCount && i < MAX_CHANNELS ==>
      BandEnd(a.entries[i]) <= UsedMemoryAsWritten(a)
    ensures HEADER_SIZE <= bound
         && (forall i :: 0 <= i < a.channelCount && i < MAX_CHANNELS ==> BandEnd(a.entries[i]) <= bound)
         ==> UsedMemoryAsWritten(a) <= bound
  {
    var n := Min(a.channelCount, MAX_CHANNELS);
    EndsUpToLeast(a.entries, n, a.size);
    if HEADER_SIZE <= bound && forall i :: 0 <= i < a.channelCount && i < MAX_CHANNELS ==> BandEnd(a.entries[i]) <= bound {
      EndsUpToLeast(a.entries, n, bound);
    }
  }

  // ---------------------------------------------------------------------
  // Finding: capacity 1 passes the check as written.

  /** Every live row's ring has at least two slots, so it can tell a full
      ring from a free one. */
  predicate RingsUsable(a: Allocator)
    requires |a.entries| == MAX_CHANNELS
  {
    forall i :: 0 <= i < MAX_CHANNELS && Live(a.entries[i]) ==> a.entries[i].capacity >= 2
  }

  /** Creation with the corrected check: a capacity it refuses is invalid
      input with nothing changed and no id consumed; any other request is
      handled as `create_channel` handles it. */
  function CreateChannelChecked(a: Allocator, capacity: nat): (o: Outcome<Channel>)
    requires |a.entries| == MAX_CHANNELS
    ensures capacity == 1 ==> o == Outcome(a, Err(InvalidInput))
    ensures capacity != 1 ==> o == CreateChannel(a, capacity)
  {
    if !AcceptsCapacity(capacity) then Outcome(a, Err(InvalidInput)) else CreateChannel(a, capacity)
  }

  /** As written, a fresh allocator with room for a one-slot band creates
      it: channel 0 with capacity 1, whose ring then overwrites an unread
      message (`Fifo.CapacityOneOverwrites`), and every row's ring is no
      longer usable. The corrected creation refuses the same request. */
  lemma CapacityOneAccepted(a: Allocator)
    requires |a.entries| == MAX_CHANNELS && a.nextId == 0
    requires forall i :: 0 <= i < MAX_CHANNELS ==> a.entries[i] == EmptyEntry
    requires AlignUp128(HEADER_SIZE) + AlignUp128(BandSize(1)) <= a.size
    ensures CreateChannel(a, 1).result == Ok(Channel(0, 1, AlignUp128(HEADER_SIZE)))
    ensures !RingsUsable(CreateChannel(a, 1).alloc)
    ensures CreateChannelChecked(a, 1) == Outcome(a, Err(InvalidInput))
  {
    FrontierUpToLeast(a.entries, MAX_CHANNELS, HEADER_SIZE);
    assert Frontier(a) == HEADER_SIZE;
    assert IsPowerOfTwo(1);
    var a1 := CreateChannel(a, 1).alloc;
    assert Live(a1.entries[0]) && a1.entries[0].capacity == 1;
  }

  /** The corrected creation keeps every ring usable as well as keeping the
      allocator sound: what it creates has at least two slots and starts as
      a valid, empty ring. */
  lemma CheckedCreationKeepsRingsUsable(a: Allocator, capacity: nat)
    requires Sound(a) && RingsUsable(a)
    ensures var o := CreateChannelChecked(a, capacity);
      && Sound(o.alloc) && RingsUsable(o.alloc)
      && (o.result.Ok? ==>
            && o.result.value.capacity >= 2
            && Valid(Fresh(o.result.value.capacity))
            && Contents(Fresh(o.result.value.capacity)) == [])
  {
    AcceptsCapacityCorrects(capacity);
    if AcceptsCapacity(capacity) {
      CreateKeepsSound(a, capacity);
      var o := CreateChannel(a, capacity);
      if o.result.Ok? {
        forall i | 0 <= i < MAX_CHANNELS && Live(o.alloc.entries[i])
          ensures o.alloc.entries[i].capacity >= 2
        {
          if i != a.nextId {
            assert o.alloc.entries[i] == a.entries[i];
          }
        }
      }
    }
  }

  // ---------------------------------------------------------------------
  // Finding: a burned id hides a later channel from the scans as written.

  lemma PowersOfTwoUsed()
    ensures AcceptsCapacityAsWritten(2) && AcceptsCapacityAsWritten(256)
  {
    assert IsPowerOfTwo(4) && IsPowerOfTwo(8) && IsPowerOfTwo(16) && IsPowerOfTwo(32);
    assert IsPowerOfTwo(64) && IsPowerOfTwo(128);
  }

  /** A region with room for the header and two two-slot bands. */
  function TwoBandRegion(): nat
  {
    AlignUp128(HEADER_SIZE) + 2 * AlignUp128(BandSize(2))
  }

  lemma {:induction false} LiveUpToHas(es: seq<Entry>, k: nat, n: nat)
    requires k < n <= |es| && Live(es[k])
    ensures Channel(es[k].channelId, es[k].capacity, es[k].bandOffset) in LiveUpTo(es, n)
  {
    if k < n - 1 {
      LiveUpToHas(es, k, n - 1);
    }
  }

  /** The first channel of a fresh allocator over that region: id 0, right
      after the header. Only its row is live. */
  lemma FirstChannel(a: Allocator)
    requires |a.entries| == MAX_CHANNELS && a.size == TwoBandRegion() && a.nextId == 0
    requires forall i :: 0 <= i < MAX_CHANNELS ==> a.entries[i] == EmptyEntry
    ensures var o := CreateChannel(a, 2);
      && o.result == Ok(Channel(0, 2, AlignUp128(HEADER_SIZE)))
      && o.alloc.size == a.size && o.alloc.nextId == 1
      && o.alloc.channelCount == a.channelCount + 1
      && Frontier(o.alloc) == AlignUp128(HEADER_SIZE) + BandSize(2)
      && o.alloc.entries[1] == EmptyEntry
  {
    PowersOfTwoUsed();
    FrontierUpToLeast(a.entries, MAX_CHANNELS, HEADER_SIZE);
    assert Frontier(a) == HEADER_SIZE;
    var o := CreateChannel(a, 2);
    assert o.result.Ok?;
    var a1 := o.alloc;
    var end0 := AlignUp128(HEADER_SIZE) + BandSize(2);
    forall i | 0 <= i < MAX_CHANNELS && Live(a1.entries[i])
      ensures BandEnd(a1.entries[i]) <= end0
    {
      if i != 0 {
        assert a1.entries[i] == a.entries[i];
      }
    }
    FrontierUpToLeast(a1.entries, MAX_CHANNELS, end0);
  }

  /** A request for 256 slots then claims id 1 and fails for lack of space. */
  lemma BigChannelBurnsId(a: Allocator)
    requires |a.entries| == MAX_CHANNELS && a.size == TwoBandRegion() && a.nextId == 1
    requires Frontier(a) == AlignUp128(HEADER_SIZE) + BandSize(2) && !Live(a.entries[1])
    ensures var o := CreateChannel(a, 256);
      && o.result == Err(OutOfMemory)
      && o.alloc == a.(nextId := 2)
  {
    PowersOfTwoUsed();
    assert AlignUp128(BandSize(256)) >= 256 * SLOT_STRIDE;
  }

  /** The next two-slot channel fits and gets id 2, with its band past
      channel 0's. */
  lemma ThirdChannel(a: Allocator)
    requires |a.entries| == MAX_CHANNELS && a.size == TwoBandRegion() && a.nextId == 2
    requires Frontier(a) == AlignUp128(HEADER_SIZE) + BandSize(2) && !Live(a.entries[2])
    ensures var o := CreateChannel(a, 2);
      && o.result.Ok? && o.result.value.id == 2
      && o.alloc.channelCount == a.channelCount + 1
      && Live(o.alloc.entries[2])
      && BandEnd(o.alloc.entries[2]) > Frontier(a)
      && (forall i :: 0 <= i < MAX_CHANNELS && i != 2 ==> o.alloc.entries[i] == a.entries[i])
  {
    PowersOfTwoUsed();
    var h := AlignUp128(HEADER_SIZE);
    var b := AlignUp128(BandSize(2));
    AlignUp128Least(h + BandSize(2), h + b);
  }

  /** With `channel_count` 2 and row 1 never filled, the listing as written
      holds at most row 0's channel. */
  lemma ListedAsWrittenUpToTwo(a: Allocator)
    requires |a.entries| == MAX_CHANNELS && a.channelCount == 2 && a.entries[1] == EmptyEntry
    ensures forall c :: c in GetChannelsAsWritten(a) ==> c.id == a.entries[0].channelId
  {
    assert GetChannelsAsWritten(a) == LiveUpTo(a.entries, 1);
  }

  lemma EndsAsWrittenUpToTwo(a: Allocator)
    requires |a.entries| == MAX_CHANNELS && a.channelCount == 2 && a.entries[1] == EmptyEntry
    requires Max(HEADER_SIZE, BandEnd(a.entries[0])) < BandEnd(a.entries[2]) && Live(a.entries[2])
    ensures UsedMemoryAsWritten(a) < UsedMemory(a)
  {
    EndsUpToLeast(a.entries, 2, Max(HEADER_SIZE, BandEnd(a.entries[0])));
  }

  /** ... so a live row 2 is missing from the listing as written ... */
  lemma HiddenFromListing(a: Allocator)
    requires |a.entries| == MAX_CHANNELS && a.channelCount == 2
    requires a.entries[0].channelId == 0 && a.entries[1] == EmptyEntry
    requires Live(a.entries[2]) && a.entries[2].channelId == 2
    ensures GetChannel(a, 2).Some?
    ensures GetChannel(a, 2).value !in GetChannelsAsWritten(a)
  {
    ListedAsWrittenUpToTwo(a);
  }

  /** ... while the whole-table listing has it. */
  lemma SeenByWholeTable(a: Allocator)
    requires |a.entries| == MAX_CHANNELS
    requires Live(a.entries[2]) && a.entries[2].channelId == 2
    ensures GetChannel(a, 2).Some?
    ensures GetChannel(a, 2).value in LiveChannels(a)
  {
    LiveUpToHas(a.entries, 2, MAX_CHANNELS);
  }

  /** In a region with room for two two-slot bands, starting from the state
      `New` produces (`FreshRegion`): channel 0 is created; a request for
      256 slots claims id 1 and then fails for lack of space; the next
      two-slot channel gets id 2 while `channel_count` is 2. The scans as
      written stop at row 1 and miss channel 2 and its band; the
      whole-table scans see both. */
  lemma BurnedIdHidesChannel(a0: Allocator)
    requires |a0.entries| == MAX_CHANNELS && a0.size == TwoBandRegion() && a0.nextId == 0
    requires forall i :: 0 <= i < MAX_CHANNELS ==> a0.entries[i] == EmptyEntry
    ensures var o1 := CreateChannel(a0, 2);
      && o1.result == Ok(Channel(0, 2, AlignUp128(HEADER_SIZE)))
      && var o2 := CreateChannel(o1.alloc, 256);
      && o2.result == Err(OutOfMemory)
      && var o3 := CreateChannel(o2.alloc, 2);
      && o3.result.Ok? && o3.result.value.id == 2
      && ChannelCount(o3.alloc) == a0.channelCount + 2
      && GetChannel(o3.alloc, 2) == Some(o3.result.value)
      && (a0.channelCount == 0 ==>
        && o3.result.value !in GetChannelsAsWritten(o3.alloc)
        && o3.result.value in LiveChannels(o3.alloc)
        && UsedMemoryAsWritten(o3.alloc) < UsedMemory(o3.alloc))
  {
    FirstChannel(a0);
    var a1 := CreateChannel(a0, 2).alloc;
    BigChannelBurnsId(a1);
    var a2 := CreateChannel(a1, 256).alloc;
    ThirdChannel(a2);
    var a3 := CreateChannel(a2, 2).alloc;
    assert a3.entries[0] == a1.entries[0] && a3.entries[1] == EmptyEntry;
    if a0.channelCount == 0 {
      HiddenFromListing(a3);
      SeenByWholeTable(a3);
      EndsAsWrittenUpToTwo(a3);
    }
  }

  /** `New` over that region produces the starting state of the scenario. */
  lemma FreshRegion()
    ensures var r := New(TwoBandRegion());
      && r.Ok? && r.value.size == TwoBandRegion() && r.value.nextId == 0
      && r.value.channelCount == 0
      && (forall i :: 0 <= i < MAX_CHANNELS ==> r.value.entries[i] == EmptyEntry)
  {
    var n := TwoBandRegion();
    assert n % 128 == 0;
    AlignUp128Of(n);
  }

  // ---------------------------------------------------------------------
  // Id issue over a sequence of operations.

  datatype Op = Create(capacity: nat) | Remove(id: nat)

  /** One operation, and the id it issued if it created a channel. */
  function Apply(a: Allocator, op: Op): (r: (Allocator, seq<nat>))
    requires |a.entries| == MAX_CHANNELS
    ensures |r.0.entries| == MAX_CHANNELS
  {
    match op
      case Create(capacity) =>
        var o := CreateChannel(a, capacity);
        (o.alloc, if o.result.Ok? then [o.result.value.id] else [])
      case Remove(id) => (RemoveChannel(a, id).alloc, [])
  }

  /** A run of operations, and the ids issued along the way, in order. */
  function Run(a: Allocator, ops: seq<Op>): (r: (Allocator, seq<nat>))
    requires |a.entries| == MAX_CHANNELS
    ensures |r.0.entries| == MAX_CHANNELS
    decreases |ops|
  {
    if |ops| == 0 then (a, [])
    else
      var s := Apply(a, ops[0]);
      var t := Run(s.0, ops[1..]);
      (t.0, s.1 + t.1)
  }

  /** Ids are issued in strictly increasing order from the counter, so none
      is ever issued twice, even across removals; the allocator stays sound
      and the counter never passes `MAX_CHANNELS`. */
  lemma {:induction false} RunIssuesFreshIds(a: Allocator, ops: seq<Op>)
    requires Counted(a)
    ensures var r := Run(a, ops);
      && Counted(r.0)
      && a.nextId <= r.0.nextId <= MAX_CHANNELS
      && (forall k :: 0 <= k < |r.1| ==> a.nextId <= r.1[k] < r.0.nextId)
      && (forall k, l :: 0 <= k < l < |r.1| ==> r.1[k] < r.1[l])
    decreases |ops|
  {
    if |ops| > 0 {
      var s := Apply(a, ops[0]);
      match ops[0] {
        case Create(capacity) => CreateKeepsSound(a, capacity);
        case Remove(id) => RemoveKeepsSound(a, id);
      }
      assert a.nextId <= s.0.nextId;
      assert forall k :: 0 <= k < |s.1| ==> s.1[k] == a.nextId < s.0.nextId;
      RunIssuesFreshIds(s.0, ops[1..]);
    }
  }

  /** `channel_count` counts the successful creations of a run: one per
      issued id, with removals and failures leaving it as it was. */
  lemma {:induction false} ChannelCountCountsCreations(a: Allocator, ops: seq<Op>)
    requires |a.entries| == MAX_CHANNELS
    ensures ChannelCount(Run(a, ops).0) == ChannelCount(a) + |Run(a, ops).1|
    decreases |ops|
  {
    if |ops| > 0 {
      var s := Apply(a, ops[0]);
      assert s.0.channelCount == a.channelCount + |s.1|;
      ChannelCountCountsCreations(s.0, ops[1..]);
    }
  }
}
