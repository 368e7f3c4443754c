/** Shared vocabulary of the channel model: fixed-width integer types, the
    layout constants of the shared-memory region, the I/O error kinds the
    library reports, and the Option/Result wrappers its operations return. */
module Common {

  type byte = x: int | 0 <= x < 0x100
  type u16 = x: nat | x < 0x1_0000
  type u32 = x: nat | x < 0x1_0000_0000
  type u64 = x: nat | x < 0x1_0000_0000_0000_0000

  /** Truncating casts `n as u32` / `n as u64`. */
  function AsU32(n: nat): (r: u32)
    ensures n < 0x1_0000_0000 ==> r == n
  {
    n % 0x1_0000_0000
  }

  function AsU64(n: nat): (r: u64)
    ensures n < 0x1_0000_0000_0000_0000 ==> r == n
  {
    n % 0x1_0000_0000_0000_0000
  }

  /** Number of entries in the global channel table. */
  const MAX_CHANNELS: nat := 256

  type InlineSize = n: nat | 0 < n < 0x1_0000_0000 witness 960
  type PosNat = n: nat | 0 < n witness 1

  /** Payload bytes stored inline in one slot. The slot layout is not part of
      this model, so the size is left abstract (a client script assumes 960). */
  const MSG_INLINE: InlineSize

  /** Bytes of a slot that precede its inline payload (sequence word and
      message metadata, with padding). */
  const SLOT_HEADER: PosNat

  /** Size in bytes of one slot; always larger than the inline payload. */
  const SLOT_STRIDE: nat := SLOT_HEADER + MSG_INLINE

  /** Size of the global header (magic, version, counts, channel table) that
      occupies the start of the region. */
  const HEADER_SIZE: PosNat

  /** The `std::io::ErrorKind`s the library produces. */
  datatype ErrorKind =
    | InvalidInput
    | InvalidData
    | OutOfMemory
    | AlreadyExists
    | NotFound
    | WouldBlock
    | BrokenPipe

  datatype Option<+T> = None | Some(value: T)

  /** `std::io::Result<T>`. */
  datatype Result<+T> = Ok(value: T) | Err(error: ErrorKind)

  /** `(n + 127) & !127`: the least multiple of 128 that is at least `n`. */
  function AlignUp128(n: nat): (r: nat)
    ensures r % 128 == 0
    ensures n <= r < n + 128
  {
    (n + 127) / 128 * 128
  }

  lemma AlignUp128Least(n: nat, m: nat)
    requires m % 128 == 0 && n <= m
    ensures AlignUp128(n) <= m
  {
    var k := m / 128;
    assert m == k * 128;
    assert (n + 127) / 128 <= k;
  }

  lemma AlignUp128Of(n: nat)
    requires n % 128 == 0
    ensures AlignUp128(n) == n
  {
    AlignUp128Least(n, n);
  }

  lemma AlignUp128Monotone(a: nat, b: nat)
    requires a <= b
    ensures AlignUp128(a) <= AlignUp128(b)
  {
    AlignUp128Least(a, AlignUp128(b));
  }

  /** Exact powers of two (1, 2, 4, ...); 0 is not one. The source tests
      `capacity != 0 && capacity & (capacity - 1) == 0`, which holds exactly
      for these numbers. */
  predicate IsPowerOfTwo(n: nat)
    decreases n
  {
    n == 1 || (n >= 2 && n % 2 == 0 && IsPowerOfTwo(n / 2))
  }

  function Min(a: nat, b: nat): nat
  {
    if a <= b then a else b
  }

  function Max(a: nat, b: nat): nat
  {
    if a >= b then a else b
  }

  /** `p % m`, stated by repeated subtraction so that proofs about slot
      positions go by induction instead of non-linear arithmetic. */
  function Mod(p: nat, m: nat): (k: nat)
    requires m > 0
    ensures k < m
    ensures p < m ==> k == p
    decreases p
  {
    if p < m then p else Mod(p - m, m)
  }

  /** Two positions closer than `m` apart never share a slot. */
  lemma {:induction false} ModDistinct(a: nat, b: nat, m: nat)
    requires 0 < m && a < b < a + m
    ensures Mod(a, m) != Mod(b, m)
    decreases a
  {
    if a >= m {
      ModDistinct(a - m, b - m, m);
    }
  }

  /** Position `p` and position `p + m` share a slot. */
  lemma ModShift(p: nat, m: nat)
    requires 0 < m
    ensures Mod(p + m, m) == Mod(p, m)
  {
  }

  /** How far slot `k` lies ahead of the slot of position `t`, going round
      the ring: the position `t + WindowOffset(t, k, m)` occupies slot `k`. */
  function WindowOffset(t: nat, k: nat, m: nat): nat
    requires 0 < m
  {
    Mod(k + m - Mod(t, m), m)
  }

  lemma {:induction false} WindowOffsetOf(t: nat, i: nat, m: nat)
    requires 0 < m && i < m
    ensures WindowOffset(t, Mod(t + i, m), m) == i
    decreases t
  {
    if t >= m {
      WindowOffsetOf(t - m, i, m);
    } else if t + i >= m {
      assert Mod(t + i, m) == t + i - m;
    } else {
      assert Mod(i + m, m) == i;
    }
  }

  lemma {:induction false} WindowOffsetAt(t: nat, k: nat, m: nat)
    requires 0 < m && k < m
    ensures WindowOffset(t, k, m) < m
    ensures Mod(t + WindowOffset(t, k, m), m) == k
    decreases t
  {
    if t >= m {
      WindowOffsetAt(t - m, k, m);
      assert Mod(t + WindowOffset(t, k, m), m) == Mod(t - m + WindowOffset(t, k, m), m);
    } else if k >= t {
      assert WindowOffset(t, k, m) == k - t;
    } else {
      assert WindowOffset(t, k, m) == k + m - t;
      assert Mod(k + m, m) == k;
    }
  }
}
