/**
 Chunk sizes of the memory allocator on ROCm (vllm/csrc/cumem_allocator.cpp), in 64-bit
 unsigned arithmetic with its wrap-around.
 */
module CumemChunks {
  import opened Numbers

  const TWO_64: nat := 0x1_0000_0000_0000_0000

  type u64 = x: int | 0 <= x < TWO_64

  const MB: nat := 1024 * 1024

  const DEFAULT_CHUNK_SIZE: nat := 256 * MB

  function Wrap(x: int): u64 {
    x % TWO_64
  }

  // ----- The base chunk size -----

  /** What the environment variable holds: nothing, no number, or a number of megabytes. */
  datatype EnvValue = Unset | Unparsable | Parsed(mb: u64)

  /** A positive whole number of megabytes: the configured one if that fits 64 bits, and the
      default otherwise. */
  function MemcreateChunkSize(env: EnvValue): (size: u64)
    ensures size > 0 && size % MB == 0
    ensures size == if env.Parsed? && 0 < env.mb * MB < TWO_64 then env.mb * MB else DEFAULT_CHUNK_SIZE
  {
    match env
    case Unset => DEFAULT_CHUNK_SIZE
    case Unparsable => DEFAULT_CHUNK_SIZE
    case Parsed(mb) =>
      if mb == 0 then DEFAULT_CHUNK_SIZE
      else if mb > (TWO_64 - 1) / MB then DEFAULT_CHUNK_SIZE
      else Wrap(mb * MB)
  }

  // ----- Rounding up to the granularity -----

  function AlignUp64(x: u64, g: u64): u64
    requires g > 0
  {
    Wrap((Wrap(x + g - 1) / g) * g)
  }

  /** The least multiple of `g` that is not below `x`. */
  ghost predicate IsAlignedUp(x: int, g: int, y: int)
    requires g > 0
  {
    y % g == 0 && x <= y < x + g
  }

  /** Rounding up is exact precisely when the sum fits; when it wraps, the result is zero. */
  lemma AlignUpExactIffFits(x: u64, g: u64)
    requires g > 0 && x > 0
    ensures IsAlignedUp(x, g, AlignUp64(x, g)) <==> x + g - 1 < TWO_64
    ensures x + g - 1 >= TWO_64 ==> AlignUp64(x, g) == 0
  {
    if x + g - 1 < TWO_64 { AlignUpFits(x, g); } else { AlignUpWraps(x, g); }
  }

  lemma AlignUpFits(x: u64, g: u64)
    requires g > 0 && x + g - 1 < TWO_64
    ensures IsAlignedUp(x, g, AlignUp64(x, g))
  {
    MultipleBelow(x + g - 1, g);
    WrapInRange(x + g - 1);
    WrapInRange((x + g - 1) / g * g);
  }

  lemma AlignUpWraps(x: u64, g: u64)
    requires g > 0 && x + g - 1 >= TWO_64
    ensures AlignUp64(x, g) == 0
  {
    WrapOnce(x + g - 1);
    SmallQuotient(x + g - 1 - TWO_64, g);
  }

  lemma MultipleBelow(s: nat, g: nat)
    requires g > 0
    ensures 0 <= s / g * g <= s < s / g * g + g
    ensures (s / g * g) % g == 0
  {
    assert s == s / g * g + s % g;
    MultipleMod(s / g, g);
  }

  lemma SmallMultiple(d: int, g: int)
    requires g > 0 && 0 <= d * g < g
    ensures d == 0
  {}

  lemma MultipleMod(k: int, g: nat)
    requires g > 0
    ensures (k * g) % g == 0
  {
    var x := k * g;
    var q, r := x / g, x % g;
    assert x == q * g + r;
    assert (k - q) * g == r;
    SmallMultiple(k - q, g);
  }

  /** Zero stays zero: the one size for which rounding up may not wrap. */
  lemma AlignUpZero(g: u64)
    requires g > 0
    ensures AlignUp64(0, g) == 0
  {
    assert (g - 1) / g == 0;
  }

  // ----- The chunk table -----

  function NumChunks64(size: u64, chunk: u64): u64
    requires chunk > 0
  {
    Wrap(size + chunk - 1) / chunk
  }

  function ChunkSize64(size: u64, chunk: u64, i: nat): u64 {
    Min(Wrap(size - Wrap(i * chunk)), chunk)
  }

  /** The start of chunk `k` relative to the first one. */
  function Offset(sizes: seq<int>, k: nat): int
    requires k <= |sizes|
  {
    Sum(sizes[..k])
  }

  function ChunkTable(size: u64, chunk: u64): seq<u64>
    requires chunk > 0
  {
    seq(NumChunks64(size, chunk), i requires 0 <= i => ChunkSize64(size, chunk, i))
  }

  /** The table covers `size` bytes: all chunks are full ones except possibly the last. */
  ghost predicate Tiles(sizes: seq<int>, size: int, chunk: int, g: int)
    requires g > 0
  {
    && Sum(sizes) == size
    && (forall i :: 0 <= i < |sizes| ==> 0 < sizes[i] <= chunk && sizes[i] % g == 0)
    && (forall i :: 0 <= i < |sizes| - 1 ==> sizes[i] == chunk)
    && forall i :: 0 <= i < |sizes| ==> Offset(sizes, i) == i * chunk
  }

  lemma CeilingCovers(size: nat, chunk: nat, n: nat)
    requires chunk > 0 && n == (size + chunk - 1) / chunk
    ensures Min(n * chunk, size) == size
  {
    MultipleBelow(size + chunk - 1, chunk);
  }

  lemma CeilingBounds(size: nat, chunk: nat, n: nat)
    requires chunk > 0 && n == (size + chunk - 1) / chunk
    ensures n * chunk < size + chunk && size <= n * chunk
    ensures forall i :: 0 <= i < n ==> i * chunk < size
  {
    MultipleBelow(size + chunk - 1, chunk);
    forall i | 0 <= i < n ensures i * chunk < size {
      MulMonotone(i, n - 1, chunk);
      assert (n - 1) * chunk == n * chunk - chunk;
    }
  }

  lemma MulMonotone(a: nat, b: nat, c: nat)
    requires a <= b
    ensures a * c <= b * c
  {}

  /** Inside the table neither the product nor the difference wraps. */
  lemma ChunkSizeExact(size: u64, chunk: u64, i: nat)
    requires chunk > 0 && size + chunk - 1 < TWO_64 && i < NumChunks64(size, chunk)
    ensures i * chunk < size
    ensures ChunkSize64(size, chunk, i) == Min(size - i * chunk, chunk) > 0
  {
    CeilingBounds(size, chunk, NumChunks64(size, chunk));
    WrapInRange(i * chunk);
    WrapInRange(size - i * chunk);
  }

  lemma WrapInRange(x: int)
    requires 0 <= x < TWO_64
    ensures Wrap(x) == x
  {}

  lemma {:induction false} PrefixSum(size: u64, chunk: u64, k: nat)
    requires chunk > 0 && size + chunk - 1 < TWO_64 && k <= NumChunks64(size, chunk)
    ensures Sum(ChunkTable(size, chunk)[..k]) == Min(k * chunk, size)
    decreases k
  {
    var t := ChunkTable(size, chunk);
    if k > 0 {
      PrefixSum(size, chunk, k - 1);
      ChunkSizeExact(size, chunk, k - 1);
      assert t[..k][..k - 1] == t[..k - 1];
      OneChunkFurther(size, chunk, k, Sum(t[..k - 1]), t[k - 1]);
    }
  }

  lemma OneChunkFurther(size: nat, chunk: nat, k: nat, before: int, last: int)
    requires k > 0 && (k - 1) * chunk < size
    requires before == Min((k - 1) * chunk, size) && last == Min(size - (k - 1) * chunk, chunk)
    ensures before + last == Min(k * chunk, size)
  {
    assert k * chunk == (k - 1) * chunk + chunk;
  }

  lemma DifferenceIsMultiple(size: nat, chunk: nat, i: nat, g: nat)
    requires g > 0 && size % g == 0 && chunk % g == 0 && i * chunk <= size
    ensures (size - i * chunk) % g == 0
  {
    var a, b := size / g, chunk / g;
    assert size == a * g && chunk == b * g;
    assert size - i * chunk == (a - i * b) * g by {
      assert i * (b * g) == (i * b) * g;
    }
    MultipleMod(a - i * b, g);
  }

  lemma TableEntry(size: u64, chunk: u64, g: u64, i: nat)
    requires g > 0 && chunk > 0 && size % g == 0 && chunk % g == 0 && size + chunk - 1 < TWO_64
    requires i < NumChunks64(size, chunk)
    ensures var t := ChunkTable(size, chunk);
            && 0 < t[i] <= chunk && t[i] % g == 0
            && (i < |t| - 1 ==> t[i] == chunk)
            && Offset(t, i) == i * chunk
  {
    ChunkSizeExact(size, chunk, i);
    DifferenceIsMultiple(size, chunk, i, g);
    PrefixSum(size, chunk, i);
    if i + 1 < NumChunks64(size, chunk) {
      ChunkSizeExact(size, chunk, i + 1);
      PrefixSum(size, chunk, i + 1);
      assert (i + 1) * chunk == i * chunk + chunk;
    }
  }

  lemma TableTiles(size: u64, chunk: u64, g: u64)
    requires g > 0 && size > 0 && chunk > 0 && size % g == 0 && chunk % g == 0 && size + chunk - 1 < TWO_64
    ensures Tiles(ChunkTable(size, chunk), size, chunk, g)
  {
    var t, n := ChunkTable(size, chunk), NumChunks64(size, chunk);
    WholeSum(size, chunk);
    forall i | 0 <= i < n
      ensures 0 < t[i] <= chunk && t[i] % g == 0 && (i < n - 1 ==> t[i] == chunk) && Offset(t, i) == i * chunk
    {
      TableEntry(size, chunk, g, i);
    }
  }

  lemma WholeSum(size: u64, chunk: u64)
    requires chunk > 0 && size + chunk - 1 < TWO_64
    ensures Sum(ChunkTable(size, chunk)) == size
  {
    var t, n := ChunkTable(size, chunk), NumChunks64(size, chunk);
    CeilingCovers(size, chunk, n);
    PrefixSum(size, chunk, n);
    assert t[..n] == t;
  }

  lemma WrapOnce(x: int)
    requires TWO_64 <= x < 2 * TWO_64
    ensures Wrap(x) == x - TWO_64
  {}

  lemma SmallQuotient(a: nat, b: nat)
    requires a < b
    ensures a / b == 0
  {}

  lemma TableEmptyOnWrap(size: u64, chunk: u64)
    requires chunk > 0 && size + chunk - 1 >= TWO_64
    ensures ChunkTable(size, chunk) == []
  {
    var s := size + chunk - 1;
    WrapOnce(s);
    SmallQuotient(s - TWO_64, chunk);
  }

  /** The table tiles the size precisely when the count of chunks does not wrap. */
  lemma TableTilesIffFits(size: u64, chunk: u64, g: u64)
    requires g > 0 && size > 0 && chunk > 0 && size % g == 0 && chunk % g == 0
    ensures Tiles(ChunkTable(size, chunk), size, chunk, g) <==> size + chunk - 1 < TWO_64
  {
    if size + chunk - 1 < TWO_64 {
      TableTiles(size, chunk, g);
    } else {
      TableEmptyOnWrap(size, chunk);
    }
  }

  /** A rounded size that is not zero is the exact one. */
  lemma AlignedIsExact(x: u64, g: u64)
    requires g > 0 && AlignUp64(x, g) != 0
    ensures x > 0 && x + g - 1 < TWO_64 && IsAlignedUp(x, g, AlignUp64(x, g))
  {
    if x == 0 { AlignUpZero(g); }
    AlignUpExactIffFits(x, g);
  }

  lemma AlignUpIsZeroIff(x: u64, g: u64)
    requires g > 0
    ensures AlignUp64(x, g) == 0 <==> x == 0 || x + g - 1 >= TWO_64
  {
    if x == 0 { AlignUpZero(g); } else { AlignUpExactIffFits(x, g); }
  }

  /** Whatever is asked for and configured: the table of an allocation that gets as far as
      building one tiles the aligned size, or the count of chunks wrapped and it is empty. */
  lemma AllocationTiles(size: u64, g: u64, env: EnvValue)
    requires g > 0
    requires AlignUp64(size, g) != 0 && AlignUp64(MemcreateChunkSize(env), g) != 0
    ensures var aligned, chunk := AlignUp64(size, g), AlignUp64(MemcreateChunkSize(env), g);
            && IsAlignedUp(size, g, aligned)
            && (Tiles(ChunkTable(aligned, chunk), aligned, chunk, g) <==> aligned + chunk - 1 < TWO_64)
            && (ChunkTable(aligned, chunk) == [] <==> aligned + chunk - 1 >= TWO_64)
  {
    var aligned, chunk := AlignUp64(size, g), AlignUp64(MemcreateChunkSize(env), g);
    AlignedIsExact(size, g);
    AlignedIsExact(MemcreateChunkSize(env), g);
    TableTilesIffFits(aligned, chunk, g);
    if aligned + chunk - 1 >= TWO_64 { TableEmptyOnWrap(aligned, chunk); }
  }

  /** A configured size that passes the guard on megabytes can still wrap when it is rounded up;
      the chunk size is then zero, and the next step divides by it. */
  lemma GuardDoesNotCoverRounding()
    ensures var base := MemcreateChunkSize(Parsed(0xFFF_FFFF_FFFF));
            base == TWO_64 - MB && AlignUp64(base, 2 * MB) == 0
  {}

  /** The count of chunks can wrap, too: this chunk size passes the guard and is rounded to itself,
      and the table of a two-megabyte allocation is empty. */
  lemma CountCanWrap()
    ensures var chunk := AlignUp64(MemcreateChunkSize(Parsed(0xFFF_FFFF_FFFF)), MB);
            && chunk == TWO_64 - MB && AlignUp64(2 * MB, MB) == 2 * MB
            && ChunkTable(2 * MB, chunk) == []
  {
    TableEmptyOnWrap(2 * MB, TWO_64 - MB);
  }

  /** Fills the table in place. */
  method FillChunkSizes(size: u64, chunk: u64, chunkSizes: array<u64>)
    requires chunk > 0 && chunkSizes.Length == NumChunks64(size, chunk)
    modifies chunkSizes
    ensures chunkSizes[..] == ChunkTable(size, chunk)
  {
    for i := 0 to chunkSizes.Length
      invariant chunkSizes[..i] == ChunkTable(size, chunk)[..i]
    {
      var rest := Wrap(size - Wrap(i * chunk));
      chunkSizes[i] := if rest < chunk then rest else chunk;
    }
  }
}
