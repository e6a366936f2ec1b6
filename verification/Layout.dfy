/** Sizes and positions: how the constructor rounds the slab size up to a cache line,
    which requests it accepts, where each slab's bytes lie, and which coloured shard
    each slab is placed in. */
module Layout {
  import opened Bits
  import opened Wrappers

  const COLOR_COUNT: nat := 16

  /** ShardPanic is not an error the constructor returns: it panics. */
  datatype LayoutError = InvalidSlabSize | InvalidCapacity | CapacityExceeded | MemoryOverflow | ShardPanic

  datatype Plan = Plan(slabSize: int, alignedSize: int, capacity: int)

  ghost predicate IsCacheLine(c: nat) {
    exists k: nat :: 5 <= k <= 30 && c == Pow2(k)
  }

  /** (size + c - 1) &^ (c - 1) in int32 arithmetic. */
  function AlignToCache(size: int, c: nat): int
    requires c > 0
  {
    ToInt32(AndNot((size + c - 1) % TWO_32, c - 1))
  }

  /** The argument checks and the size computation of the constructor. */
  function Request(slabSize: int, capacity: int, c: nat): Result<Plan, LayoutError>
    requires c > 0
  {
    if slabSize <= 0 then Failure(InvalidSlabSize)
    else if capacity <= 0 then Failure(InvalidCapacity)
    else if capacity > MAX_INT32 then Failure(CapacityExceeded)
    else
      var aligned := AlignToCache(ToInt32(slabSize), c);
      var total := aligned * capacity;
      if total > MAX_INT32 || total <= 0 then Failure(MemoryOverflow)
      else Success(Plan(ToInt32(slabSize), aligned, capacity))
  }

  lemma PowerDividesTwo31(k: nat)
    requires k <= 30
    ensures TWO_31 % Pow2(k) == 0
  {
    Pow2Values();
    Pow2Adds(k, 31 - k);
    var p, q := Pow2(k), Pow2(31 - k);
    assert TWO_31 == p * q;
    ModIsUnique(TWO_31, p, q, 0);
  }

  /** The bit trick before the conversion to int32: size + c - 1 rounded down. */
  lemma AlignRoundsDown(size: int, c: nat) returns (m: int)
    requires 0 < size <= MAX_INT32 && IsCacheLine(c)
    ensures c <= 0x4000_0000 && TWO_31 % c == 0
    ensures IsLeastMultiple(m, c, size) && size <= m <= size + c - 1
    ensures AlignToCache(size, c) == ToInt32(m)
  {
    var k: nat :| 5 <= k <= 30 && c == Pow2(k);
    hide IsCacheLine, IsLeastMultiple, AndNot, Pow2, ToInt32;
    CacheLineBounds(k);
    var x: nat, mask: nat := size + c - 1, c - 1;
    m := AndNot(x, mask);
    AndNotMask(x, k);
    RoundDown(x, c, size);
    NoWrap(x);
  }

  lemma CacheLineBounds(k: nat)
    requires k <= 30
    ensures Pow2(k) <= 0x4000_0000 && TWO_31 % Pow2(k) == 0
  {
    Pow2Monotone(k, 30);
    Pow2Values();
    PowerDividesTwo31(k);
  }

  lemma NoWrap(x: nat)
    requires x < TWO_32
    ensures x % TWO_32 == x
  {
    ModIsUnique(x, TWO_32, 0, x);
  }

  /** For every positive int32 size, the bit trick yields the least multiple of the cache
      line when that multiple fits int32, and a negative number when it does not. */
  lemma AlignIsLeastMultiple(size: int, c: nat)
    requires 0 < size <= MAX_INT32 && IsCacheLine(c)
    ensures AlignToCache(size, c) > 0 <==> size + c - 1 <= MAX_INT32
    ensures AlignToCache(size, c) > 0 ==> IsLeastMultiple(AlignToCache(size, c), c, size)
    ensures AlignToCache(size, c) <= 0 ==> forall m :: IsLeastMultiple(m, c, size) ==> m > MAX_INT32
  {
    var m := AlignRoundsDown(size, c);
    if m < TWO_31 {
      MultiplesAreSpaced(m, TWO_31, c);
      assert ToInt32(m) == m;
    } else {
      ModIsUnique(m, TWO_32, 0, m);
      assert ToInt32(m) == m - TWO_32;
    }
    hide AlignToCache, ToInt32;
  }

  lemma MultiplesAreSpaced(a: int, b: int, c: nat)
    requires c > 0 && a % c == 0 && b % c == 0 && a < b
    ensures a + c <= b
  {
    assert a == c * (a / c) && b == c * (b / c);
    assert c * (b / c - a / c) == c * (b / c) - c * (a / c);
    MulGrows(c, b / c - a / c);
    MulGrows(c, a / c - b / c);
  }

  /** A size that is not positive as an int32 never gives a positive aligned size. */
  lemma NonPositiveIsRejected(size: int, c: nat)
    requires -TWO_31 <= size <= 0 && IsCacheLine(c)
    ensures AlignToCache(size, c) <= 0
  {
    var k: nat :| 5 <= k <= 30 && c == Pow2(k);
    CacheLineBounds(k);
    var sum := size + c - 1;
    var x: nat := if sum >= 0 then sum else sum + TWO_32;
    ModIsUnique(sum, TWO_32, if sum >= 0 then 0 else -1, x);
    AndNotMask(x, k);
    hide AndNot, Pow2;
    if sum >= 0 {
      ModIsUnique(x, c, 0, x);
    } else {
      RoundsDownAbove(x, c);
      ModIsUnique(x - x % c, TWO_32, 0, x - x % c);
    }
  }

  lemma RoundsDownAbove(x: nat, c: nat)
    requires c > 0 && TWO_31 % c == 0 && x >= TWO_31
    ensures x - x % c >= TWO_31
  {
    var m := x - x % c;
    assert m == c * (x / c);
    ModIsUnique(m, c, x / c, 0);
    if m < TWO_31 {
      MultiplesAreSpaced(m, TWO_31, c);
    }
  }

  /** Every accepted request, also one whose size was truncated, has a positive slab size,
      an aligned size that holds it and is a multiple of the cache line, and a capacity that
      is an int32. */
  lemma AcceptedPlanIsSound(slabSize: int, capacity: int, c: nat)
    requires IsCacheLine(c) && Request(slabSize, capacity, c).Success?
    ensures var p := Request(slabSize, capacity, c).value;
      0 < p.slabSize <= p.alignedSize && p.alignedSize % c == 0 && 0 < p.capacity <= MAX_INT32
  {
    var size := ToInt32(slabSize);
    ProductSign(AlignToCache(size, c), capacity);
    if size <= 0 {
      NonPositiveIsRejected(size, c);
    } else {
      AlignIsLeastMultiple(size, c);
    }
    hide AlignToCache, IsCacheLine, ToInt32;
  }

  lemma ProductSign(a: int, n: nat)
    requires n > 0
    ensures a > 0 ==> a * n >= a
    ensures a <= 0 ==> a * n <= 0
  {
  }

  /** A request whose slab size is an int32 is accepted exactly when the rounded slabs fit
      MaxInt32 bytes, and then it keeps the size asked for and rounds it optimally. */
  lemma AcceptedExactlyWhen(slabSize: int, capacity: int, c: nat, m: int)
    requires 0 < slabSize <= MAX_INT32 && 0 < capacity <= MAX_INT32
    requires IsCacheLine(c) && IsLeastMultiple(m, c, slabSize)
    ensures Request(slabSize, capacity, c).Success? <==> m * capacity <= MAX_INT32
    ensures Request(slabSize, capacity, c).Success? ==>
      Request(slabSize, capacity, c).value == Plan(slabSize, m, capacity)
  {
    AlignIsLeastMultiple(slabSize, c);
    ProductSign(AlignToCache(slabSize, c), capacity);
    ProductSign(m, capacity);
  }

  /** The constructor never compares the slab size with MaxInt32 but truncates it, so a
      larger size can be accepted with smaller slabs. */
  lemma OversizedRequestAccepted()
    ensures Request(TWO_32 + 64, 1, 64) == Success(Plan(64, 64, 1))
  {
    assert Pow2(6) == 64;
    AndNotMask(127, 6);
    ModIsUnique(TWO_32 + 64, TWO_32, 1, 64);
    hide AndNot;
  }

  /** An accepted request gives slabs of at least the size asked for if and only if that
      size is an int32. */
  lemma SizeHonouredExactlyWhen(slabSize: int, capacity: int, c: nat)
    requires IsCacheLine(c) && Request(slabSize, capacity, c).Success?
    ensures Request(slabSize, capacity, c).value.slabSize == slabSize <==> slabSize <= MAX_INT32
    ensures Request(slabSize, capacity, c).value.alignedSize >= slabSize <==> slabSize <= MAX_INT32
  {
    if slabSize <= MAX_INT32 {
      AlignIsLeastMultiple(slabSize, c);
      ProductSign(AlignToCache(slabSize, c), capacity);
    }
  }

  // ---- What the constructor answers ----

  /** The plan that a request asks for: the slab size as an int32, the least multiple of the
      cache line that holds it, the capacity, and a total that is an int32. */
  ghost predicate Fulfils(p: Plan, slabSize: int, capacity: int, c: nat)
    requires c > 0
  {
    && slabSize > 0 && 0 < capacity <= 0x7FFF_FFFF
    && (slabSize - p.slabSize) % TWO_32 == 0 && 0 < p.slabSize <= MAX_INT32
    && IsLeastMultiple(p.alignedSize, c, p.slabSize)
    && p.capacity == capacity && p.alignedSize * capacity <= MAX_INT32
  }

  /** Which of the four errors a request gets, and that it gets what it asks for if none. */
  lemma RequestAnswers(slabSize: int, capacity: int, c: nat)
    requires IsCacheLine(c)
    ensures Request(slabSize, capacity, c) == Failure(InvalidSlabSize) <==> slabSize <= 0
    ensures Request(slabSize, capacity, c) == Failure(InvalidCapacity) <==> slabSize > 0 && capacity <= 0
    ensures Request(slabSize, capacity, c) == Failure(CapacityExceeded) <==> slabSize > 0 && capacity > 0x7FFF_FFFF
    ensures Request(slabSize, capacity, c) == Failure(MemoryOverflow)
       <==> slabSize > 0 && 0 < capacity <= 0x7FFF_FFFF && forall p :: !Fulfils(p, slabSize, capacity, c)
    ensures Request(slabSize, capacity, c).Success? ==>
      Fulfils(Request(slabSize, capacity, c).value, slabSize, capacity, c)
    ensures Request(slabSize, capacity, c) != Failure(ShardPanic)
  {
    assert c > 0;
    hide Fulfils, AlignToCache, ToInt32, IsCacheLine;
    if Request(slabSize, capacity, c).Success? {
      AcceptedFulfils(slabSize, capacity, c);
    } else if slabSize > 0 && 0 < capacity <= MAX_INT32 {
      forall p ensures !Fulfils(p, slabSize, capacity, c) {
        if Fulfils(p, slabSize, capacity, c) {
          FulfilledIsAccepted(p, slabSize, capacity, c);
        }
      }
    }
  }

  lemma AcceptedFulfils(slabSize: int, capacity: int, c: nat)
    requires IsCacheLine(c) && Request(slabSize, capacity, c).Success?
    ensures Fulfils(Request(slabSize, capacity, c).value, slabSize, capacity, c)
  {
    AcceptedPlanIsSound(slabSize, capacity, c);
    TruncationIsCongruent(slabSize);
    AlignIsLeastMultiple(ToInt32(slabSize), c);
    hide AlignToCache, ToInt32, IsCacheLine, IsLeastMultiple;
  }

  lemma TruncationIsCongruent(x: int)
    ensures (x - ToInt32(x)) % TWO_32 == 0
  {
    var q := x / TWO_32;
    assert x == TWO_32 * q + x % TWO_32;
    if x % TWO_32 < TWO_31 {
      ModIsUnique(x - ToInt32(x), TWO_32, q, 0);
    } else {
      ModIsUnique(x - ToInt32(x), TWO_32, q + 1, 0);
    }
  }

  /** No other int32 is congruent to x. */
  lemma TruncationIsUnique(x: int, y: int)
    requires -TWO_31 <= y <= MAX_INT32 && (x - y) % TWO_32 == 0
    ensures ToInt32(x) == y
  {
    var q := (x - y) / TWO_32;
    assert x == TWO_32 * q + y;
    if y >= 0 {
      ModIsUnique(x, TWO_32, q, y);
    } else {
      ModIsUnique(x, TWO_32, q - 1, y + TWO_32);
    }
  }

  lemma FulfilledIsAccepted(p: Plan, slabSize: int, capacity: int, c: nat)
    requires IsCacheLine(c) && slabSize > 0 && 0 < capacity <= MAX_INT32 && Fulfils(p, slabSize, capacity, c)
    ensures Request(slabSize, capacity, c) == Success(p)
  {
    TruncationIsUnique(slabSize, p.slabSize);
    AlignIsLeastMultiple(p.slabSize, c);
    ProductSign(p.alignedSize, capacity);
    hide AlignToCache, ToInt32, IsCacheLine;
    assert AlignToCache(p.slabSize, c) == p.alignedSize;
  }

  // ---- Slab windows inside the raw buffer ----

  /** createCacheAlignedSlice: how many bytes of the raw buffer are skipped. */
  function SkippedBytes(rawStart: nat, c: nat): int
    requires c > 0
  {
    AndNot(rawStart + c - 1, c - 1) - rawStart
  }

  lemma WindowInside(id: nat, alignedSize: nat, slabSize: nat, capacity: nat)
    requires id < capacity && slabSize <= alignedSize
    ensures 0 <= id * alignedSize
    ensures id * alignedSize + slabSize <= alignedSize * capacity
  {
    assert (id + 1) * alignedSize <= capacity * alignedSize;
    assert (id + 1) * alignedSize == id * alignedSize + alignedSize;
  }

  lemma WindowsDisjoint(i: nat, j: nat, alignedSize: nat)
    requires i < j
    ensures i * alignedSize + alignedSize <= j * alignedSize
  {
    assert (i + 1) * alignedSize <= j * alignedSize;
    assert (i + 1) * alignedSize == i * alignedSize + alignedSize;
  }

  lemma SkipIsAligned(rawStart: nat, c: nat)
    requires IsCacheLine(c)
    ensures 0 <= SkippedBytes(rawStart, c) < c && (rawStart + SkippedBytes(rawStart, c)) % c == 0
  {
    var k: nat :| 5 <= k <= 30 && c == Pow2(k);
    hide IsCacheLine, AndNot, Pow2;
    var x: nat := rawStart + c - 1;
    AndNotMask(x, k);
    RoundDown(x, c, rawStart);
  }

  /** Every accepted layout, of a truncated size too: the windows of two slabs never overlap,
      every window lies inside the pool, the pool lies inside the raw buffer, and every slab
      starts on a cache line. */
  lemma WindowsAreSound(slabSize: int, capacity: int, c: nat, rawStart: nat, i: nat, j: nat)
    requires IsCacheLine(c) && Request(slabSize, capacity, c).Success?
    requires i < capacity && j < capacity && i != j
    ensures var p := Request(slabSize, capacity, c).value;
      var skip := SkippedBytes(rawStart, c);
      var poolLength := p.alignedSize * capacity;
      && 0 <= skip && skip + poolLength <= poolLength + c - 1
      && p.slabSize > 0 && i * p.alignedSize + p.slabSize <= poolLength
      && (rawStart + skip + i * p.alignedSize) % c == 0
      && (i * p.alignedSize + p.slabSize <= j * p.alignedSize || j * p.alignedSize + p.slabSize <= i * p.alignedSize)
  {
    var p := Request(slabSize, capacity, c).value;
    AcceptedPlanIsSound(slabSize, capacity, c);
    SkipIsAligned(rawStart, c);
    var skip := SkippedBytes(rawStart, c);
    hide Request, SkippedBytes, IsCacheLine;
    WindowInside(i, p.alignedSize, p.slabSize, capacity);
    if i < j { WindowsDisjoint(i, j, p.alignedSize); } else { WindowsDisjoint(j, i, p.alignedSize); }
    SumOfMultiples(rawStart + skip, i, p.alignedSize, c);
  }

  lemma SumOfMultiples(a: int, i: nat, m: int, c: nat)
    requires c > 0 && a % c == 0 && m % c == 0
    ensures (a + i * m) % c == 0
  {
    var q := a / c + i * (m / c);
    assert a + i * m == c * q by {
      assert a == c * (a / c) && m == c * (m / c);
      assert i * (c * (m / c)) == c * (i * (m / c));
      assert c * q == c * (a / c) + c * (i * (m / c));
    }
    ModIsUnique(a + i * m, c, q, 0);
  }

  // ---- Placement in coloured shards ----

  /** getSlabColor: the mask evaluates to the single bit 16. */
  function SlabColor(id: nat, alignedSize: nat): nat {
    And(id * alignedSize, 16)
  }

  function ShardHash(id: bv32, color: bv32): bv32 {
    var h0 := id ^ (color * 0x9E37_79B9);
    var h1 := (h0 ^ 61) ^ (h0 >> 16);
    var h2 := h1 + (h1 << 3);
    var h3 := h2 ^ (h2 >> 4);
    var h4 := h3 * 0x27d4_eb2d;
    h4 ^ (h4 >> 15)
  }

  /** The hash of a few slabs, worked out from the constants of the source. */
  lemma HashValues()
    ensures ShardHash(0, 0) == 0xc0a9_496a && ShardHash(1, 0) == 0x2792_2c9d && ShardHash(2, 0) == 0xc679_3575
    ensures ShardHash(65537, 0) == 0xc986_8b35 && ShardHash(1, 16) == 0xc0a9_c1f8
    ensures ShardHash(0x7fff_ffff, 16) == 0x15be_096c
  {
  }

  /** getColoredShardIndex */
  function ShardOf(id: nat, shardCount: nat, color: nat): (r: nat)
    requires id <= MAX_INT32 && color <= 16 && shardCount > 0
    ensures r < shardCount
  {
    (ShardHash(id as bv32, color as bv32) as int) % shardCount
  }

  /** Where the constructor places a slab: the colour is not masked. */
  function IndexAtNew(id: nat, shardCount: nat, alignedSize: nat): nat
    requires id <= MAX_INT32 && shardCount > 0
  {
    var color := SlabColor(id, alignedSize);
    And(ShardOf(id, shardCount, color), shardCount - 1) * COLOR_COUNT + color
  }

  /** Where a returned slab is put, given the length of the shard array. */
  function IndexAtPut(id: nat, arrayLength: nat, alignedSize: nat): (r: nat)
    requires id <= MAX_INT32 && arrayLength >= COLOR_COUNT && arrayLength % COLOR_COUNT == 0
    ensures r < arrayLength
  {
    var color := SlabColor(id, alignedSize);
    var shardCount := arrayLength / COLOR_COUNT;
    And(ShardOf(id, shardCount, color), shardCount - 1) * COLOR_COUNT + And(color, COLOR_COUNT - 1)
  }

  /** Where Reset places a slab. */
  function IndexAtReset(id: nat, arrayLength: nat, alignedSize: nat): nat
    requires id <= MAX_INT32
  {
    var count := arrayLength / COLOR_COUNT;
    var shardCount := if count < 1 then 1 else count;
    var color := SlabColor(id, alignedSize);
    And(ShardOf(id, shardCount, color), shardCount - 1) * COLOR_COUNT + And(color, COLOR_COUNT - 1)
  }

  lemma ColorIsZeroOrSixteen(id: nat, alignedSize: nat)
    ensures SlabColor(id, alignedSize) == 0 || SlabColor(id, alignedSize) == 16
    ensures SlabColor(id, alignedSize) == 0 <==> (id * alignedSize / 16) % 2 == 0
  {
    assert Pow2(4) == 16;
    AndBit(id * alignedSize, 4);
  }

  /** A cache line of at least 32 bytes gives every slab colour zero. */
  lemma ColorIsZero(id: nat, alignedSize: nat)
    requires alignedSize % 32 == 0
    ensures SlabColor(id, alignedSize) == 0
  {
    ColorIsZeroOrSixteen(id, alignedSize);
    SumOfMultiples(0, id, alignedSize, 32);
    hide SlabColor;
    HalvedIsEven(id * alignedSize);
  }

  lemma HalvedIsEven(n: nat)
    requires n % 32 == 0
    ensures n / 16 % 2 == 0
  {
  }

  lemma MaskedColor(color: nat)
    requires color == 0 || color == 16
    ensures And(color, COLOR_COUNT - 1) == 0
  {
    Pow2Values();
    AndMask(color, 4);
  }

  lemma WholeRows(rows: nat)
    requires rows > 0
    ensures rows * COLOR_COUNT >= COLOR_COUNT && rows * COLOR_COUNT % COLOR_COUNT == 0
    ensures rows * COLOR_COUNT / COLOR_COUNT == rows
  {
  }

  /** The first of the sixteen shards of a slab's row. */
  function RowStart(id: nat, shardCount: nat, color: nat): nat
    requires id <= MAX_INT32 && color <= 16 && shardCount > 0
  {
    And(ShardOf(id, shardCount, color), shardCount - 1) * COLOR_COUNT
  }

  lemma PlacementsByRow(id: nat, shardCount: nat, length: nat, alignedSize: nat)
    requires id <= MAX_INT32 && shardCount == length / COLOR_COUNT > 0 && length % COLOR_COUNT == 0
    ensures SlabColor(id, alignedSize) <= 16
    ensures var row := RowStart(id, shardCount, SlabColor(id, alignedSize));
      && IndexAtNew(id, shardCount, alignedSize) == row + SlabColor(id, alignedSize)
      && IndexAtPut(id, length, alignedSize) == row
      && IndexAtReset(id, length, alignedSize) == row
  {
    hide ShardOf, SlabColor, And;
    ColorIsZeroOrSixteen(id, alignedSize);
    MaskedColor(SlabColor(id, alignedSize));
  }

  /** The constructor, put and Reset agree on a slab's shard if and only if the slab's
      colour bit is clear; otherwise the constructor is one whole row further. */
  lemma PlacementsAgreeExactlyWhen(id: nat, shardCount: nat, alignedSize: nat)
    requires id <= MAX_INT32 && shardCount > 0
    ensures var length := shardCount * COLOR_COUNT;
      var home := IndexAtPut(id, length, alignedSize);
      && IndexAtReset(id, length, alignedSize) == home < length
      && home % COLOR_COUNT == 0
      && (IndexAtNew(id, shardCount, alignedSize) == home <==> SlabColor(id, alignedSize) == 0)
      && (SlabColor(id, alignedSize) != 0 ==> IndexAtNew(id, shardCount, alignedSize) == home + COLOR_COUNT)
  {
    hide IndexAtNew, IndexAtPut, IndexAtReset, SlabColor, And, ShardOf;
    WholeRows(shardCount);
    PlacementsByRow(id, shardCount, shardCount * COLOR_COUNT, alignedSize);
    ColorIsZeroOrSixteen(id, alignedSize);
  }

  /** With a power of two of rows, a slab's home is the first shard of the row its hash names. */
  lemma HomeIsHashedRow(id: nat, rows: nat, alignedSize: nat)
    requires id <= MAX_INT32 && IsPow2(rows) && alignedSize % 32 == 0
    ensures rows > 0
    ensures IndexAtPut(id, rows * 16, alignedSize) == ShardHash(id as bv32, 0) as int % rows * 16
    ensures IndexAtNew(id, rows, alignedSize) == IndexAtReset(id, rows * 16, alignedSize)
         == IndexAtPut(id, rows * 16, alignedSize)
  {
    var k: nat :| rows == Pow2(k);
    hide ShardHash, IndexAtNew, IndexAtPut, IndexAtReset, SlabColor, And;
    WholeRows(rows);
    ColorIsZero(id, alignedSize);
    PlacementsByRow(id, rows, rows * 16, alignedSize);
    RowIsRemainder(ShardHash(id as bv32, 0) as int, rows, k);
  }

  lemma RowIsRemainder(hash: nat, rows: nat, k: nat)
    requires rows == Pow2(k)
    ensures And(hash % rows, rows - 1) == hash % rows
  {
    AndMask(hash % rows, k);
    SmallRemainder(hash, rows);
  }

  lemma SmallRemainder(n: nat, m: nat)
    requires m > 0
    ensures n % m % m == n % m
  {
  }

  // ---- The length of the shard array ----

  /** The largest shard count whose array length is a uint32. */
  const MAX_SHARDS: nat := 0x800_0000

  /** nextPowerOfTwo of any uint32: above 2^31 the one is shifted out of the word. */
  function RowCount(v: nat): nat
    requires v < TWO_32
  {
    if v <= TWO_31 then NextPowerOfTwo(v) else 0
  }

  /** actualShardCount*uint32(colorCount), in uint32 arithmetic. */
  function ShardArrayLength(rows: nat): nat {
    rows * COLOR_COUNT % TWO_32
  }

  /** The constructor panics on placing a slab if there is no row to divide by, or if the
      index is past the end of the array. */
  predicate PlacementPanics(id: nat, rows: nat, alignedSize: nat)
    requires id <= MAX_INT32
  {
    rows == 0 || IndexAtNew(id, rows, alignedSize) >= ShardArrayLength(rows)
  }

  lemma SmallRowCount(v: nat)
    requires v <= MAX_SHARDS
    ensures IsPow2(RowCount(v)) && 0 < RowCount(v) <= MAX_SHARDS
    ensures ShardArrayLength(RowCount(v)) == RowCount(v) * COLOR_COUNT
  {
    NextPowerOfTwoIsLeast(v);
    assert Pow2(27) == MAX_SHARDS by {
      Pow2Values();
    }
    ModIsUnique(RowCount(v) * COLOR_COUNT, TWO_32, 0, RowCount(v) * COLOR_COUNT);
    hide NextPowerOfTwo;
  }

  lemma LargeRowCount(v: nat)
    requires MAX_SHARDS < v < TWO_32
    ensures RowCount(v) == 0 || ShardArrayLength(RowCount(v)) == 0
  {
    if v <= TWO_31 {
      hide NextPowerOfTwo, Pow2;
      NextPowerOfTwoIsLeast(v);
      var k: nat :| NextPowerOfTwo(v) == Pow2(k);
      HighPower(k);
      HighPowerWraps(k);
    }
  }

  lemma HighPower(k: nat)
    requires Pow2(k) > MAX_SHARDS
    ensures k >= 28
  {
    if k <= 27 {
      Pow2Monotone(k, 27);
      Pow2Values();
    }
  }

  lemma HighPowerWraps(k: nat)
    requires k >= 28
    ensures ShardArrayLength(Pow2(k)) == 0
  {
    Pow2Values();
    Pow2Adds(k, 4);
    Pow2Adds(32, k - 28);
    hide Pow2;
    var j: nat, q := k + 4, Pow2(k - 28);
    assert Pow2(j) == TWO_32 * q;
    ModIsUnique(Pow2(j), TWO_32, q, 0);
  }

  /** With cache lines of at least 32 bytes, every placement of the constructor stays inside
      the shard array if and only if the shard count, as a uint32, is at most 2^27. */
  lemma PlacementsFitExactlyWhen(v: nat, capacity: nat, alignedSize: nat)
    requires v < TWO_32 && 0 < capacity <= MAX_INT32 && alignedSize % 32 == 0
    ensures (forall id: nat :: id < capacity ==> !PlacementPanics(id, RowCount(v), alignedSize)) <==> v <= MAX_SHARDS
  {
    hide RowCount, ShardArrayLength, IndexAtNew, IndexAtPut, IndexAtReset, SlabColor;
    if v <= MAX_SHARDS {
      SmallRowCount(v);
      forall id: nat | id < capacity ensures !PlacementPanics(id, RowCount(v), alignedSize) {
        PlacementsAgreeExactlyWhen(id, RowCount(v), alignedSize);
        ColorIsZero(id, alignedSize);
      }
    } else {
      LargeRowCount(v);
      assert PlacementPanics(0, RowCount(v), alignedSize);
    }
  }

  /** Asked for 2^28 shards, the constructor panics on the very first slab. */
  lemma ManyShardsPanic()
    ensures PlacementPanics(0, RowCount(0x1000_0000), 64)
  {
    LargeRowCount(0x1000_0000);
  }

  /** For any cache line the constructor indexes outside the array exactly for a slab of the
      last row whose colour bit is set. */
  lemma OverrunsExactlyWhen(id: nat, rows: nat, alignedSize: nat)
    requires id <= MAX_INT32 && IsPow2(rows)
    ensures IndexAtNew(id, rows, alignedSize) >= rows * COLOR_COUNT
       <==> ShardOf(id, rows, SlabColor(id, alignedSize)) == rows - 1 && id * alignedSize / 16 % 2 == 1
  {
    var k: nat :| rows == Pow2(k);
    var color := SlabColor(id, alignedSize);
    var shard := ShardOf(id, rows, color);
    AndMask(shard, k);
    ModIsUnique(shard, rows, 0, shard);
    ColorIsZeroOrSixteen(id, alignedSize);
    hide SlabColor, ShardOf, And, Pow2;
    LastRow(shard, rows, color);
  }

  lemma LastRow(row: nat, rows: nat, color: nat)
    requires row < rows && (color == 0 || color == 16)
    ensures row * COLOR_COUNT + color >= rows * COLOR_COUNT <==> row == rows - 1 && color == 16
  {
  }

  /** With a 16-byte cache line the second of two 16-byte slabs is placed outside the array. */
  lemma SmallCacheLineOverrunsShards()
    ensures IndexAtNew(1, 1, 16) == 16 == 1 * COLOR_COUNT
  {
    PlacementsAgreeExactlyWhen(1, 1, 16);
    assert Pow2(4) == 16;
    AndBit(16, 4);
  }
}
