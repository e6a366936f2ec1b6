/** Large allocations from the operating system: page rounding in 64-bit arithmetic, the
    table of regions, and the byte counter that subtracts by adding a two's complement.
    What the operating system answers is an input of each call. */
module Mmap {
  import opened Bits
  import opened Sums
  import opened Wrappers

  const TWO_63: int := 0x8000_0000_0000_0000
  const TWO_64: int := 0x1_0000_0000_0000_0000
  const MAX_INT64: int := TWO_63 - 1

  /** The int64 value whose two's complement bits are the low 64 bits of x. */
  function ToInt64(x: int): (r: int)
    ensures -TWO_63 <= r <= MAX_INT64
    ensures -TWO_63 <= x <= MAX_INT64 ==> r == x
  {
    var u := x % TWO_64;
    if u < TWO_63 then u else u - TWO_64
  }

  function ToUint64(x: int): (r: nat)
    ensures r < TWO_64
  {
    x % TWO_64
  }

  /** Division as in Go: truncated toward zero. */
  function Quotient(x: int, y: nat): int
    requires y > 0
  {
    if x >= 0 then x / y else -((-x) / y)
  }

  // ---- Page rounding ----

  function AlignSize(size: int, pageSize: nat): int
    requires pageSize > 0
  {
    if size <= 0 then pageSize
    else ToInt64(Quotient(ToInt64(size + pageSize - 1), pageSize) * pageSize)
  }

  /** The rounded size is the least multiple of the page size that is not smaller, if and
      only if adding the page size less one does not overflow. */
  lemma AlignSizeIsExactExactlyWhen(size: int, pageSize: nat)
    requires 0 < size <= MAX_INT64 && 0 < pageSize <= MAX_INT64
    ensures IsLeastMultiple(AlignSize(size, pageSize), pageSize, size) <==> size + pageSize - 1 <= MAX_INT64
  {
    if size + pageSize - 1 <= MAX_INT64 {
      FittingSizeIsRounded(size, pageSize);
    } else {
      OverflowingSizeIsNot(size, pageSize);
    }
    hide AlignSize;
  }

  lemma FittingSizeIsRounded(size: int, pageSize: nat)
    requires 0 < size && 0 < pageSize && size + pageSize - 1 <= MAX_INT64
    ensures IsLeastMultiple(AlignSize(size, pageSize), pageSize, size)
  {
    var sum := size + pageSize - 1;
    hide ToInt64;
    RoundDown(sum, pageSize, size);
    QuotientTimes(sum, pageSize);
    hide IsLeastMultiple;
  }

  lemma OverflowingSizeIsNot(size: int, pageSize: nat)
    requires 0 < size <= MAX_INT64 && 0 < pageSize <= MAX_INT64 && size + pageSize - 1 > MAX_INT64
    ensures AlignSize(size, pageSize) <= 0
  {
    var sum := ToInt64(size + pageSize - 1);
    OverflowIsNegative(size + pageSize - 1);
    QuotientTimes(-sum, pageSize);
    assert Quotient(sum, pageSize) * pageSize == -(-sum / pageSize * pageSize);
    hide ToInt64;
  }

  /** Nothing, and anything up to a page, takes one page. */
  lemma UpToAPageIsOnePage(size: int, pageSize: nat)
    requires size <= pageSize && 0 < pageSize && 2 * pageSize - 1 <= MAX_INT64
    ensures AlignSize(size, pageSize) == pageSize
  {
    if size > 0 {
      var sum := size + pageSize - 1;
      DivIsUnique(sum, pageSize, size - 1);
      hide ToInt64;
    }
  }

  lemma DivIsUnique(n: nat, m: nat, r: nat)
    requires r < m && n == m + r
    ensures n / m == 1
  {
  }

  lemma QuotientTimes(n: nat, m: nat)
    requires m > 0
    ensures n / m * m == n - n % m && 0 <= n / m * m <= n
  {
    assert n == m * (n / m) + n % m;
  }

  lemma OverflowIsNegative(sum: int)
    requires MAX_INT64 < sum < TWO_64
    ensures -TWO_63 <= ToInt64(sum) < 0
  {
  }

  // ---- Wrapping subtraction ----

  /** ^uint64(0) - uint64(size) + 1, added to the counter. */
  function Subtracted(counter: nat, size: int): nat {
    ToUint64(counter + ToUint64(ToUint64(TWO_64 - 1 - ToUint64(size)) + 1))
  }

  lemma AdditionIsExact(total: int, size: int)
    ensures ToUint64(ToUint64(total) + ToUint64(size)) == ToUint64(total + size)
  {
    ModAdd(total, ToUint64(size), TWO_64);
    ModAdd(size, total, TWO_64);
  }

  /** Adding the two's complement subtracts, modulo 2^64. */
  lemma SubtractionIsExact(total: int, size: int)
    ensures Subtracted(ToUint64(total), size) == ToUint64(total - size)
  {
    var s, q := ToUint64(size), size / TWO_64;
    assert size == TWO_64 * q + s;
    ModIsUnique(TWO_64 - 1 - s, TWO_64, 0, TWO_64 - 1 - s);
    ModAdd(TWO_64 - s, ToUint64(total), TWO_64);
    ModAdd(total, TWO_64 - s, TWO_64);
    ModShift(total - size, TWO_64, q + 1);
    assert total + (TWO_64 - s) == total - size + TWO_64 * (q + 1);
  }

  // ---- The allocator ----

  datatype Region = Region(size: int)

  ghost function SizeOf(r: Region): int { r.size }

  /** Every tracked size is the rounding of a positive size asked for. */
  ghost predicate Rounded(regions: map<nat, Region>, requested: map<nat, int>, pageSize: nat)
    requires pageSize > 0
  {
    && requested.Keys == regions.Keys
    && forall p :: p in regions ==>
         0 < requested[p] <= MAX_INT64 && regions[p].size == AlignSize(requested[p], pageSize)
  }

  /** The byte counter is the exact sum of the region sizes modulo 2^64, and the region
      counter their number. */
  ghost predicate Totals(regions: map<nat, Region>, bytes: nat, active: int) {
    bytes == ToUint64(SumOver(regions, SizeOf)) && active == |regions|
  }

  lemma TotalsAfterMap(regions: map<nat, Region>, bytes: nat, active: int, ptr: nat, size: int)
    requires Totals(regions, bytes, active) && ptr !in regions
    ensures Totals(regions[ptr := Region(size)], ToUint64(bytes + ToUint64(size)), active + 1)
  {
    hide ToUint64, SumOver;
    SumSet(regions, SizeOf, ptr, Region(size));
    AdditionIsExact(SumOver(regions, SizeOf), size);
  }

  lemma RoundedAfterMap(regions: map<nat, Region>, requested: map<nat, int>, pageSize: nat, ptr: nat, size: int)
    requires pageSize > 0 && Rounded(regions, requested, pageSize) && 0 < size <= MAX_INT64
    ensures Rounded(regions[ptr := Region(AlignSize(size, pageSize))], requested[ptr := size], pageSize)
  {
    hide AlignSize;
  }

  lemma RoundedAfterRelease(regions: map<nat, Region>, requested: map<nat, int>, pageSize: nat, ptr: nat)
    requires pageSize > 0 && Rounded(regions, requested, pageSize)
    ensures Rounded(regions - {ptr}, requested - {ptr}, pageSize)
  {
    hide AlignSize;
  }

  lemma TotalsAfterRelease(regions: map<nat, Region>, bytes: nat, active: int, ptr: nat)
    requires Totals(regions, bytes, active) && ptr in regions
    ensures Totals(regions - {ptr}, Subtracted(bytes, regions[ptr].size), active - 1)
  {
    hide ToUint64, Subtracted, SumOver;
    SumWithout(regions, SizeOf, ptr);
    SubtractionIsExact(SumOver(regions, SizeOf), regions[ptr].size);
    SizeWithout(regions, ptr);
  }

  /** Of the mappings made so far, those tracked and those released are pairwise distinct. */
  ghost predicate Accounted(serials: map<nat, nat>, released: seq<nat>, made: nat) {
    && (forall p :: p in serials ==> serials[p] < made && serials[p] !in released)
    && (forall p, q :: p in serials && q in serials && p != q ==> serials[p] != serials[q])
    && (forall i :: 0 <= i < |released| ==> released[i] < made)
    && (forall i, j :: 0 <= i < j < |released| ==> released[i] != released[j])
  }

  lemma AccountedAfterMap(serials: map<nat, nat>, released: seq<nat>, made: nat, ptr: nat)
    requires Accounted(serials, released, made) && ptr !in serials
    ensures Accounted(serials[ptr := made], released, made + 1)
  {
  }

  lemma AccountedAfterRelease(serials: map<nat, nat>, released: seq<nat>, made: nat, ptr: nat)
    requires Accounted(serials, released, made) && ptr in serials
    ensures Accounted(serials - {ptr}, released + [serials[ptr]], made)
  {
    var more := released + [serials[ptr]];
    forall i, j | 0 <= i < j < |more| ensures more[i] != more[j] {
      assert more[i] in released;
    }
  }

  datatype Error = InvalidSize | MmapFailed | UnknownRegion | MunmapFailed

  class MmapAllocator {
    const pageSize: nat
    const returnToOS: bool
    var regions: map<nat, Region>
    var allocations: nat
    var deallocations: nat
    var bytesAllocated: nat
    var activeRegions: int
    var returnsToOS: nat
    var failedAlloc: nat
    /** Which mapping, counted from 0, each tracked address stands for, and the mappings
        handed to munmap so far. */
    ghost var serials: map<nat, nat>
    ghost var released: seq<nat>
    /** The size asked for at each tracked address. */
    ghost var requested: map<nat, int>

    ghost predicate Valid()
      reads this
    {
      && 4096 <= pageSize <= MAX_INT64
      && Totals(regions, bytesAllocated, activeRegions)
      && activeRegions == allocations - deallocations
      && Rounded(regions, requested, pageSize)
      && serials.Keys == regions.Keys
      && |released| == deallocations
      && Accounted(serials, released, allocations)
    }

    constructor (osPageSize: nat, returnToOS: bool)
      requires osPageSize <= MAX_INT64
      ensures Valid() && regions == map[] && released == []
      ensures this.pageSize == (if osPageSize < 4096 then 4096 else osPageSize) && this.returnToOS == returnToOS
    {
      this.pageSize := if osPageSize < 4096 then 4096 else osPageSize;
      this.returnToOS := returnToOS;
      regions, serials, released, requested := map[], map[], [], map[];
      allocations, deallocations, bytesAllocated, activeRegions, returnsToOS, failedAlloc := 0, 0, 0, 0, 0, 0;
    }

    /** mapped is the address the operating system answers, not tracked so far, or None. */
    method Allocate(size: int, mapped: Option<nat>) returns (r: Result<nat, Error>)
      requires Valid() && size <= MAX_INT64
      requires mapped.Some? ==> mapped.value != 0 && mapped.value !in regions
      modifies this
      ensures Valid() && released == old(released)
      ensures size <= 0 ==> r == Failure(InvalidSize)
      ensures size > 0 ==> r == if mapped.Some? then Success(mapped.value) else Failure(MmapFailed)
      ensures r.Failure? ==> regions == old(regions) && serials == old(serials) && bytesAllocated == old(bytesAllocated)
      ensures r.Success? ==>
        && regions == old(regions)[r.value := Region(AlignSize(size, pageSize))]
        && serials == old(serials)[r.value := old(allocations)]
        && requested == old(requested)[r.value := size]
    {
      hide ToUint64, AlignSize, Accounted, Totals, Rounded;
      if size <= 0 {
        return Failure(InvalidSize);
      }
      var alignedSize := AlignSize(size, pageSize);
      if mapped.None? {
        failedAlloc := failedAlloc + 1;
        return Failure(MmapFailed);
      }
      TotalsAfterMap(regions, bytesAllocated, activeRegions, mapped.value, alignedSize);
      RoundedAfterMap(regions, requested, pageSize, mapped.value, size);
      AccountedAfterMap(serials, released, allocations, mapped.value);
      regions := regions[mapped.value := Region(alignedSize)];
      serials := serials[mapped.value := allocations];
      requested := requested[mapped.value := size];
      allocations := allocations + 1;
      bytesAllocated := ToUint64(bytesAllocated + ToUint64(alignedSize));
      activeRegions := activeRegions + 1;
      return Success(mapped.value);
    }

    /** unmapped is the operating system's answer. Whatever it is, the region is forgotten
        before it is released, so no later call can release it again. */
    method Deallocate(ptr: nat, unmapped: bool) returns (error: Option<Error>)
      requires Valid()
      modifies this
      ensures Valid()
      ensures ptr == 0 ==> error == None
      ensures ptr != 0 && ptr !in old(regions) ==> error == Some(UnknownRegion)
      ensures ptr == 0 || ptr !in old(regions) ==>
        regions == old(regions) && released == old(released) && bytesAllocated == old(bytesAllocated)
      ensures ptr != 0 && ptr in old(regions) ==>
        && error == (if unmapped then None else Some(MunmapFailed))
        && regions == old(regions) - {ptr} && requested == old(requested) - {ptr}
        && released == old(released) + [old(serials[ptr])]
    {
      hide ToUint64, Accounted, Subtracted, Totals, Rounded;
      if ptr == 0 {
        return None;
      }
      if ptr !in regions {
        return Some(UnknownRegion);
      }
      var r := regions[ptr];
      TotalsAfterRelease(regions, bytesAllocated, activeRegions, ptr);
      RoundedAfterRelease(regions, requested, pageSize, ptr);
      AccountedAfterRelease(serials, released, allocations, ptr);
      released := released + [serials[ptr]];
      regions, serials, requested := regions - {ptr}, serials - {ptr}, requested - {ptr};
      deallocations := deallocations + 1;
      bytesAllocated := Subtracted(bytesAllocated, r.size);
      activeRegions := activeRegions - 1;
      if returnToOS && r.size >= pageSize {
        returnsToOS := returnsToOS + 1;
      }
      return if unmapped then None else Some(MunmapFailed);
    }

    /** For a tracked address, the least number of whole pages that holds the size asked for
        there, exactly when that rounding did not overflow. */
    method Size(ptr: nat) returns (r: Result<int, Error>)
      requires Valid()
      ensures r.Failure? <==> ptr !in regions
      ensures r.Failure? ==> r.error == UnknownRegion
      ensures r.Success? ==> ptr in requested && r.value == AlignSize(requested[ptr], pageSize)
      ensures r.Success? ==>
        (IsLeastMultiple(r.value, pageSize, requested[ptr]) <==> requested[ptr] + pageSize - 1 <= MAX_INT64)
    {
      if ptr !in regions {
        return Failure(UnknownRegion);
      }
      AlignSizeIsExactExactlyWhen(requested[ptr], pageSize);
      return Success(regions[ptr].size);
    }
  }
}
