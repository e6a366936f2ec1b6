/** Whole allocator calls on the pools: acquiring one slab, acquiring a batch and
    releasing a slab, with what they guarantee about running out of memory. */
module Claims {
  import opened Bags
  import opened Bits
  import opened Layout
  import opened Pools
  import opened Wrappers

  /** Nothing left to take for the caller: one cache, the stack and all shards are empty. */
  ghost predicate EmptyHanded(p: Pools) {
    && p.stack == []
    && (forall j :: 0 <= j < |p.shards| ==> p.shards[j] == [])
    && (p.caches != [] ==> exists c :: 0 <= c < |p.caches| && p.caches[c] == [])
  }

  ghost predicate SameSizes(p: Pools, q: Pools) {
    |q.inUse| == |p.inUse| && |q.caches| == |p.caches| && |q.shards| == |p.shards|
  }

  function AcquireShared(p: Pools, start: nat -> nat): (r: Claim)
    requires WellFormed(p)
    ensures WellFormed(r.pools) && SameSizes(p, r.pools) && r.pools.caches == p.caches
    ensures GoodClaim(p, r)
    ensures Exact(p) ==> Exact(r.pools)
    ensures r.slot.None? && Sized(p) ==>
      r.pools.stack == [] && forall j :: 0 <= j < |r.pools.shards| ==> r.pools.shards[j] == []
  {
    var s := ClaimFromStack(p);
    if s.slot.Some? then s
    else
      var h := ClaimFromShards(s.pools, start, 0);
      GoodClaimContinues(p, s, h);
      h
  }

  /** The search order of Allocate and AllocateFast: caches, then the stack, then the shards. */
  function Acquire(p: Pools, cpu: nat -> nat, start: nat -> nat): (r: Claim)
    requires WellFormed(p)
    ensures WellFormed(r.pools) && SameSizes(p, r.pools)
    ensures GoodClaim(p, r)
    ensures p.caches == [] && Exact(p) ==> Exact(r.pools)
    ensures r.slot.None? && Sized(p) ==> EmptyHanded(r.pools)
  {
    var c := ClaimFromCaches(p, cpu, 0);
    if c.slot.Some? then c
    else
      var r := AcquireShared(c.pools, start);
      GoodClaimContinues(p, c, r);
      r
  }

  lemma GoodClaimContinues(p: Pools, c: Claim, r: Claim)
    requires GoodClaim(p, c) && c.slot.None? && GoodClaim(c.pools, r)
    ensures GoodClaim(p, r)
  {
  }

  // ---- Batches ----

  datatype Batch = Batch(pools: Pools, ids: seq<int>, drawn: nat)

  /** The flags v are u after setting the flags of ids one after the other, each clear before. */
  ghost predicate ClaimedInOrder(u: seq<bool>, ids: seq<int>, v: seq<bool>)
    decreases |ids|
  {
    if ids == [] then u == v
    else 0 <= ids[0] < |u| && !u[ids[0]] && ClaimedInOrder(u[ids[0] := true], ids[1..], v)
  }

  ghost predicate GoodBatch(p: Pools, n: nat, b: Batch) {
    && WellFormed(b.pools) && SameSizes(p, b.pools)
    && |b.ids| <= n
    && ClaimedInOrder(p.inUse, b.ids, b.pools.inUse)
    && (Covers(p) ==> Covers(b.pools))
    && (p.caches == [] && Exact(p) ==> Exact(b.pools))
  }

  function BatchFromCaches(p: Pools, n: nat, draw: nat -> nat, k: nat): (b: Batch)
    requires WellFormed(p)
    ensures GoodBatch(p, n, b) && b.pools.shards == p.shards
    ensures |b.ids| < n && p.caches != [] ==>
      b.pools.stack == [] && exists c :: 0 <= c < |b.pools.caches| && b.pools.caches[c] == []
    decreases n
  {
    if n == 0 then Batch(p, [], k)
    else
      var c := ClaimFromCaches(p, draw, k);
      if c.slot.None? then Batch(c.pools, [], c.drawn)
      else
        var rest := BatchFromCaches(c.pools, n - 1, draw, c.drawn);
        Batch(rest.pools, [c.slot.value] + rest.ids, rest.drawn)
  }

  function BatchFromStack(p: Pools, n: nat): (b: Batch)
    requires WellFormed(p)
    ensures GoodBatch(p, n, b) && b.pools.caches == p.caches && b.pools.shards == p.shards
    ensures |b.ids| < n ==> b.pools.stack == []
    decreases n
  {
    if n == 0 then Batch(p, [], 0)
    else
      var c := ClaimFromStack(p);
      if c.slot.None? then Batch(c.pools, [], 0)
      else
        var rest := BatchFromStack(c.pools, n - 1);
        Batch(rest.pools, [c.slot.value] + rest.ids, 0)
  }

  function BatchFromShards(p: Pools, n: nat, draw: nat -> nat, k: nat): (b: Batch)
    requires WellFormed(p)
    ensures GoodBatch(p, n, b) && b.pools.caches == p.caches && b.pools.stack == p.stack
    ensures |b.ids| < n && Sized(p) ==> forall j :: 0 <= j < |b.pools.shards| ==> b.pools.shards[j] == []
    decreases n
  {
    if n == 0 then Batch(p, [], k)
    else
      var c := ClaimFromShards(p, draw, k);
      if c.slot.None? then Batch(c.pools, [], c.drawn)
      else
        var rest := BatchFromShards(c.pools, n - 1, draw, c.drawn);
        Batch(rest.pools, [c.slot.value] + rest.ids, rest.drawn)
  }

  /** The slab part of BatchAllocate: caches first, then the stack, then the shards. */
  function AcquireBatch(p: Pools, n: nat, cpu: nat -> nat, start: nat -> nat): (b: Batch)
    requires WellFormed(p)
    ensures GoodBatch(p, n, b)
    ensures |b.ids| < n && Sized(p) ==> EmptyHanded(b.pools)
  {
    var b1 := BatchFromCaches(p, n, cpu, 0);
    var b2 := BatchFromStack(b1.pools, n - |b1.ids|);
    var b3 := BatchFromShards(b2.pools, n - |b1.ids| - |b2.ids|, start, 0);
    InOrderAppend(p.inUse, b1.ids, b1.pools.inUse, b2.ids, b2.pools.inUse);
    InOrderAppend(p.inUse, b1.ids + b2.ids, b2.pools.inUse, b3.ids, b3.pools.inUse);
    Batch(b3.pools, b1.ids + b2.ids + b3.ids, 0)
  }

  lemma {:induction false} InOrderAppend(u: seq<bool>, a: seq<int>, v: seq<bool>, b: seq<int>, w: seq<bool>)
    requires ClaimedInOrder(u, a, v) && ClaimedInOrder(v, b, w)
    ensures ClaimedInOrder(u, a + b, w)
    decreases |a|
  {
    if a == [] {
      assert a + b == b;
    } else {
      InOrderAppend(u[a[0] := true], a[1..], v, b, w);
      assert (a + b)[1..] == a[1..] + b;
    }
  }

  /** IDs claimed one after the other are pairwise distinct, were free, are in use now, no
      other flag changed, and the number of free slabs went down by exactly their number. */
  lemma {:induction false} InOrderMeans(u: seq<bool>, ids: seq<int>, v: seq<bool>)
    requires ClaimedInOrder(u, ids, v)
    ensures |v| == |u|
    ensures forall i, j :: 0 <= i < j < |ids| ==> ids[i] != ids[j]
    ensures forall i :: 0 <= i < |ids| ==> 0 <= ids[i] < |u| && !u[ids[i]] && v[ids[i]]
    ensures forall x :: 0 <= x < |u| && x !in ids ==> v[x] == u[x]
    ensures forall x :: 0 <= x < |u| && u[x] ==> v[x]
    ensures FreeCount(v) + |ids| == FreeCount(u)
    decreases |ids|
  {
    hide FreeBag;
    if ids != [] {
      var u1, rest := u[ids[0] := true], ids[1..];
      InOrderMeans(u1, rest, v);
      FreeBagSet(u, ids[0], true);
      assert forall i :: 0 < i < |ids| ==> ids[i] == rest[i - 1];
      assert forall x :: x in ids <==> x == ids[0] || x in rest;
    }
  }

  // ---- Releasing ----

  /** Where a freed ID goes: the drawn cache if there is room, else the free stack if there
      is room, else its home shard. */
  function PutBack(caches: seq<seq<int>>, stack: seq<int>, shards: seq<seq<int>>,
                   capacity: nat, id: nat, draw: nat, alignedSize: nat): (r: (seq<seq<int>>, seq<int>, seq<seq<int>>))
    requires id <= MAX_INT32 && |shards| >= COLOR_COUNT && |shards| % COLOR_COUNT == 0
  {
    var c := if caches == [] then 0 else CacheIndex(draw, |caches|);
    if caches != [] && |caches[c]| < CACHE_SIZE then (caches[c := caches[c] + [id]], stack, shards)
    else if |stack| < capacity then (caches, stack + [id], shards)
    else
      var home := IndexAtPut(id, |shards|, alignedSize);
      (caches, stack, shards[home := shards[home] + [id]])
  }

  /** The three places, spelled out. */
  lemma PutBackCases(caches: seq<seq<int>>, stack: seq<int>, shards: seq<seq<int>>,
                     capacity: nat, id: nat, draw: nat, alignedSize: nat)
    requires id <= MAX_INT32 && |shards| >= COLOR_COUNT && |shards| % COLOR_COUNT == 0
    ensures var r := PutBack(caches, stack, shards, capacity, id, draw, alignedSize);
      var c := if caches == [] then 0 else CacheIndex(draw, |caches|);
      var home := IndexAtPut(id, |shards|, alignedSize);
      if caches != [] && |caches[c]| < CACHE_SIZE then r == (caches[c := caches[c] + [id]], stack, shards)
      else if |stack| < capacity then r == (caches, stack + [id], shards)
      else r == (caches, stack, shards[home := shards[home] + [id]])
  {
  }

  lemma PutBackFacts(p: Pools, id: int, draw: nat, alignedSize: nat)
    requires WellFormed(p) && 0 <= id < |p.inUse|
    ensures var r := PutBack(p.caches, p.stack, p.shards, |p.inUse|, id, draw, alignedSize);
      var q := p.(caches := r.0, stack := r.1, shards := r.2);
      WellFormed(q) && SameSizes(p, q) && Bag(q) == Bag(p) + multiset{id}
  {
    var c := if p.caches == [] then 0 else CacheIndex(draw, |p.caches|);
    if p.caches != [] && |p.caches[c]| < CACHE_SIZE {
      CachePush(p, c, id);
    } else if |p.stack| < |p.inUse| {
      StackPush(p, id);
    } else {
      ShardPush(p, IndexAtPut(id, |p.shards|, alignedSize), id);
    }
    hide WellFormed, IndexAtPut, CacheIndex, SameSizes, Bag;
  }

  lemma CachePush(p: Pools, c: nat, id: int)
    requires WellFormed(p) && 0 <= id < |p.inUse| && c < |p.caches| && |p.caches[c]| < CACHE_SIZE
    ensures var q := p.(caches := p.caches[c := p.caches[c] + [id]]);
      WellFormed(q) && SameSizes(p, q) && Bag(q) == Bag(p) + multiset{id}
  {
    CacheSet(p, c, p.caches[c] + [id]);
    hide WellFormed, BagOf;
    BagOfPush(p.caches, c, id);
  }

  lemma StackPush(p: Pools, id: int)
    requires WellFormed(p) && 0 <= id < |p.inUse| && |p.stack| < |p.inUse|
    ensures var q := p.(stack := p.stack + [id]);
      WellFormed(q) && SameSizes(p, q) && Bag(q) == Bag(p) + multiset{id}
  {
    hide BagOf;
  }

  lemma ShardPush(p: Pools, j: nat, id: int)
    requires WellFormed(p) && 0 <= id < |p.inUse| && j < |p.shards|
    ensures var q := p.(shards := p.shards[j := p.shards[j] + [id]]);
      WellFormed(q) && SameSizes(p, q) && Bag(q) == Bag(p) + multiset{id}
  {
    assert WellFormed(p.(shards := p.shards[j := p.shards[j] + [id]]));
    hide WellFormed, BagOf;
    BagOfPush(p.shards, j, id);
  }

  /** Clear the flag and put the ID back. */
  function Release(p: Pools, id: int, draw: nat, alignedSize: nat): (r: Pools)
    requires WellFormed(p) && 0 <= id < |p.inUse|
    ensures WellFormed(r) && SameSizes(p, r) && r.inUse == p.inUse[id := false]
    ensures Bag(r) == Bag(p) + multiset{id}
  {
    var b := PutBack(p.caches, p.stack, p.shards, |p.inUse|, id, draw, alignedSize);
    PutBackFacts(p, id, draw, alignedSize);
    Pools(p.inUse[id := false], b.0, b.1, b.2)
  }

  /** Releasing a slab that is in use keeps every free slab listed, and keeps the listing
      exact if it was. */
  lemma ReleaseKeepsListing(p: Pools, id: int, draw: nat, alignedSize: nat)
    requires WellFormed(p) && 0 <= id < |p.inUse| && p.inUse[id]
    ensures Covers(p) ==> Covers(Release(p, id, draw, alignedSize))
    ensures Exact(p) ==> Exact(Release(p, id, draw, alignedSize))
    ensures FreeCount(Release(p, id, draw, alignedSize).inUse) == FreeCount(p.inUse) + 1
  {
    FreeBagSet(p.inUse, id, false);
  }

  // ---- Running out of memory ----

  /** With every free slab listed, an empty-handed caller leaves at most 16 slabs per other
      cache free, and none at all when there is at most one cache. */
  lemma StrandedBound(p: Pools)
    requires WellFormed(p) && Covers(p) && EmptyHanded(p)
    ensures FreeCount(p.inUse) <= if p.caches == [] then 0 else 16 * (|p.caches| - 1)
  {
    BagOfEmptyLists(p.shards);
    assert Bag(p) == BagOf(p.caches);
    BagOfBound(p.caches, CACHE_SIZE);
    SubBag(FreeBag(p.inUse), BagOf(p.caches));
  }

  /** Allocate or AllocateFast comes back empty-handed only if few slabs are stranded in
      other caches; with at most one cache, exactly when every slab is in use. */
  lemma OutOfMemoryMeans(p: Pools, cpu: nat -> nat, start: nat -> nat)
    requires WellFormed(p) && Sized(p) && Covers(p)
    ensures var r := Acquire(p, cpu, start);
      && (r.slot.None? ==> EmptyHanded(r.pools)
                           && FreeCount(p.inUse) <= if p.caches == [] then 0 else 16 * (|p.caches| - 1))
      && (FreeCount(p.inUse) == 0 ==> r.slot.None?)
      && (|p.caches| <= 1 ==> (r.slot.None? <==> FreeCount(p.inUse) == 0))
  {
    var r := Acquire(p, cpu, start);
    NoneFree(p.inUse);
    if r.slot.None? {
      StrandedBound(r.pools);
    }
  }

  /** The same for a batch that comes back short. */
  lemma ShortBatchMeans(p: Pools, n: nat, cpu: nat -> nat, start: nat -> nat)
    requires WellFormed(p) && Sized(p) && Covers(p)
    ensures var b := AcquireBatch(p, n, cpu, start);
      && FreeCount(b.pools.inUse) + |b.ids| == FreeCount(p.inUse)
      && (|b.ids| < n ==> EmptyHanded(b.pools)
                          && FreeCount(b.pools.inUse) <= if p.caches == [] then 0 else 16 * (|p.caches| - 1))
      && (|p.caches| <= 1 ==> |b.ids| == if n <= FreeCount(p.inUse) then n else FreeCount(p.inUse))
  {
    var b := AcquireBatch(p, n, cpu, start);
    InOrderMeans(p.inUse, b.ids, b.pools.inUse);
    if |b.ids| < n {
      StrandedBound(b.pools);
    }
  }

  // ---- Caching switched off ----

  /** With an exact listing no claim fails: the first ID the stack yields is the one
      claimed, and a search of the shards draws exactly once. */
  lemma NoClaimFails(p: Pools, draw: nat -> nat, k: nat)
    requires WellFormed(p) && Exact(p)
    ensures p.stack != [] ==> ClaimFromStack(p).slot == Some(p.stack[|p.stack| - 1])
    ensures ClaimFromShards(p, draw, k).drawn == k + 1
    ensures ClaimFromShards(p, draw, k).slot == ShardGet(p, draw(k)).slot
  {
    var s, h := StackGet(p), ShardGet(p, draw(k));
    if s.slot.Some? {
      TakenKeepsExact(p, s);
    }
    if h.slot.Some? {
      TakenKeepsExact(p, h);
    }
  }

  /** Without caches the free stack never refuses a released slab. */
  lemma StackNeverRefuses(p: Pools, id: int, draw: nat, alignedSize: nat)
    requires WellFormed(p) && Exact(p) && p.caches == [] && 0 <= id < |p.inUse| && p.inUse[id]
    ensures Release(p, id, draw, alignedSize) == p.(inUse := p.inUse[id := false], stack := p.stack + [id])
  {
    SomeInUse(p.inUse, id);
    SubBag(multiset(p.stack), Bag(p));
  }
}
