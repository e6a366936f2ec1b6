/** The bound on stranded slabs is tight for every configuration: a run ends with sixteen
    free slabs in each other cache, or with all slabs there if there are fewer, and an
    allocation that finds none. */
module Stranding {
  import opened Allocator
  import opened AllocatorRuns
  import opened Bags
  import opened Bits
  import opened Breaker
  import opened Claims
  import opened Pools
  import opened Wrappers

  /** A caller that always draws the first cache and the first shard row. */
  const FIRST: Outside := Outside(_ => 0, _ => 0, 0, 0)

  /** n fast allocations. */
  ghost function Fill(n: nat): (ops: seq<Op>)
    ensures |ops| == n
  {
    if n == 0 then [] else Fill(n - 1) + [DoAllocateFast(FIRST)]
  }

  /** After filling capacity slabs, n fast deallocations, sixteen to each cache but the first. */
  ghost function Drain(capacity: nat, n: nat): (ops: seq<Op>)
    ensures |ops| == capacity + n
  {
    if n == 0 then Fill(capacity)
    else Drain(capacity, n - 1) + [DoDeallocateFast(n - 1, (n - 1) / CACHE_SIZE + 1)]
  }

  lemma EmptyCachesGiveNothing(p: Pools)
    requires WellFormed(p) && p.stack == [] && (p.caches != [] ==> p.caches[0] == [])
    ensures Acquire(p, FIRST.cpu, FIRST.start) == ClaimFromShards(p, FIRST.start, 0)
  {
    hide WellFormed, GoodClaim, ClaimFromShards, Sized, EmptyHanded;
    NothingCached(p);
    hide ClaimFromCaches;
  }

  lemma NothingCached(p: Pools)
    requires WellFormed(p) && p.stack == [] && (p.caches != [] ==> p.caches[0] == [])
    ensures var c := ClaimFromCaches(p, FIRST.cpu, 0);
      c.slot.None? && c.pools == p
  {
    hide WellFormed, GoodClaim;
  }

  /** The breaker, if any, has seen no failure, so it lets every request through. */
  ghost predicate Quiet(s: State) {
    forall i :: 0 <= i < |s.history| ==> !s.history[i].Failed?
  }

  lemma QuietLetsThrough(cfg: Config, s: State, now: int)
    requires Quiet(s)
    ensures !Refuses(cfg, s, now)
  {
    if cfg.breaker.Some? {
      NoFailureNoChange(cfg.breaker.value, s.history);
    }
  }

  lemma EmptyShards(p: Pools)
    requires WellFormed(p) && FreeCount(p.inUse) == 0 && Exact(p)
    ensures forall j :: 0 <= j < |p.shards| ==> p.shards[j] == []
  {
    forall j | 0 <= j < |p.shards| ensures p.shards[j] == [] {
      if p.shards[j] != [] {
        BagOfMember(p.shards, j, p.shards[j][0]);
      }
    }
  }

  /** n slabs taken, everything else still in the shards. */
  ghost predicate Primed(cfg: Config, n: nat, w: World) {
    && |w.state.pools.caches| == cfg.cacheCount && Quiet(w.state)
    && w.refs == [] && w.state.pools.stack == [] && Exact(w.state.pools)
    && (forall c :: 0 <= c < cfg.cacheCount ==> w.state.pools.caches[c] == [])
    && FreeCount(w.state.pools.inUse) == cfg.geometry.capacity - n
  }

  lemma {:induction false} AfterFill(cfg: Config, n: nat)
    requires ValidConfig(cfg) && n <= cfg.geometry.capacity
    ensures Primed(cfg, n, Run(cfg, false, Fill(n)))
  {
    hide Primed, Step, Shaped, RefsInRange, ValidConfig;
    if n == 0 {
      NewIsPrimed(cfg);
    } else {
      AfterFill(cfg, n - 1);
      RunNext(cfg, false, Fill(n - 1), DoAllocateFast(FIRST));
      PrimedStep(cfg, n, Run(cfg, false, Fill(n - 1)));
    }
  }

  lemma NewIsPrimed(cfg: Config)
    requires ValidConfig(cfg)
    ensures Primed(cfg, 0, World(New(cfg, false), []))
  {
    FreshIsExact(cfg.geometry.capacity, cfg.cacheCount, cfg.rows, cfg.geometry.alignedSize);
    AllFreeCount(cfg.geometry.capacity);
  }

  lemma PrimedStep(cfg: Config, n: nat, w: World)
    requires ValidConfig(cfg) && 0 < n <= cfg.geometry.capacity
    requires Shaped(cfg, w.state) && RefsInRange(cfg, w) && Primed(cfg, n - 1, w)
    ensures Primed(cfg, n, Step(cfg, w, DoAllocateFast(FIRST)))
  {
    FillStep(w.state.pools);
    FastStep(cfg, w);
    hide Exact, Acquire, Step, WellFormed, ValidConfig, Quiet;
  }

  lemma FastStep(cfg: Config, w: World)
    requires ValidConfig(cfg) && Shaped(cfg, w.state) && RefsInRange(cfg, w) && Quiet(w.state)
    ensures var w1, c := Step(cfg, w, DoAllocateFast(FIRST)), Acquire(w.state.pools, FIRST.cpu, FIRST.start);
      && w1.state.pools == c.pools && w1.refs == w.refs
      && (c.slot.Some? ==> Quiet(w1.state))
  {
    hide Acquire, Shaped, Refuses, WellFormed, AllocateFast, RefsInRange, GoodClaim, SameSizes, Exact, EmptyHanded,
         Allocate, BatchAllocate, Recycle, DeallocateFast, Reset;
    QuietLetsThrough(cfg, w.state, FIRST.checkedAt);
    AllocateFastUnfolds(cfg, w.state, FIRST);
  }

  lemma FillStep(p: Pools)
    requires WellFormed(p) && Sized(p) && Exact(p) && FreeCount(p.inUse) > 0
    requires p.stack == [] && forall c :: 0 <= c < |p.caches| ==> p.caches[c] == []
    ensures var r := Acquire(p, FIRST.cpu, FIRST.start);
      && r.slot.Some? && r.pools.stack == [] && r.pools.caches == p.caches && Exact(r.pools)
      && FreeCount(r.pools.inUse) == FreeCount(p.inUse) - 1
  {
    EmptyCachesGiveNothing(p);
    var r := ClaimFromShards(p, FIRST.start, 0);
    if r.slot.Some? {
      FreeBagSet(p.inUse, r.slot.value, true);
    } else {
      NothingListed(r.pools);
    }
  }

  lemma NothingListed(p: Pools)
    requires Exact(p) && p.stack == []
    requires forall c :: 0 <= c < |p.caches| ==> p.caches[c] == []
    requires forall j :: 0 <= j < |p.shards| ==> p.shards[j] == []
    ensures FreeCount(p.inUse) == 0
  {
    BagOfEmptyLists(p.shards);
    BagOfEmptyLists(p.caches);
  }

  ghost function Filled(n: nat, c: nat): nat {
    if c == 0 || n <= CACHE_SIZE * (c - 1) then 0
    else if n >= CACHE_SIZE * c then CACHE_SIZE
    else n - CACHE_SIZE * (c - 1)
  }

  /** Only the first n slabs are free, and the caches other than the first hold them. */
  ghost predicate Drained(cfg: Config, n: nat, w: World) {
    var p := w.state.pools;
    && |p.caches| == cfg.cacheCount && Quiet(w.state)
    && w.refs == [] && p.stack == []
    && (forall j :: 0 <= j < |p.shards| ==> p.shards[j] == [])
    && (forall c :: 0 <= c < cfg.cacheCount ==> |p.caches[c]| == Filled(n, c))
    && (forall id :: 0 <= id < |p.inUse| ==> (p.inUse[id] <==> id >= n))
    && FreeCount(p.inUse) == n
  }

  lemma {:induction false} AfterDrain(cfg: Config, n: nat)
    requires ValidConfig(cfg) && n <= StrandingLimit(cfg)
    ensures Drained(cfg, n, Run(cfg, false, Drain(cfg.geometry.capacity, n)))
  {
    hide Primed, Drained, Step, Allowed, Shaped, RefsInRange, ValidConfig;
    var capacity := cfg.geometry.capacity;
    if n == 0 {
      AfterFill(cfg, capacity);
      FullIsDrained(cfg, Run(cfg, false, Fill(capacity)));
    } else {
      AfterDrain(cfg, n - 1);
      RunNext(cfg, false, Drain(capacity, n - 1), DoDeallocateFast(n - 1, (n - 1) / CACHE_SIZE + 1));
      DrainedStep(cfg, n, n - 1, (n - 1) / CACHE_SIZE + 1, Run(cfg, false, Drain(capacity, n - 1)));
    }
  }

  lemma FullIsDrained(cfg: Config, w: World)
    requires ValidConfig(cfg) && Shaped(cfg, w.state) && Primed(cfg, cfg.geometry.capacity, w)
    ensures Drained(cfg, 0, w)
  {
    NoneFree(w.state.pools.inUse);
    EmptyShards(w.state.pools);
    hide Exact, FreeCount;
  }

  lemma DrainedStep(cfg: Config, n: nat, id: nat, c: nat, w: World)
    requires ValidConfig(cfg) && id < n == id + 1 <= StrandingLimit(cfg) && c == id / CACHE_SIZE + 1
    requires Shaped(cfg, w.state) && RefsInRange(cfg, w) && Drained(cfg, id, w)
    ensures var op := DoDeallocateFast(id, c);
      Allowed(cfg, w, op) && Drained(cfg, n, Step(cfg, w, op))
  {
    DrainStep(cfg, n, id, c, w.state.pools);
    FreeStep(cfg, w, id, c);
    hide Release, Step, WellFormed, ValidConfig, Filled, Allowed, Quiet;
  }

  lemma FreeStep(cfg: Config, w: World, id: nat, c: nat)
    requires ValidConfig(cfg) && Shaped(cfg, w.state) && w.refs == [] && Quiet(w.state)
    requires id < cfg.geometry.capacity && w.state.pools.inUse[id]
    ensures var op := DoDeallocateFast(id, c);
      && Allowed(cfg, w, op)
      && Step(cfg, w, op).refs == [] && Quiet(Step(cfg, w, op).state)
      && Step(cfg, w, op).state.pools == Release(w.state.pools, id, c, cfg.geometry.alignedSize)
  {
    hide Release;
  }

  lemma DrainStep(cfg: Config, n: nat, id: nat, c: nat, p: Pools)
    requires ValidConfig(cfg) && id < n == id + 1 <= StrandingLimit(cfg) && c == id / CACHE_SIZE + 1
    requires WellFormed(p) && |p.inUse| == cfg.geometry.capacity && |p.caches| == cfg.cacheCount
    requires p.inUse[id] && forall d :: 0 <= d < cfg.cacheCount ==> |p.caches[d]| == Filled(id, d)
    ensures c < cfg.cacheCount
    ensures var r := Release(p, id, c, cfg.geometry.alignedSize);
      && r == p.(inUse := p.inUse[id := false], caches := p.caches[c := p.caches[c] + [id]])
      && (forall d :: 0 <= d < cfg.cacheCount ==> |r.caches[d]| == Filled(n, d))
      && FreeCount(r.inUse) == FreeCount(p.inUse) + 1
  {
    hide Filled, Bag, BagOf, FreeBag, WellFormed, Release, FreeCount;
    FilledNext(n, id, c);
    ModItself(c, cfg.cacheCount);
    ReleaseKeepsListing(p, id, c, cfg.geometry.alignedSize);
    ReleaseToCache(p, id, c, cfg.geometry.alignedSize);
  }

  lemma ReleaseToCache(p: Pools, id: nat, draw: nat, alignedSize: nat)
    requires WellFormed(p) && id < |p.inUse| && p.caches != []
    requires var c := CacheIndex(draw, |p.caches|); |p.caches[c]| < CACHE_SIZE
    ensures var c := CacheIndex(draw, |p.caches|);
      Release(p, id, draw, alignedSize) == p.(inUse := p.inUse[id := false], caches := p.caches[c := p.caches[c] + [id]])
  {
    hide WellFormed, CacheIndex;
  }

  lemma ModItself(c: nat, count: nat)
    requires c < count && IsPow2(count)
    ensures CacheIndex(c, count) == c
  {
    var k: nat :| count == Pow2(k);
    AndMask(c, k);
    ModIsUnique(c, count, 0, c);
  }

  lemma FilledNext(n: nat, before: nat, c: nat)
    requires n == before + 1 && c == before / CACHE_SIZE + 1
    ensures Filled(before, c) < CACHE_SIZE
    ensures forall d: nat :: Filled(n, d) == Filled(before, d) + if d == c then 1 else 0
  {
  }

  /** With any number of caches and slabs, with or without a breaker, some run ends with as
      many free slabs in the other caches as fit there and an allocation that nevertheless
      reports out of memory, although the breaker lets it through. */
  lemma StrandingLimitIsReached(cfg: Config)
    requires ValidConfig(cfg)
    ensures var s := Run(cfg, false, Drain(cfg.geometry.capacity, StrandingLimit(cfg))).state;
      && !Refuses(cfg, s, FIRST.checkedAt)
      && AllocateFast(cfg, s, FIRST).1 == Failure(OutOfMemory)
      && FreeCount(s.pools.inUse) == StrandingLimit(cfg)
  {
    hide Step, Shaped, Run, Drain, Filled, FreeCount, Acquire;
    var n := StrandingLimit(cfg);
    AfterDrain(cfg, n);
    var w := Run(cfg, false, Drain(cfg.geometry.capacity, n));
    QuietLetsThrough(cfg, w.state, FIRST.checkedAt);
    DrainedGivesNothing(cfg, n, w);
  }

  lemma DrainedGivesNothing(cfg: Config, n: nat, w: World)
    requires Shaped(cfg, w.state) && Drained(cfg, n, w)
    ensures Acquire(w.state.pools, FIRST.cpu, FIRST.start).slot.None?
  {
    var p := w.state.pools;
    EmptyCachesGiveNothing(p);
    SearchIsComplete(p.shards, FIRST.start(0), 0);
  }

  /** A single allocation is out of memory exactly when no slab is free. */
  ghost predicate Honest(cfg: Config, s: State, o: Outside)
    requires Shaped(cfg, s)
  {
    AllocateFast(cfg, s, o).1 == Failure(OutOfMemory) <==> FreeCount(s.pools.inUse) == 0
  }

  ghost predicate AlwaysHonest(cfg: Config)
    requires ValidConfig(cfg)
  {
    forall secure: bool, ops: seq<Op>, o: Outside ::
      !Refuses(cfg, Run(cfg, secure, ops).state, o.checkedAt) ==> Honest(cfg, Run(cfg, secure, ops).state, o)
  }

  /** In every run every request that the breaker lets through reports out of memory exactly
      when no slab is free, if and only if there is at most one cache. */
  lemma OutOfMemoryIsHonestExactlyWhen(cfg: Config)
    requires ValidConfig(cfg)
    ensures AlwaysHonest(cfg) <==> cfg.cacheCount <= 1
  {
    hide Run, Refuses, Shaped, AllocateFast, Allocate, FreeCount, Drain;
    if cfg.cacheCount <= 1 {
      forall secure: bool, ops: seq<Op>, o: Outside | !Refuses(cfg, Run(cfg, secure, ops).state, o.checkedAt)
        ensures Honest(cfg, Run(cfg, secure, ops).state, o)
      {
        OutOfMemoryInRuns(cfg, secure, ops, o);
      }
    } else {
      StrandingLimitIsReached(cfg);
      assert StrandingLimit(cfg) > 0;
      var ops := Drain(cfg.geometry.capacity, StrandingLimit(cfg));
      assert !Honest(cfg, Run(cfg, false, ops).state, FIRST);
    }
  }
}
