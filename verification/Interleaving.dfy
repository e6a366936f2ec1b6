/** Any number of threads running AllocateFast, Allocate and DeallocateFast, one atomic
    step at a time: each load, store or compare-and-swap on a flag, a cache counter or a
    cache slot, each locked stack operation and each shard operation is one step. A shard
    pop may yield any number at all, or nothing: shard nodes are recycled through a pool that
    all allocators of the process share, so a delayed pop can find another allocator's ID.
    An ID out of range panics. */
module Interleaving {
  import opened Bags
  import opened Bits
  import opened Layout
  import opened Pools
  import opened Wrappers

  datatype Config = Config(capacity: nat, cacheCount: nat, rows: nat, alignedSize: nat, cpus: nat)

  ghost predicate ValidConfig(cfg: Config) {
    0 < cfg.capacity <= MAX_INT32 && cfg.rows > 0 && cfg.cpus > 0
  }

  // ---- Threads ----

  /** A position inside putInternal: about to load the count, to store into the slot at that
      count, or to publish it. */
  datatype Put = Load | Store(count: int) | Publish(count: int)

  datatype Source = Caches | Stack | Shards

  /** Where a thread stands between two atomic steps; fast tells AllocateFast from Allocate. */
  datatype Pc =
    | Idle
    // perCPUCacheArray.get
    | CacheGet(fast: bool)
    | CacheLoad(fast: bool, c: nat)
    | CacheCas(fast: bool, c: nat, count: int)
    | CacheRead(fast: bool, c: nat, index: int)
    | RefillPop(fast: bool, c: nat)
    | RefillPut(fast: bool, c: nat, id: int, at: Put)
    | PushBack(fast: bool, id: int)
    // the other pools
    | StackPop(fast: bool)
    | ShardGet(fast: bool)
    // the claim
    | Claiming(fast: bool, id: int, from: Source)
    | RecordAlloc(fast: bool, id: int)
    | Allocated(slot: Option<int>)
    // a shard yielded an ID that is not one of this allocator
    | Panicked
    // DeallocateFast
    | FreeCas(id: int)
    | ReturnPut(c: nat, id: int, at: Put)
    | StackPush(id: int)
    | ShardPut(id: int)
    | RecordFree(id: int)
    | Freed(ok: bool)

  datatype Wish = WishAllocateFast | WishAllocate | WishDeallocateFast

  /** What the outside decides at a step: the CPU number, the call to make and its argument,
      whether the breaker refuses, and what a shard yields. */
  datatype Choice = Choice(cpu: nat, wish: Wish, refused: bool, shard: nat, id: int)

  // ---- Shared memory ----

  /** The slots keep whatever was last stored; only the count says how many are published. */
  datatype Cache = Cache(count: int, slots: seq<int>)

  datatype Event = Claimed(id: int, thread: nat) | Released(id: int, thread: nat)

  /** Shared memory, the per-CPU counters, and the history of successful claims and frees.
      The shards are what each shard holds if every pop so far took the newest entry. */
  datatype Shared = Shared(
    inUse: seq<bool>, caches: seq<Cache>, stack: seq<int>, shards: seq<seq<int>>,
    fastAllocations: seq<nat>, allocations: seq<nat>, fastDeallocations: seq<nat>, log: seq<Event>)

  predicate InUseRange(cfg: Config, id: int) {
    0 <= id < cfg.capacity
  }

  ghost predicate GoodCache(cfg: Config, cache: Cache) {
    && 0 <= cache.count <= CACHE_SIZE && |cache.slots| == CACHE_SIZE
    && InRange(cache.slots, cfg.capacity)
  }

  /** Every ID in any pool is in range, and no cache counter leaves its bounds. */
  ghost predicate GoodShared(cfg: Config, g: Shared) {
    && |g.inUse| == cfg.capacity && |g.caches| == cfg.cacheCount
    && (forall c :: 0 <= c < |g.caches| ==> GoodCache(cfg, g.caches[c]))
    && InRange(g.stack, cfg.capacity) && |g.stack| <= cfg.capacity
    && |g.shards| == cfg.rows * COLOR_COUNT
    && (forall j :: 0 <= j < |g.shards| ==> InRange(g.shards[j], cfg.capacity))
    && |g.fastAllocations| == |g.allocations| == |g.fastDeallocations| == cfg.cpus
  }

  ghost predicate GoodPut(at: Put) {
    at.Load? || 0 <= at.count < CACHE_SIZE
  }

  /** Every ID a thread carries is in range, and so is every cache slot it will touch. */
  ghost predicate GoodPc(cfg: Config, pc: Pc) {
    match pc
    case CacheGet(_) => cfg.cacheCount > 0
    case CacheLoad(_, c) => c < cfg.cacheCount
    case CacheCas(_, c, count) => c < cfg.cacheCount && 0 < count <= CACHE_SIZE
    case CacheRead(_, c, index) => c < cfg.cacheCount && 0 <= index < CACHE_SIZE
    case RefillPop(_, c) => c < cfg.cacheCount
    case RefillPut(_, c, id, at) => c < cfg.cacheCount && InUseRange(cfg, id) && GoodPut(at)
    case PushBack(_, id) => InUseRange(cfg, id) && cfg.cacheCount > 0
    case Claiming(_, id, from) => InUseRange(cfg, id) && (from == Caches ==> cfg.cacheCount > 0)
    case RecordAlloc(_, id) => InUseRange(cfg, id)
    case Allocated(slot) => slot.Some? ==> InUseRange(cfg, slot.value)
    case FreeCas(id) => InUseRange(cfg, id)
    case ReturnPut(c, id, at) => c < cfg.cacheCount && InUseRange(cfg, id) && GoodPut(at)
    case StackPush(id) => InUseRange(cfg, id)
    case ShardPut(id) => InUseRange(cfg, id)
    case RecordFree(id) => InUseRange(cfg, id)
    case _ => true
  }

  // ---- One atomic step ----

  datatype PutResult = Going(at: Put) | Full | Published

  /** putInternal: a failed publication starts over. */
  function PutStep(cache: Cache, id: int, at: Put): (r: (Cache, PutResult))
    requires |cache.slots| == CACHE_SIZE && GoodPut(at)
  {
    match at
    case Load => (cache, if cache.count >= CACHE_SIZE then Full else Going(Store(cache.count)))
    case Store(count) => (cache.(slots := cache.slots[count := id]), Going(Publish(count)))
    case Publish(count) =>
      if cache.count == count then (cache.(count := count + 1), Published) else (cache, Going(Load))
  }

  function Increment(counters: seq<nat>, cpu: nat): (r: seq<nat>)
    requires counters != []
    ensures |r| == |counters|
  {
    var i := CacheIndex(cpu, |counters|);
    counters[i := counters[i] + 1]
  }

  /** The shards after one yielded an ID: without its newest entry if that was the ID. */
  function Taken(shards: seq<seq<int>>, j: nat, id: int): (r: seq<seq<int>>)
    requires j < |shards|
    ensures |r| == |shards|
  {
    var n := |shards[j]|;
    if n > 0 && shards[j][n - 1] == id then shards[j := shards[j][..n - 1]] else shards
  }

  ghost function StartStep(cfg: Config, x: Choice): Pc {
    match x.wish
    case WishDeallocateFast => if InUseRange(cfg, x.id) then FreeCas(x.id) else Freed(false)
    case _ =>
      var fast := x.wish == WishAllocateFast;
      if x.refused then Allocated(None) else if cfg.cacheCount == 0 then StackPop(fast) else CacheGet(fast)
  }

  /** perCPUCacheArray.get */
  ghost function CacheStep(cfg: Config, g: Shared, pc: Pc, x: Choice): (r: (Shared, Pc))
    requires GoodShared(cfg, g) && GoodPc(cfg, pc)
    requires pc.CacheGet? || pc.CacheLoad? || pc.CacheCas? || pc.CacheRead?
          || pc.RefillPop? || pc.RefillPut? || pc.PushBack?
  {
    match pc
    case CacheGet(fast) => (g, CacheLoad(fast, CacheIndex(x.cpu, cfg.cacheCount)))
    case CacheLoad(fast, c) =>
      var count := g.caches[c].count;
      (g, if count <= 0 then RefillPop(fast, c) else CacheCas(fast, c, count))
    case CacheCas(fast, c, count) =>
      if g.caches[c].count == count then
        (g.(caches := g.caches[c := g.caches[c].(count := count - 1)]), CacheRead(fast, c, count - 1))
      else (g, CacheLoad(fast, c))
    case CacheRead(fast, c, index) => (g, Claiming(fast, g.caches[c].slots[index], Caches))
    case RefillPop(fast, c) =>
      if g.stack == [] then (g, StackPop(fast))
      else
        var n := |g.stack| - 1;
        (g.(stack := g.stack[..n]), RefillPut(fast, c, g.stack[n], Load))
    case RefillPut(fast, c, id, at) =>
      var (cache, result) := PutStep(g.caches[c], id, at);
      (g.(caches := g.caches[c := cache]),
       match result
       case Going(next) => RefillPut(fast, c, id, next)
       case Published => Claiming(fast, id, Caches)
       case Full => PushBack(fast, id))
    case PushBack(fast, id) =>
      (if |g.stack| < cfg.capacity then g.(stack := g.stack + [id]) else g, StackPop(fast))
  }

  /** The stack, the shards and the claim. */
  ghost function ClaimStep(cfg: Config, g: Shared, pc: Pc, t: nat, x: Choice): (r: (Shared, Pc))
    requires ValidConfig(cfg) && GoodShared(cfg, g) && GoodPc(cfg, pc)
    requires pc.StackPop? || pc.ShardGet? || pc.Claiming? || pc.RecordAlloc?
  {
    match pc
    case StackPop(fast) =>
      if g.stack == [] then (g, ShardGet(fast))
      else
        var n := |g.stack| - 1;
        (g.(stack := g.stack[..n]), Claiming(fast, g.stack[n], Stack))
    case ShardGet(fast) =>
      if x.shard >= |g.shards| then (g, Allocated(None))
      else
        (g.(shards := Taken(g.shards, x.shard, x.id)),
         if InUseRange(cfg, x.id) then Claiming(fast, x.id, Shards) else Panicked)
    case Claiming(fast, id, from) =>
      if !g.inUse[id] then
        (g.(inUse := g.inUse[id := true], log := g.log + [Claimed(id, t)]), RecordAlloc(fast, id))
      else
        (g, match from
            case Caches => CacheGet(fast)
            case Stack => StackPop(fast)
            case Shards => ShardGet(fast))
    case RecordAlloc(fast, id) =>
      (if fast then g.(fastAllocations := Increment(g.fastAllocations, x.cpu))
       else g.(allocations := Increment(g.allocations, x.cpu)),
       Allocated(Some(id)))
  }

  ghost function FreeStep(cfg: Config, g: Shared, pc: Pc, t: nat, x: Choice): (r: (Shared, Pc))
    requires ValidConfig(cfg) && GoodShared(cfg, g) && GoodPc(cfg, pc)
    requires pc.FreeCas? || pc.ReturnPut? || pc.StackPush? || pc.ShardPut? || pc.RecordFree?
  {
    match pc
    case FreeCas(id) =>
      if g.inUse[id] then
        (g.(inUse := g.inUse[id := false], log := g.log + [Released(id, t)]),
         if cfg.cacheCount == 0 then StackPush(id) else ReturnPut(CacheIndex(x.cpu, cfg.cacheCount), id, Load))
      else (g, Freed(false))
    case ReturnPut(c, id, at) =>
      var (cache, result) := PutStep(g.caches[c], id, at);
      (g.(caches := g.caches[c := cache]),
       match result
       case Going(next) => ReturnPut(c, id, next)
       case Published => RecordFree(id)
       case Full => StackPush(id))
    case StackPush(id) =>
      if |g.stack| < cfg.capacity then (g.(stack := g.stack + [id]), RecordFree(id)) else (g, ShardPut(id))
    case ShardPut(id) =>
      var home := IndexAtPut(id, |g.shards|, cfg.alignedSize);
      (g.(shards := g.shards[home := g.shards[home] + [id]]), RecordFree(id))
    case RecordFree(id) => (g.(fastDeallocations := Increment(g.fastDeallocations, x.cpu)), Freed(true))
  }

  /** One step of thread t, standing at pc. */
  ghost function Act(cfg: Config, g: Shared, pc: Pc, t: nat, x: Choice): (r: (Shared, Pc))
    requires ValidConfig(cfg) && GoodShared(cfg, g) && GoodPc(cfg, pc)
  {
    match pc
    case Idle => (g, StartStep(cfg, x))
    case Panicked => (g, Panicked)
    case Allocated(_) => (g, Idle)
    case Freed(_) => (g, Idle)
    case FreeCas(_) => FreeStep(cfg, g, pc, t, x)
    case ReturnPut(_, _, _) => FreeStep(cfg, g, pc, t, x)
    case StackPush(_) => FreeStep(cfg, g, pc, t, x)
    case ShardPut(_) => FreeStep(cfg, g, pc, t, x)
    case RecordFree(_) => FreeStep(cfg, g, pc, t, x)
    case StackPop(_) => ClaimStep(cfg, g, pc, t, x)
    case ShardGet(_) => ClaimStep(cfg, g, pc, t, x)
    case Claiming(_, _, _) => ClaimStep(cfg, g, pc, t, x)
    case RecordAlloc(_, _) => ClaimStep(cfg, g, pc, t, x)
    case _ => CacheStep(cfg, g, pc, x)
  }

  // ---- No ID and no index ever leaves its range ----

  lemma PutKeepsCache(cfg: Config, cache: Cache, id: int, at: Put)
    requires GoodCache(cfg, cache) && InUseRange(cfg, id) && GoodPut(at)
    ensures var (r, next) := PutStep(cache, id, at);
      GoodCache(cfg, r) && (next.Going? ==> GoodPut(next.at))
  {
  }

  lemma CacheSet(cfg: Config, g: Shared, c: nat, cache: Cache)
    requires GoodShared(cfg, g) && c < |g.caches| && GoodCache(cfg, cache)
    ensures GoodShared(cfg, g.(caches := g.caches[c := cache]))
  {
  }

  lemma ShardAdd(cfg: Config, g: Shared, home: nat, id: int)
    requires GoodShared(cfg, g) && home < |g.shards| && InUseRange(cfg, id)
    ensures GoodShared(cfg, g.(shards := g.shards[home := g.shards[home] + [id]]))
  {
    hide GoodCache;
    assert InRange(g.shards[home], cfg.capacity);
  }

  lemma ShardTake(cfg: Config, g: Shared, j: nat, id: int)
    requires GoodShared(cfg, g) && j < |g.shards|
    ensures GoodShared(cfg, g.(shards := Taken(g.shards, j, id)))
  {
    hide GoodCache;
    assert InRange(g.shards[j], cfg.capacity);
  }

  lemma CacheStepKeepsGood(cfg: Config, g: Shared, pc: Pc, x: Choice)
    requires GoodShared(cfg, g) && GoodPc(cfg, pc)
    requires pc.CacheGet? || pc.CacheLoad? || pc.CacheCas? || pc.CacheRead?
          || pc.RefillPop? || pc.RefillPut? || pc.PushBack?
    ensures var (g1, pc1) := CacheStep(cfg, g, pc, x);
      GoodShared(cfg, g1) && GoodPc(cfg, pc1)
  {
    if pc.CacheLoad? || pc.CacheCas? || pc.CacheRead? || pc.RefillPut? {
      assert GoodCache(cfg, g.caches[pc.c]);
    }
    if pc.CacheCas? && g.caches[pc.c].count == pc.count {
      CacheSet(cfg, g, pc.c, g.caches[pc.c].(count := pc.count - 1));
    }
    if pc.RefillPut? {
      PutKeepsCache(cfg, g.caches[pc.c], pc.id, pc.at);
      CacheSet(cfg, g, pc.c, PutStep(g.caches[pc.c], pc.id, pc.at).0);
    }
    hide PutStep, GoodCache, GoodPut;
  }

  lemma ClaimStepKeepsGood(cfg: Config, g: Shared, pc: Pc, t: nat, x: Choice)
    requires ValidConfig(cfg) && GoodShared(cfg, g) && GoodPc(cfg, pc)
    requires pc.StackPop? || pc.ShardGet? || pc.Claiming? || pc.RecordAlloc?
    ensures var (g1, pc1) := ClaimStep(cfg, g, pc, t, x);
      GoodShared(cfg, g1) && GoodPc(cfg, pc1)
  {
    hide GoodCache, GoodPut;
    if pc.ShardGet? && x.shard < |g.shards| {
      ShardTake(cfg, g, x.shard, x.id);
    }
    hide Taken;
  }

  lemma FreeStepKeepsGood(cfg: Config, g: Shared, pc: Pc, t: nat, x: Choice)
    requires ValidConfig(cfg) && GoodShared(cfg, g) && GoodPc(cfg, pc)
    requires pc.FreeCas? || pc.ReturnPut? || pc.StackPush? || pc.ShardPut? || pc.RecordFree?
    ensures var (g1, pc1) := FreeStep(cfg, g, pc, t, x);
      GoodShared(cfg, g1) && GoodPc(cfg, pc1)
  {
    hide PutStep, IndexAtPut, CacheIndex;
    match pc
    case ReturnPut(c, id, at) =>
      assert GoodCache(cfg, g.caches[c]);
      PutKeepsCache(cfg, g.caches[c], id, at);
      CacheSet(cfg, g, c, PutStep(g.caches[c], id, at).0);
      hide GoodShared, GoodCache;
    case ShardPut(id) =>
      ShardAdd(cfg, g, IndexAtPut(id, |g.shards|, cfg.alignedSize), id);
      hide GoodShared, GoodCache;
    case StackPush(id) => hide GoodCache;
    case FreeCas(id) => hide GoodCache;
    case RecordFree(id) => hide GoodCache;
  }

  lemma ActKeepsGood(cfg: Config, g: Shared, pc: Pc, t: nat, x: Choice)
    requires ValidConfig(cfg) && GoodShared(cfg, g) && GoodPc(cfg, pc)
    ensures var (g1, pc1) := Act(cfg, g, pc, t, x);
      GoodShared(cfg, g1) && GoodPc(cfg, pc1)
  {
    hide GoodShared, CacheStep, ClaimStep, FreeStep;
    match pc
    case Idle =>
    case Panicked =>
    case Allocated(_) =>
    case Freed(_) =>
    case FreeCas(_) => FreeStepKeepsGood(cfg, g, pc, t, x);
    case ReturnPut(_, _, _) => FreeStepKeepsGood(cfg, g, pc, t, x);
    case StackPush(_) => FreeStepKeepsGood(cfg, g, pc, t, x);
    case ShardPut(_) => FreeStepKeepsGood(cfg, g, pc, t, x);
    case RecordFree(_) => FreeStepKeepsGood(cfg, g, pc, t, x);
    case StackPop(_) => ClaimStepKeepsGood(cfg, g, pc, t, x);
    case ShardGet(_) => ClaimStepKeepsGood(cfg, g, pc, t, x);
    case Claiming(_, _, _) => ClaimStepKeepsGood(cfg, g, pc, t, x);
    case RecordAlloc(_, _) => ClaimStepKeepsGood(cfg, g, pc, t, x);
    case _ => CacheStepKeepsGood(cfg, g, pc, x);
  }

  // ---- What one step does to ownership and to the counters ----

  datatype Change = Same | Took(id: int) | Gave(id: int)

  /** Only two kinds of step touch a flag: the claiming and the freeing compare-and-swap. */
  ghost function ChangeOf(g: Shared, pc: Pc): Change {
    if pc.Claiming? && 0 <= pc.id < |g.inUse| && !g.inUse[pc.id] then Took(pc.id)
    else if pc.FreeCas? && 0 <= pc.id < |g.inUse| && g.inUse[pc.id] then Gave(pc.id)
    else Same
  }

  lemma ActChanges(cfg: Config, g: Shared, pc: Pc, t: nat, x: Choice)
    requires ValidConfig(cfg) && GoodShared(cfg, g) && GoodPc(cfg, pc)
    ensures var (g1, pc1) := Act(cfg, g, pc, t, x);
      match ChangeOf(g, pc)
      case Same => g1.inUse == g.inUse && g1.log == g.log
      case Took(id) =>
        g1.inUse == g.inUse[id := true] && g1.log == g.log + [Claimed(id, t)] && pc1 == RecordAlloc(pc.fast, id)
      case Gave(id) => g1.inUse == g.inUse[id := false] && g1.log == g.log + [Released(id, t)]
  {
    hide PutStep, GoodCache, GoodPut, IndexAtPut, CacheIndex, Taken;
  }

  ghost function Sum(s: seq<nat>): nat {
    if s == [] then 0 else s[0] + Sum(s[1..])
  }

  lemma {:induction false} SumIncrements(s: seq<nat>, i: nat)
    requires i < |s|
    ensures Sum(s[i := s[i] + 1]) == Sum(s) + 1
  {
    var u := s[i := s[i] + 1];
    if i == 0 {
      assert u[1..] == s[1..];
    } else {
      SumIncrements(s[1..], i - 1);
      assert u[1..] == s[1..][i - 1 := s[1..][i - 1] + 1];
    }
  }

  /** Successful allocations less deallocations, summed over all per-CPU counters. */
  ghost function Recorded(g: Shared): int {
    Sum(g.fastAllocations) + Sum(g.allocations) - Sum(g.fastDeallocations)
  }

  /** One between the claim and its record, minus one between the free and its record. */
  ghost function Unrecorded(pc: Pc): int {
    match pc
    case RecordAlloc(_, _) => 1
    case ReturnPut(_, _, _) => -1
    case StackPush(_) => -1
    case ShardPut(_) => -1
    case RecordFree(_) => -1
    case _ => 0
  }

  ghost function Difference(c: Change): int {
    match c case Same => 0 case Took(_) => 1 case Gave(_) => -1
  }

  lemma ActCounts(cfg: Config, g: Shared, pc: Pc, t: nat, x: Choice)
    requires ValidConfig(cfg) && GoodShared(cfg, g) && GoodPc(cfg, pc)
    ensures var (g1, pc1) := Act(cfg, g, pc, t, x);
      Recorded(g1) + Unrecorded(pc1) == Recorded(g) + Unrecorded(pc) + Difference(ChangeOf(g, pc))
  {
    hide PutStep, GoodCache, GoodPut, IndexAtPut, Sum;
    if pc.RecordAlloc? {
      RecordsOne(g.fastAllocations, x.cpu);
      RecordsOne(g.allocations, x.cpu);
    } else if pc.RecordFree? {
      RecordsOne(g.fastDeallocations, x.cpu);
    } else {
      OthersRecordNothing(cfg, g, pc, t, x);
    }
    hide Increment, GoodShared, CacheStep;
  }

  lemma RecordsOne(counters: seq<nat>, cpu: nat)
    requires counters != []
    ensures Sum(Increment(counters, cpu)) == Sum(counters) + 1
  {
    SumIncrements(counters, CacheIndex(cpu, |counters|));
  }

  lemma OthersRecordNothing(cfg: Config, g: Shared, pc: Pc, t: nat, x: Choice)
    requires ValidConfig(cfg) && GoodShared(cfg, g) && GoodPc(cfg, pc) && !pc.RecordAlloc? && !pc.RecordFree?
    ensures var (g1, pc1) := Act(cfg, g, pc, t, x);
      Recorded(g1) == Recorded(g) && Unrecorded(pc1) == Unrecorded(pc) + Difference(ChangeOf(g, pc))
  {
    hide PutStep, GoodCache, GoodPut, IndexAtPut, CacheIndex, Sum, Increment, Taken;
  }

  // ---- The history of one slab ----

  /** Whether the last event about a slab is a claim. */
  ghost predicate Held(log: seq<Event>, id: int) {
    if log == [] then false
    else
      var last := log[|log| - 1];
      if last.id == id then last.Claimed? else Held(log[..|log| - 1], id)
  }

  /** Slabs are claimed only when not held and released only when held. */
  ghost predicate Alternates(log: seq<Event>) {
    forall k :: 0 <= k < |log| ==> (log[k].Claimed? <==> !Held(log[..k], log[k].id))
  }

  ghost predicate Owned(g: Shared) {
    Alternates(g.log) && forall id :: 0 <= id < |g.inUse| ==> g.inUse[id] == Held(g.log, id)
  }

  lemma HeldAppend(log: seq<Event>, e: Event, id: int)
    ensures Held(log + [e], id) == if e.id == id then e.Claimed? else Held(log, id)
  {
    assert (log + [e])[..|log|] == log;
  }

  lemma AlternatesAppend(log: seq<Event>, e: Event)
    requires Alternates(log) && (e.Claimed? <==> !Held(log, e.id))
    ensures Alternates(log + [e])
  {
    var more := log + [e];
    forall k | 0 <= k < |more| ensures more[k].Claimed? <==> !Held(more[..k], more[k].id) {
      if k < |log| {
        assert more[..k] == log[..k];
      } else {
        assert more[..k] == log;
      }
    }
  }

  lemma ActKeepsOwned(cfg: Config, g: Shared, pc: Pc, t: nat, x: Choice)
    requires ValidConfig(cfg) && GoodShared(cfg, g) && GoodPc(cfg, pc) && Owned(g)
    ensures Owned(Act(cfg, g, pc, t, x).0)
  {
    ActChanges(cfg, g, pc, t, x);
    hide Act, GoodPc, GoodShared, Alternates, Held;
    match ChangeOf(g, pc)
    case Same =>
    case Took(id) => OwnedAfter(g, Act(cfg, g, pc, t, x).0, Claimed(id, t));
    case Gave(id) => OwnedAfter(g, Act(cfg, g, pc, t, x).0, Released(id, t));
  }

  lemma OwnedAfter(g: Shared, g1: Shared, e: Event)
    requires Owned(g) && 0 <= e.id < |g.inUse| && g.inUse[e.id] != e.Claimed?
    requires g1.inUse == g.inUse[e.id := e.Claimed?] && g1.log == g.log + [e]
    ensures Owned(g1)
  {
    AlternatesAppend(g.log, e);
    hide Alternates;
    forall id | 0 <= id < |g1.inUse| ensures g1.inUse[id] == Held(g1.log, id) {
      HeldAppend(g.log, e, id);
    }
  }

  /** Which positions a thread can be at inside AllocateFast or Allocate. */
  ghost predicate AllocatePc(pc: Pc) {
    !pc.FreeCas? && !pc.ReturnPut? && !pc.StackPush? && !pc.ShardPut? && !pc.RecordFree? && !pc.Freed?
  }

  lemma AllocateStays(cfg: Config, g: Shared, pc: Pc, t: nat, x: Choice)
    requires ValidConfig(cfg) && GoodShared(cfg, g) && GoodPc(cfg, pc)
    requires AllocatePc(pc) && !pc.Allocated? && !x.wish.WishDeallocateFast?
    ensures var next := Act(cfg, g, pc, t, x).1;
      && AllocatePc(next)
      && (next.RecordAlloc? ==> ChangeOf(g, pc).Took?)
      && (next.Allocated? && next.slot.Some? ==> pc.RecordAlloc? && next.slot.value == pc.id)
  {
    hide PutStep, GoodCache, GoodPut, IndexAtPut;
  }

  /** Where a freed ID is being put into a pool and counted. */
  ghost predicate ReturnPc(pc: Pc) {
    pc.ReturnPut? || pc.StackPush? || pc.ShardPut? || pc.RecordFree?
  }

  lemma ReturnStays(cfg: Config, g: Shared, pc: Pc, t: nat, x: Choice)
    requires ValidConfig(cfg) && GoodShared(cfg, g) && GoodPc(cfg, pc) && ReturnPc(pc) && !pc.RecordFree?
    ensures ReturnPc(Act(cfg, g, pc, t, x).1)
  {
    hide PutStep, GoodCache, GoodPut, IndexAtPut;
  }

  // ---- All threads ----

  datatype State = State(shared: Shared, threads: seq<Pc>)

  datatype Turn = Turn(thread: nat, choice: Choice)

  ghost function Start(cfg: Config, threadCount: nat): State
    requires ValidConfig(cfg)
  {
    State(Shared(Repeat(false, cfg.capacity), Repeat(Cache(0, Repeat(0, CACHE_SIZE)), cfg.cacheCount), [],
                 Distributed(cfg.capacity, cfg.rows, cfg.alignedSize),
                 Repeat(0, cfg.cpus), Repeat(0, cfg.cpus), Repeat(0, cfg.cpus), []),
          Repeat(Idle, threadCount))
  }

  ghost predicate GoodThreads(cfg: Config, threads: seq<Pc>) {
    forall t :: 0 <= t < |threads| ==> GoodPc(cfg, threads[t])
  }

  ghost predicate Good(cfg: Config, s: State) {
    GoodShared(cfg, s.shared) && GoodThreads(cfg, s.threads)
  }

  /** The chosen thread takes one step; a turn of a thread that does not exist is skipped. */
  ghost function Step(cfg: Config, s: State, turn: Turn): (r: State)
    requires ValidConfig(cfg) && Good(cfg, s)
    ensures Good(cfg, r) && |r.threads| == |s.threads|
  {
    if turn.thread >= |s.threads| then s
    else
      var t := turn.thread;
      ActKeepsGood(cfg, s.shared, s.threads[t], t, turn.choice);
      var (g, pc) := Act(cfg, s.shared, s.threads[t], t, turn.choice);
      hide Act, GoodShared, GoodPc;
      State(g, s.threads[t := pc])
  }

  lemma StartIsGood(cfg: Config, threadCount: nat)
    requires ValidConfig(cfg)
    ensures Good(cfg, Start(cfg, threadCount)) && Owned(Start(cfg, threadCount).shared)
  {
    var g := Start(cfg, threadCount).shared;
    var lists := Distributed(cfg.capacity, cfg.rows, cfg.alignedSize);
    assert g.shards == lists;
    hide Distributed;
  }

  ghost function Run(cfg: Config, threadCount: nat, schedule: seq<Turn>): (s: State)
    requires ValidConfig(cfg)
    ensures Good(cfg, s) && |s.threads| == threadCount
  {
    if schedule == [] then
      StartIsGood(cfg, threadCount);
      Start(cfg, threadCount)
    else Step(cfg, Run(cfg, threadCount, schedule[..|schedule| - 1]), schedule[|schedule| - 1])
  }

  lemma {:induction false} EveryScheduleOwned(cfg: Config, threadCount: nat, schedule: seq<Turn>)
    requires ValidConfig(cfg)
    ensures Owned(Run(cfg, threadCount, schedule).shared)
  {
    if schedule == [] {
      StartIsGood(cfg, threadCount);
    } else {
      var n := |schedule| - 1;
      EveryScheduleOwned(cfg, threadCount, schedule[..n]);
      var s, turn := Run(cfg, threadCount, schedule[..n]), schedule[n];
      hide Owned, Act, GoodShared, GoodPc;
      if turn.thread < |s.threads| {
        ActKeepsOwned(cfg, s.shared, s.threads[turn.thread], turn.thread, turn.choice);
      }
    }
  }

  // ---- Main results ----

  /** Between two points of a history at which a slab is held and not held, or the other way
      round, there is an event that made the difference. */
  lemma {:induction false} ChangeBetween(log: seq<Event>, from: nat, till: nat, id: int) returns (k: nat)
    requires from <= till <= |log| && Held(log[..from], id) != Held(log[..till], id)
    ensures from <= k < till && log[k].id == id && log[k].Claimed? == Held(log[..till], id)
    decreases till
  {
    var last := till - 1;
    assert log[..till] == log[..last] + [log[last]];
    HeldAppend(log[..last], log[last], id);
    if log[last].id == id {
      k := last;
    } else {
      k := ChangeBetween(log, from, last, id);
    }
  }

  ghost function Claims(log: seq<Event>, id: int): nat {
    if log == [] then 0
    else Claims(log[..|log| - 1], id) + if log[|log| - 1] == Claimed(id, log[|log| - 1].thread) then 1 else 0
  }

  ghost function Releases(log: seq<Event>, id: int): nat {
    if log == [] then 0
    else Releases(log[..|log| - 1], id) + if log[|log| - 1] == Released(id, log[|log| - 1].thread) then 1 else 0
  }

  lemma {:induction false} ClaimsLessReleases(log: seq<Event>, id: int)
    requires Alternates(log)
    ensures Claims(log, id) - Releases(log, id) == if Held(log, id) then 1 else 0
  {
    if log != [] {
      var n := |log| - 1;
      assert forall k :: 0 <= k < n ==> log[..n][..k] == log[..k];
      ClaimsLessReleases(log[..n], id);
    }
  }

  /** Successful claims and frees of each slab strictly alternate, starting with a claim, and
      the flag tells whether the last one was a claim: no slab ever has two holders. */
  ghost predicate OneHolder(g: Shared) {
    && (forall i, j :: 0 <= i < j < |g.log| && g.log[i].Claimed? && g.log[j].Claimed? && g.log[i].id == g.log[j].id ==>
          exists k :: i < k < j && g.log[k].Released? && g.log[k].id == g.log[i].id)
    && (forall j :: 0 <= j < |g.log| && g.log[j].Released? ==>
          exists k :: 0 <= k < j && g.log[k].Claimed? && g.log[k].id == g.log[j].id
                      && forall i :: k < i < j && g.log[i].id == g.log[j].id ==> g.log[i].Claimed?)
    && (forall id :: 0 <= id < |g.inUse| ==>
          Claims(g.log, id) - Releases(g.log, id) == if g.inUse[id] then 1 else 0)
  }

  lemma OwnedMeans(g: Shared)
    requires Owned(g)
    ensures OneHolder(g)
  {
    var log := g.log;
    forall i, j | 0 <= i < j < |log| && log[i].Claimed? && log[j].Claimed? && log[i].id == log[j].id
      ensures exists k :: i < k < j && log[k].Released? && log[k].id == log[i].id
    {
      ClaimAfterClaim(log, i, j);
    }
    forall j | 0 <= j < |log| && log[j].Released?
      ensures exists k :: 0 <= k < j && log[k].Claimed? && log[k].id == log[j].id
                && forall i :: k < i < j && log[i].id == log[j].id ==> log[i].Claimed?
    {
      ReleaseAfterClaim(log, j, j);
    }
    forall id | 0 <= id < |g.inUse| ensures Claims(log, id) - Releases(log, id) == if g.inUse[id] then 1 else 0 {
      ClaimsLessReleases(log, id);
    }
  }

  /** In every interleaving of any number of threads no slab ever has two holders. */
  lemma NoTwoHolders(cfg: Config, threadCount: nat, schedule: seq<Turn>)
    requires ValidConfig(cfg)
    ensures OneHolder(Run(cfg, threadCount, schedule).shared)
  {
    EveryScheduleOwned(cfg, threadCount, schedule);
    hide Run, Owned;
    OwnedMeans(Run(cfg, threadCount, schedule).shared);
  }

  lemma ClaimAfterClaim(log: seq<Event>, i: nat, j: nat)
    requires Alternates(log) && i < j < |log| && log[i].Claimed? && log[j].Claimed? && log[i].id == log[j].id
    ensures exists k :: i < k < j && log[k].Released? && log[k].id == log[i].id
  {
    assert log[..i + 1] == log[..i] + [log[i]];
    HeldAppend(log[..i], log[i], log[i].id);
    var k := ChangeBetween(log, i + 1, j, log[i].id);
  }

  /** The last event about the slab before a release is a claim. */
  lemma {:induction false} ReleaseAfterClaim(log: seq<Event>, j: nat, n: nat)
    requires n <= j < |log| && Held(log[..n], log[j].id)
    requires forall i :: n <= i < j ==> log[i].id != log[j].id
    ensures exists k :: 0 <= k < j && log[k].Claimed? && log[k].id == log[j].id
              && forall i :: k < i < j && log[i].id == log[j].id ==> log[i].Claimed?
    decreases n
  {
    assert n != 0;
    assert log[..n] == log[..n - 1] + [log[n - 1]];
    HeldAppend(log[..n - 1], log[n - 1], log[j].id);
    if log[n - 1].id != log[j].id {
      ReleaseAfterClaim(log, j, n - 1);
    }
  }

  // ---- Conservation ----

  ghost function InFlight(threads: seq<Pc>): int {
    if threads == [] then 0 else Unrecorded(threads[0]) + InFlight(threads[1..])
  }

  lemma {:induction false} InFlightSet(threads: seq<Pc>, t: nat, pc: Pc)
    requires t < |threads|
    ensures InFlight(threads[t := pc]) == InFlight(threads) - Unrecorded(threads[t]) + Unrecorded(pc)
  {
    var u := threads[t := pc];
    hide Unrecorded;
    if t == 0 {
      assert u[1..] == threads[1..];
    } else {
      InFlightSet(threads[1..], t - 1, pc);
      assert u[1..] == threads[1..][t - 1 := pc];
    }
  }

  ghost function UsedCount(u: seq<bool>): int {
    |u| - FreeCount(u)
  }

  ghost predicate Conserved(s: State) {
    UsedCount(s.shared.inUse) == Recorded(s.shared) + InFlight(s.threads)
  }

  lemma UsedAfter(cfg: Config, g: Shared, pc: Pc, t: nat, x: Choice)
    requires ValidConfig(cfg) && GoodShared(cfg, g) && GoodPc(cfg, pc)
    ensures UsedCount(Act(cfg, g, pc, t, x).0.inUse) == UsedCount(g.inUse) + Difference(ChangeOf(g, pc))
  {
    ActChanges(cfg, g, pc, t, x);
    hide Act, GoodPc, GoodShared;
    match ChangeOf(g, pc)
    case Same =>
    case Took(id) => FreeBagSet(g.inUse, id, true);
    case Gave(id) => FreeBagSet(g.inUse, id, false);
  }

  lemma StepConserves(cfg: Config, s: State, turn: Turn)
    requires ValidConfig(cfg) && Good(cfg, s) && Conserved(s)
    ensures Conserved(Step(cfg, s, turn))
  {
    hide Act, GoodPc, GoodShared, UsedCount, Recorded, Unrecorded, ChangeOf, InFlight;
    if turn.thread < |s.threads| {
      var t, x := turn.thread, turn.choice;
      var pc := s.threads[t];
      ActCounts(cfg, s.shared, pc, t, x);
      UsedAfter(cfg, s.shared, pc, t, x);
      InFlightSet(s.threads, t, Act(cfg, s.shared, pc, t, x).1);
    }
  }

  lemma {:induction false} SumOfZeros(n: nat)
    ensures Sum(Repeat<nat>(0, n)) == 0
  {
    if n > 0 {
      SumOfZeros(n - 1);
      assert Repeat<nat>(0, n)[1..] == Repeat<nat>(0, n - 1);
    }
  }

  lemma {:induction false} NothingInFlight(threads: seq<Pc>)
    requires forall t :: 0 <= t < |threads| ==> Unrecorded(threads[t]) == 0
    ensures InFlight(threads) == 0
  {
    hide Unrecorded;
    if threads != [] {
      NothingInFlight(threads[1..]);
    }
  }

  lemma StartConserves(cfg: Config, threadCount: nat)
    requires ValidConfig(cfg)
    ensures Conserved(Start(cfg, threadCount))
  {
    SumOfZeros(cfg.cpus);
    NothingInFlight(Repeat(Idle, threadCount));
    AllFreeCount(cfg.capacity);
    hide Distributed, Sum, InFlight, FreeCount;
  }

  /** In every interleaving, the number of slabs in use is what the per-CPU counters say,
      plus the threads between a claim and its record, minus those between a free and its
      record; when no thread is between the two, the counters are exact. */
  lemma {:induction false} CountersAreConserved(cfg: Config, threadCount: nat, schedule: seq<Turn>)
    requires ValidConfig(cfg)
    ensures var s := Run(cfg, threadCount, schedule);
      && UsedCount(s.shared.inUse) == Recorded(s.shared) + InFlight(s.threads)
      && ((forall t :: 0 <= t < threadCount ==> s.threads[t].Idle? || s.threads[t].Allocated? || s.threads[t].Freed?) ==>
            UsedCount(s.shared.inUse) == Recorded(s.shared))
  {
    hide UsedCount, Recorded, InFlight, Step, Good, Start;
    if schedule == [] {
      StartConserves(cfg, threadCount);
    } else {
      var n := |schedule| - 1;
      CountersAreConserved(cfg, threadCount, schedule[..n]);
      StepConserves(cfg, Run(cfg, threadCount, schedule[..n]), schedule[n]);
    }
    var s := Run(cfg, threadCount, schedule);
    if forall t :: 0 <= t < threadCount ==> s.threads[t].Idle? || s.threads[t].Allocated? || s.threads[t].Freed? {
      NothingInFlight(s.threads);
    }
  }
}
