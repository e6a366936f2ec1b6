/** The allocator object: its methods follow the source's control flow and are proved to
    compute the functions of module Allocator. */
module SlabbyObject {
  import opened Bits
  import opened Breaker
  import opened Claims
  import opened FreeStructures
  import opened Layout
  import opened Pools
  import opened Wrappers
  import A = Allocator
  import B = Bags
  import M = Memory

  /** A reference to a slab, or to a heap block of the same size. A deallocated one goes back
      to its allocator's pool and may be issued again. */
  class SlabRef {
    const allocatorRef: Slabby
    var slabID: int
    var isHeapAlloc: bool
    /** 0 while allocated, 1 once deallocated. */
    var allocState: int

    ghost function Backing(): A.Backing
      reads this
    {
      if isHeapAlloc then A.Heap else A.Slab(slabID)
    }

    constructor (allocator: Slabby, backing: A.Backing)
      ensures allocatorRef == allocator && Backing() == backing && allocState == 0
    {
      allocatorRef := allocator;
      slabID := if backing.Heap? then -1 else backing.id;
      isHeapAlloc := backing.Heap?;
      allocState := 0;
    }

    method Reissue(backing: A.Backing)
      modifies this
      ensures Backing() == backing && allocState == 0
    {
      slabID := if backing.Heap? then -1 else backing.id;
      isHeapAlloc := backing.Heap?;
      allocState := 0;
    }
  }

  /** The pool of reference objects to issue again, in no order. */
  class RefPool {
    var items: set<SlabRef>

    constructor ()
      ensures items == {}
    {
      items := {};
    }
  }

  method NewArray<T>(n: nat, v: T) returns (a: array<T>)
    ensures fresh(a) && a[..] == Repeat(v, n)
  {
    a := new T[n](_ => v);
    assert a[..] == Repeat(v, n);
  }

  method NewBreaker(settings: Option<Settings>) returns (b: CircuitBreaker?)
    requires settings.Some? ==> settings.value.threshold >= 1
    ensures b == null <==> settings.None?
    ensures b != null ==> fresh(b) && b.Valid() && b.config == settings.value && b.history == []
  {
    b := null;
    if settings.Some? {
      b := new CircuitBreaker(settings.value);
    }
  }

  /** The exported constructor: refuse the request, panic, or build the allocator it asks for. */
  method New(slabSize: int, capacity: int, options: A.Options) returns (r: Result<Slabby, LayoutError>)
    requires IsCacheLine(options.cacheLine) && options.cpus <= TWO_31
    requires options.breaker.Some? ==> options.breaker.value.threshold >= 1
    ensures slabSize <= 0 ==> r == Failure(InvalidSlabSize)
    ensures slabSize > 0 && capacity <= 0 ==> r == Failure(InvalidCapacity)
    ensures slabSize > 0 && capacity > 0x7FFF_FFFF ==> r == Failure(CapacityExceeded)
    ensures slabSize > 0 && 0 < capacity <= 0x7FFF_FFFF ==>
      (r == Failure(MemoryOverflow) <==> forall p :: !Fulfils(p, slabSize, capacity, options.cacheLine))
    ensures r == Failure(ShardPanic)
       <==> (exists p :: Fulfils(p, slabSize, capacity, options.cacheLine))
            && (if options.shardCount > 0 then options.shardCount % 0x1_0000_0000 else options.cpus) > 0x800_0000
    ensures r.Success? ==> A.AsAsked(r.value.config, slabSize, capacity, options) && r.value.enableSecure == options.secure
    ensures r.Success? ==>
      && fresh(r.value) && fresh(r.value.Footprint()) && r.value.Valid()
      && A.ValidConfig(r.value.config) && r.value.State() == A.New(r.value.config, options.secure)
  {
    A.ConfiguredIsValid(slabSize, capacity, options);
    A.ConfiguredAsAsked(slabSize, capacity, options);
    A.ConfigureAnswers(slabSize, capacity, options);
    hide Request, Fulfils, A.AsAsked, A.Configure, A.ValidConfig, A.New, A.Shaped, Slabby.Parts, PlacementPanics, RowCount;
    match A.Configure(slabSize, capacity, options)
    case Failure(e) => return Failure(e);
    case Success(cfg) =>
      var s := new Slabby(cfg, options.secure);
      return Success(s);
  }

  class Slabby {
    const config: A.Config
    const inUse: array<bool>
    const memoryPool: array<M.byte>
    const perCPUCache: PerCpuCaches
    const freeStack: IndexedFreeStack
    const coloredLists: ColoredShardedFreeList
    const circuitBreaker: CircuitBreaker?
    const refPool: RefPool
    var enableSecure: bool

    ghost function Footprint(): set<object> {
      {this, inUse, memoryPool, perCPUCache, perCPUCache.slots, perCPUCache.counts,
       freeStack, freeStack.slab, coloredLists, coloredLists.shards}
      + (if circuitBreaker == null then {} else {circuitBreaker})
    }

    /** No two arrays are the same object. */
    ghost predicate Separate() {
      var a: object, b: object, c: object, d: object, e: object :=
        inUse, memoryPool, freeStack.slab, perCPUCache.counts, coloredLists.shards;
      var f: object := perCPUCache.slots;
      && a != b && a != c && a != d && a != e && a != f
      && b != c && b != d && b != e && b != f
      && c != d && c != e && c != f
      && d != e && d != f && e != f
    }

    ghost function History(): seq<Event>
      reads this, Footprint()
    {
      if circuitBreaker == null then [] else circuitBreaker.history
    }

    ghost predicate Parts()
      reads this, Footprint()
    {
      && Separate()
      && perCPUCache.Valid() && freeStack.Valid() && coloredLists.Valid()
      && freeStack.slab.Length == inUse.Length
      && (circuitBreaker == null <==> config.breaker.None?)
      && (circuitBreaker != null ==> circuitBreaker.Valid() && circuitBreaker.config == config.breaker.value)
    }

    ghost function FreeLists(): Pools
      requires Parts()
      reads this, Footprint()
    {
      Pools(inUse[..], perCPUCache.Contents, freeStack.Contents(), coloredLists.Contents)
    }

    ghost function State(): A.State
      requires Parts()
      reads this, Footprint()
    {
      A.State(FreeLists(), memoryPool[..], History(), enableSecure)
    }

    ghost predicate Valid()
      reads this, Footprint()
    {
      Parts() && A.Shaped(config, State())
    }

    /** Every object in the pool is a deallocated reference of this allocator. */
    ghost predicate Pooling()
      reads refPool, refPool.items
    {
      forall ref :: ref in refPool.items ==> ref.allocatorRef == this && ref.allocState == 1
    }

    /** The pooled object that an allocation gets, if any. */
    ghost function Picked(pick: SlabRef?): set<SlabRef>
      reads refPool
    {
      if pick != null && pick in refPool.items then {pick} else {}
    }

    constructor (config: A.Config, secure: bool)
      requires A.ValidConfig(config)
      ensures Valid() && fresh(Footprint()) && this.config == config
      ensures State() == A.New(config, secure)
      ensures fresh(refPool) && refPool.items == {} && Pooling()
    {
      hide PerCpuCaches.Valid, IndexedFreeStack.Valid, IndexedFreeStack.Contents, ColoredShardedFreeList.Valid;
      hide A.Shaped, WellFormed, Distributed, A.New, CircuitBreaker.Valid, After, Repeat;
      var g := config.geometry;
      this.config := config;
      var flags := NewArray(g.capacity, false);
      var bytes := NewArray<M.byte>(g.alignedSize * g.capacity, 0);
      inUse, memoryPool := flags, bytes;
      var caches := new PerCpuCaches(config.cacheCount);
      var stack := new IndexedFreeStack(g.capacity);
      var lists := new ColoredShardedFreeList(g.capacity, config.rows, g.alignedSize);
      perCPUCache, freeStack, coloredLists := caches, stack, lists;
      var b := NewBreaker(config.breaker);
      circuitBreaker := b;
      refPool := new RefPool();
      enableSecure := secure;
      new;
      hide A.ValidConfig, M.Sound;
      assert fresh(Footprint()) && Separate();
      hide Slabby.Separate, Slabby.Footprint;
      BuiltAsNew(secure);
    }

    /** Freshly built parts make up the state of a new allocator. */
    lemma BuiltAsNew(secure: bool)
      requires A.ValidConfig(config) && Parts() && enableSecure == secure && History() == []
      requires inUse[..] == Repeat(false, config.geometry.capacity)
      requires memoryPool[..] == Repeat(0, config.geometry.alignedSize * config.geometry.capacity)
      requires freeStack.Contents() == [] && perCPUCache.Contents == Repeat([], config.cacheCount)
      requires coloredLists.Contents == Distributed(config.geometry.capacity, config.rows, config.geometry.alignedSize)
      ensures Valid() && State() == A.New(config, secure)
    {
      hide A.Shaped, WellFormed, Distributed;
      assert State() == A.New(config, secure);
    }

    // ---- Breaker calls ----

    method CheckBreaker(now: int) returns (refused: bool)
      requires Valid()
      modifies circuitBreaker
      ensures Valid() && State() == A.Note(config, old(State()), Checked(now))
      ensures refused == A.Refuses(config, old(State()), now)
    {
      if circuitBreaker == null {
        return false;
      }
      refused := circuitBreaker.IsOpen(now);
    }

    method RecordSuccess()
      requires Valid()
      modifies circuitBreaker
      ensures Valid() && State() == A.Note(config, old(State()), Succeeded)
    {
      if circuitBreaker != null {
        circuitBreaker.RecordSuccess();
      }
    }

    method RecordFailure(now: int)
      requires Valid()
      modifies circuitBreaker
      ensures Valid() && State() == A.Note(config, old(State()), Failed(now))
    {
      if circuitBreaker != null {
        circuitBreaker.RecordFailure(now);
      }
    }

    // ---- Claim loops ----

    /** Set the flag of a slab if it is clear. */
    method CompareAndSwap(id: int) returns (won: bool)
      requires Valid() && 0 <= id < |FreeLists().inUse|
      modifies inUse
      ensures Valid() && won == !old(FreeLists()).inUse[id]
      ensures State() == if won then old(State()).(pools := SetUsed(old(FreeLists()), id)) else old(State())
    {
      won := !inUse[id];
      if won {
        inUse[id] := true;
      }
    }

    lemma CacheGetKeepsShape(s: A.State, draw: nat)
      requires A.Shaped(config, s) && s.pools.caches != []
      ensures WellFormed(s.pools) && A.Shaped(config, s.(pools := CacheGet(s.pools, draw).pools))
    {
    }

    /** Take one ID from the drawn cache or, through it, from the stack. */
    method TakeFromCaches(draw: nat) returns (slot: Option<int>)
      requires Valid() && FreeLists().caches != []
      modifies perCPUCache, perCPUCache.slots, perCPUCache.counts, freeStack
      ensures Valid()
      ensures var g := CacheGet(old(FreeLists()), draw);
        State() == old(State()).(pools := g.pools) && slot == g.slot
    {
      ghost var p := FreeLists();
      ghost var s := State();
      CacheGetKeepsShape(s, draw);
      hide A.Shaped, WellFormed, CacheStep, PerCpuCaches.Valid;
      slot := perCPUCache.Get(freeStack, draw);
      assert FreeLists().inUse == p.inUse;
    }

    method TakeFromStack() returns (slot: Option<int>)
      requires Valid()
      modifies freeStack
      ensures Valid()
      ensures var g := StackGet(old(FreeLists()));
        State() == old(State()).(pools := g.pools) && slot == g.slot
    {
      ghost var p := FreeLists();
      slot := freeStack.Pop();
      assert StackGet(p) == Taken(FreeLists(), slot);
    }

    method TakeFromShards(draw: nat) returns (slot: Option<int>)
      requires Valid()
      modifies coloredLists, coloredLists.shards
      ensures Valid()
      ensures var g := ShardGet(old(FreeLists()), draw);
        State() == old(State()).(pools := g.pools) && slot == g.slot
    {
      ghost var p := FreeLists();
      slot := coloredLists.Get(draw, 0);
      assert ShardGet(p, draw) == Taken(FreeLists(), slot);
    }

    // ---- The claim loops ----

    /** Draw from the caches until a flag can be set or nothing is left to draw. */
    method TryCaches(cpu: nat -> nat, k: nat) returns (slot: Option<int>, drawn: nat)
      requires Valid()
      modifies inUse, perCPUCache, perCPUCache.slots, perCPUCache.counts, freeStack
      ensures Valid()
      ensures var c := ClaimFromCaches(old(FreeLists()), cpu, k);
        State() == old(State()).(pools := c.pools) && slot == c.slot && drawn == c.drawn
    {
      hide A.Shaped, WellFormed, GoodClaim, CacheGet;
      drawn := k;
      if config.cacheCount == 0 {
        CacheCount();
        return None, drawn;
      }
      CacheCount();
      while true
        invariant Valid() && State() == old(State()).(pools := FreeLists()) && FreeLists().caches != []
        invariant WellFormed(FreeLists())
        invariant ClaimFromCaches(FreeLists(), cpu, drawn) == ClaimFromCaches(old(FreeLists()), cpu, k)
        decreases Weight(FreeLists())
      {
        WellFormedNow();
        slot := TakeFromCaches(cpu(drawn));
        drawn := drawn + 1;
        if slot.None? {
          return;
        }
        WellFormedNow();
        var won := CompareAndSwap(slot.value);
        if won {
          return;
        }
      }
    }

    lemma CacheCount()
      requires Valid()
      ensures |FreeLists().caches| == config.cacheCount && WellFormed(FreeLists())
    {
    }

    lemma WellFormedNow()
      requires Valid()
      ensures WellFormed(FreeLists()) && |FreeLists().inUse| == config.geometry.capacity
    {
    }

    method TryStack() returns (slot: Option<int>)
      requires Valid()
      modifies inUse, freeStack
      ensures Valid()
      ensures var c := ClaimFromStack(old(FreeLists()));
        State() == old(State()).(pools := c.pools) && slot == c.slot
    {
      WellFormedNow();
      hide A.Shaped, WellFormed, GoodClaim, StackGet;
      while true
        invariant Valid() && State() == old(State()).(pools := FreeLists())
        invariant WellFormed(FreeLists())
        invariant ClaimFromStack(FreeLists()) == ClaimFromStack(old(FreeLists()))
        decreases |FreeLists().stack|
      {
        slot := TakeFromStack();
        if slot.None? {
          return;
        }
        WellFormedNow();
        var won := CompareAndSwap(slot.value);
        if won {
          return;
        }
      }
    }

    method TryShards(start: nat -> nat, k: nat) returns (slot: Option<int>, drawn: nat)
      requires Valid()
      modifies inUse, coloredLists, coloredLists.shards
      ensures Valid()
      ensures var c := ClaimFromShards(old(FreeLists()), start, k);
        State() == old(State()).(pools := c.pools) && slot == c.slot && drawn == c.drawn
    {
      WellFormedNow();
      hide A.Shaped, WellFormed, GoodClaim, ShardGet;
      drawn := k;
      while true
        invariant Valid() && State() == old(State()).(pools := FreeLists())
        invariant WellFormed(FreeLists())
        invariant ClaimFromShards(FreeLists(), start, drawn) == ClaimFromShards(old(FreeLists()), start, k)
        decreases |B.BagOf(FreeLists().shards)|
      {
        slot := TakeFromShards(start(drawn));
        drawn := drawn + 1;
        if slot.None? {
          return;
        }
        WellFormedNow();
        var won := CompareAndSwap(slot.value);
        if won {
          return;
        }
      }
    }

    // ---- Allocation ----

    /** The claim loops over the stack and then the shards. */
    method TryShared(o: A.Outside) returns (slot: Option<int>)
      requires Valid()
      modifies inUse, freeStack, coloredLists, coloredLists.shards
      ensures Valid()
      ensures var c := AcquireShared(old(FreeLists()), o.start);
        State() == old(State()).(pools := c.pools) && slot == c.slot
    {
      WellFormedNow();
      hide A.Shaped, WellFormed, GoodClaim, ClaimFromStack, ClaimFromShards;
      slot := TryStack();
      if slot.Some? {
        return;
      }
      var drawn: nat;
      slot, drawn := TryShards(o.start, 0);
    }

    /** The three claim loops one after the other, as in both single allocations. */
    method TryAll(o: A.Outside) returns (slot: Option<int>)
      requires Valid()
      modifies Footprint() - {memoryPool} - {circuitBreaker}
      ensures Valid()
      ensures var c := Acquire(old(FreeLists()), o.cpu, o.start);
        State() == old(State()).(pools := c.pools) && slot == c.slot
    {
      WellFormedNow();
      hide A.Shaped, WellFormed, GoodClaim, ClaimFromCaches, AcquireShared;
      var drawn: nat;
      slot, drawn := TryCaches(o.cpu, 0);
      if slot.Some? {
        return;
      }
      slot := TryShared(o);
    }

    method AllocateFast(o: A.Outside) returns (r: Result<int, A.Error>)
      requires Valid()
      modifies Footprint()
      ensures Valid() && (State(), r) == A.AllocateFast(config, old(State()), o)
    {
      hide A.Shaped, WellFormed, Acquire;
      var refused := CheckBreaker(o.checkedAt);
      if refused {
        return Failure(A.CircuitBreakerOpen);
      }
      var slot := TryAll(o);
      if slot.Some? {
        RecordSuccess();
        return Success(slot.value);
      }
      RecordFailure(o.recordedAt);
      return Failure(A.OutOfMemory);
    }

    /** Allocate without the reference object. */
    method AllocateBacking(o: A.Outside) returns (r: Result<A.Backing, A.Error>)
      requires Valid()
      modifies Footprint()
      ensures Valid() && (State(), r) == A.Allocate(config, old(State()), o)
    {
      hide A.Shaped, WellFormed, Acquire;
      var refused := CheckBreaker(o.checkedAt);
      if refused {
        return Failure(A.CircuitBreakerOpen);
      }
      var slot := TryAll(o);
      if slot.Some? {
        return Success(A.Slab(slot.value));
      }
      if config.fallback {
        return Success(A.Heap);
      }
      RecordFailure(o.recordedAt);
      return Failure(A.OutOfMemory);
    }

    /** A live reference of this allocator. */
    ghost predicate Refers(ref: SlabRef, backing: A.Backing)
      reads ref
    {
      ref.allocatorRef == this && ref.Backing() == backing && ref.allocState == 0
    }

    /** createSlabRef: the picked object, if it is in the pool, or a new one. */
    method CreateSlabRef(backing: A.Backing, pick: SlabRef?) returns (ref: SlabRef)
      requires Pooling()
      modifies refPool, Picked(pick)
      ensures Pooling() && Refers(ref, backing) && refPool.items == old(refPool.items) - {ref}
      ensures if pick != null && pick in old(refPool.items) then ref == pick else fresh(ref)
    {
      if pick != null && pick in refPool.items {
        ref := pick;
        refPool.items := refPool.items - {ref};
        ref.Reissue(backing);
      } else {
        ref := new SlabRef(this, backing);
      }
    }

    /** The same, and nothing else of the allocator changes. */
    method IssueRef(backing: A.Backing, pick: SlabRef?) returns (ref: SlabRef)
      requires Valid() && Pooling()
      modifies refPool, Picked(pick)
      ensures Valid() && State() == old(State())
      ensures Pooling() && Refers(ref, backing) && refPool.items == old(refPool.items) - {ref}
      ensures if pick != null && pick in old(refPool.items) then ref == pick else fresh(ref)
    {
      hide A.Shaped;
      ref := CreateSlabRef(backing, pick);
    }

    method Allocate(o: A.Outside, pick: SlabRef?) returns (r: Result<SlabRef, A.Error>)
      requires Valid() && Pooling()
      modifies Footprint(), refPool, Picked(pick)
      ensures Valid() && Pooling()
      ensures var (s, got) := A.Allocate(config, old(State()), o);
        && State() == s
        && (got.Failure? ==> r == Failure(got.error) && refPool.items == old(refPool.items))
        && (got.Success? ==>
              && r.Success? && Refers(r.value, got.value) && refPool.items == old(refPool.items) - {r.value}
              && if pick != null && pick in old(refPool.items) then r.value == pick else fresh(r.value))
    {
      hide A.Allocate, A.Shaped;
      var got := AllocateBacking(o);
      match got
      case Failure(e) => return Failure(e);
      case Success(b) =>
        var ref := IssueRef(b, pick);
        return Success(ref);
    }

    // ---- Batches ----

    /** Ids claimed so far, followed by what the rest of the loop claims, is the whole batch. */
    ghost predicate Continues(all: Batch, ids: seq<int>, rest: Batch) {
      all.pools == rest.pools && all.ids == ids + rest.ids
    }

    lemma ContinuesOn(all: Batch, ids: seq<int>, id: int, rest: Batch)
      requires Continues(all, ids, Batch(rest.pools, [id] + rest.ids, rest.drawn))
      ensures Continues(all, ids + [id], rest)
    {
      assert ids + ([id] + rest.ids) == (ids + [id]) + rest.ids;
    }

    /** Loop invariant: the ids so far, then what the rest of the cache phase claims, is the batch. */
    ghost predicate InCaches(all: Batch, ids: seq<int>, left: nat, cpu: nat -> nat, k: nat, s0: A.State)
      reads this, Footprint()
    {
      && Valid() && WellFormed(FreeLists()) && State() == s0.(pools := FreeLists())
      && Continues(all, ids, BatchFromCaches(FreeLists(), left, cpu, k))
    }

    lemma InCachesNext(all: Batch, ids: seq<int>, left: nat, cpu: nat -> nat, k: nat, s0: A.State,
                       p: Pools, slot: Option<int>, drawn: nat)
      requires WellFormed(p) && Continues(all, ids, BatchFromCaches(p, left + 1, cpu, k))
      requires Valid() && Claim(FreeLists(), slot, drawn) == ClaimFromCaches(p, cpu, k)
      requires State() == s0.(pools := FreeLists())
      ensures slot.None? ==> FreeLists() == all.pools && ids == all.ids
      ensures slot.Some? ==> InCaches(all, ids + [slot.value], left, cpu, drawn, s0)
    {
      WellFormedNow();
      hide A.Shaped, WellFormed, GoodBatch, GoodClaim, ClaimFromCaches;
      if slot.Some? {
        ContinuesOn(all, ids, slot.value, BatchFromCaches(FreeLists(), left, cpu, drawn));
      }
    }

    method BatchCaches(n: nat, cpu: nat -> nat) returns (ids: seq<int>)
      requires Valid()
      modifies inUse, perCPUCache, perCPUCache.slots, perCPUCache.counts, freeStack
      ensures Valid()
      ensures var b := BatchFromCaches(old(FreeLists()), n, cpu, 0);
        State() == old(State()).(pools := b.pools) && ids == b.ids
    {
      WellFormedNow();
      ghost var all := BatchFromCaches(FreeLists(), n, cpu, 0);
      hide A.Shaped, WellFormed, GoodBatch, GoodClaim, ClaimFromCaches, BatchFromCaches;
      ids := [];
      var drawn, left := 0, n;
      while left > 0
        invariant InCaches(all, ids, left, cpu, drawn, old(State()))
      {
        ghost var p, k := FreeLists(), drawn;
        var after: nat, slot: Option<int> := left - 1, None;
        slot, drawn := TryCaches(cpu, drawn);
        InCachesNext(all, ids, after, cpu, k, old(State()), p, slot, drawn);
        if slot.None? {
          return;
        }
        ids := ids + [slot.value];
        left := after;
      }
      BatchCachesEnds(all, ids, FreeLists(), cpu, drawn);
    }

    lemma BatchCachesEnds(all: Batch, ids: seq<int>, p: Pools, cpu: nat -> nat, k: nat)
      requires WellFormed(p) && Continues(all, ids, BatchFromCaches(p, 0, cpu, k))
      ensures all.pools == p && all.ids == ids
    {
      hide GoodBatch, WellFormed;
    }

    /** Loop invariant: the ids so far, then what the rest of the stack phase claims, is the batch. */
    ghost predicate InStack(all: Batch, ids: seq<int>, left: nat, s0: A.State)
      reads this, Footprint()
    {
      && Valid() && WellFormed(FreeLists()) && State() == s0.(pools := FreeLists())
      && Continues(all, ids, BatchFromStack(FreeLists(), left))
    }

    lemma InStackNext(all: Batch, ids: seq<int>, left: nat, s0: A.State, p: Pools, slot: Option<int>)
      requires WellFormed(p) && Continues(all, ids, BatchFromStack(p, left + 1))
      requires Valid() && FreeLists() == ClaimFromStack(p).pools && slot == ClaimFromStack(p).slot
      requires State() == s0.(pools := FreeLists())
      ensures slot.None? ==> State() == s0.(pools := all.pools) && ids == all.ids
      ensures slot.Some? ==> InStack(all, ids + [slot.value], left, s0)
    {
      WellFormedNow();
      hide A.Shaped, WellFormed, GoodBatch, GoodClaim, ClaimFromStack;
      if slot.Some? {
        ContinuesOn(all, ids, slot.value, BatchFromStack(FreeLists(), left));
      }
    }

    method BatchStack(n: nat) returns (ids: seq<int>)
      requires Valid()
      modifies inUse, freeStack
      ensures Valid()
      ensures var b := BatchFromStack(old(FreeLists()), n);
        State() == old(State()).(pools := b.pools) && ids == b.ids
    {
      WellFormedNow();
      ghost var all := BatchFromStack(FreeLists(), n);
      InStackStarts(all, n, State());
      hide A.Shaped, WellFormed, GoodBatch, GoodClaim, ClaimFromStack, BatchFromStack, InStack, Continues, Parts;
      ids := [];
      var left := n;
      while left > 0
        invariant InStack(all, ids, left, old(State()))
      {
        ghost var p := FreeLists();
        var after: nat, slot: Option<int> := left - 1, None;
        slot := TryStack();
        InStackNext(all, ids, after, old(State()), p, slot);
        if slot.None? {
          return;
        }
        ids := ids + [slot.value];
        left := after;
      }
      InStackEnds(all, ids, old(State()));
    }

    lemma InStackStarts(all: Batch, n: nat, s0: A.State)
      requires Valid() && s0 == State() && WellFormed(FreeLists()) && all == BatchFromStack(FreeLists(), n)
      ensures InStack(all, [], n, s0)
    {
      hide A.Shaped, WellFormed, GoodBatch, BatchFromStack;
    }

    lemma InStackEnds(all: Batch, ids: seq<int>, s0: A.State)
      requires InStack(all, ids, 0, s0)
      ensures Valid() && State() == s0.(pools := all.pools) && ids == all.ids
    {
      hide A.Shaped, WellFormed, GoodBatch;
    }

    /** Loop invariant: the ids so far, then what the rest of the shard phase claims, is the batch. */
    ghost predicate InShards(all: Batch, ids: seq<int>, left: nat, start: nat -> nat, k: nat, s0: A.State)
      reads this, Footprint()
    {
      && Valid() && WellFormed(FreeLists()) && State() == s0.(pools := FreeLists())
      && Continues(all, ids, BatchFromShards(FreeLists(), left, start, k))
    }

    lemma InShardsNext(all: Batch, ids: seq<int>, left: nat, start: nat -> nat, k: nat, s0: A.State,
                       p: Pools, slot: Option<int>, drawn: nat)
      requires WellFormed(p) && Continues(all, ids, BatchFromShards(p, left + 1, start, k))
      requires Valid() && Claim(FreeLists(), slot, drawn) == ClaimFromShards(p, start, k)
      requires State() == s0.(pools := FreeLists())
      ensures slot.None? ==> FreeLists() == all.pools && ids == all.ids
      ensures slot.Some? ==> InShards(all, ids + [slot.value], left, start, drawn, s0)
    {
      WellFormedNow();
      hide A.Shaped, WellFormed, GoodBatch, GoodClaim, ClaimFromShards;
      if slot.Some? {
        ContinuesOn(all, ids, slot.value, BatchFromShards(FreeLists(), left, start, drawn));
      }
    }

    method BatchShards(n: nat, start: nat -> nat) returns (ids: seq<int>)
      requires Valid()
      modifies inUse, coloredLists, coloredLists.shards
      ensures Valid()
      ensures var b := BatchFromShards(old(FreeLists()), n, start, 0);
        State() == old(State()).(pools := b.pools) && ids == b.ids
    {
      WellFormedNow();
      ghost var all := BatchFromShards(FreeLists(), n, start, 0);
      hide A.Shaped, WellFormed, GoodBatch, GoodClaim, ClaimFromShards, BatchFromShards;
      ids := [];
      var drawn, left := 0, n;
      while left > 0
        invariant InShards(all, ids, left, start, drawn, old(State()))
      {
        ghost var p, k := FreeLists(), drawn;
        var after: nat, slot: Option<int> := left - 1, None;
        slot, drawn := TryShards(start, drawn);
        InShardsNext(all, ids, after, start, k, old(State()), p, slot, drawn);
        if slot.None? {
          return;
        }
        ids := ids + [slot.value];
        left := after;
      }
      BatchShardsEnds(all, ids, FreeLists(), start, drawn);
    }

    lemma BatchShardsEnds(all: Batch, ids: seq<int>, p: Pools, start: nat -> nat, k: nat)
      requires WellFormed(p) && Continues(all, ids, BatchFromShards(p, 0, start, k))
      ensures all.pools == p && all.ids == ids
    {
      hide GoodBatch, WellFormed;
    }

    /** The three phases of a batch. */
    method ClaimBatch(n: nat, o: A.Outside) returns (ids: seq<int>)
      requires Valid()
      modifies Footprint() - {memoryPool} - {circuitBreaker}
      ensures Valid() && (State(), ids) == A.ClaimBatch(config, old(State()), n, o)
    {
      WellFormedNow();
      hide A.Shaped, WellFormed, GoodBatch, BatchFromCaches, BatchFromStack, BatchFromShards, AcquireBatch;
      ghost var p0 := FreeLists();
      ids := BatchCaches(n, o.cpu);
      ghost var p1 := FreeLists();
      var left: nat, more: seq<int> := n - |ids|, [];
      more := BatchStack(left);
      ghost var p2 := FreeLists();
      var rest: nat, last: seq<int> := left - |more|, [];
      last := BatchShards(rest, o.start);
      BatchPhases(p0, p1, p2, FreeLists(), n, left, rest, ids, more, last, o);
      ids := ids + more + last;
    }

    lemma BatchPhases(p0: Pools, p1: Pools, p2: Pools, p3: Pools, n: nat, left: nat, rest: nat,
                      ids: seq<int>, more: seq<int>, last: seq<int>, o: A.Outside)
      requires WellFormed(p0) && WellFormed(p1) && WellFormed(p2)
      requires var b := BatchFromCaches(p0, n, o.cpu, 0); p1 == b.pools && ids == b.ids && left == n - |ids|
      requires var b := BatchFromStack(p1, left); p2 == b.pools && more == b.ids && rest == left - |more|
      requires var b := BatchFromShards(p2, rest, o.start, 0); p3 == b.pools && last == b.ids
      ensures AcquireBatch(p0, n, o.cpu, o.start) == Batch(p3, ids + more + last, 0)
    {
      hide GoodBatch, WellFormed, BatchFromCaches, BatchFromStack, BatchFromShards;
    }

    /** BatchAllocate without the reference objects. */
    method BatchBackings(n: int, o: A.Outside) returns (granted: A.Granted)
      requires Valid()
      modifies Footprint()
      ensures Valid() && (State(), granted) == A.BatchAllocate(config, old(State()), n, o)
    {
      hide A.Shaped, WellFormed, A.ClaimBatch;
      if n <= 0 || n > A.MAX_BATCH_SIZE {
        return A.Granted([], Some(A.InvalidBatchSize));
      }
      var refused := CheckBreaker(o.checkedAt);
      if refused {
        return A.Granted([], Some(A.CircuitBreakerOpen));
      }
      var ids := ClaimBatch(n, o);
      var refs := A.References(config, ids, if config.fallback then n else |ids|);
      if |refs| == 0 {
        RecordFailure(o.recordedAt);
        return A.Granted([], Some(A.OutOfMemory));
      }
      return A.Granted(refs, if |refs| < n then Some(A.PartialBatch) else None);
    }

    /** The objects of a batch: each the one picked for it, if that is still in the pool, or a
        new one. */
    ghost predicate Drawn(items: set<SlabRef>, refs: seq<SlabRef>, picks: nat -> SlabRef?) {
      && (forall i, j :: 0 <= i < j < |refs| ==> refs[i] != refs[j])
      && (forall i :: 0 <= i < |refs| ==>
            (refs[i] in items <==> picks(i) in items && picks(i) !in refs[..i])
            && (refs[i] in items ==> refs[i] == picks(i)))
    }

    /** What is left of the pool after these were drawn. */
    ghost function Rest(items: set<SlabRef>, refs: seq<SlabRef>): set<SlabRef> {
      set ref | ref in items && ref !in refs
    }

    lemma DrawnNext(items: set<SlabRef>, refs: seq<SlabRef>, ref: SlabRef, picks: nat -> SlabRef?, n: nat)
      requires Drawn(items, refs, picks) && n == |refs| && ref !in refs
      requires if picks(n) in Rest(items, refs) then ref == picks(n) else ref !in items
      ensures Drawn(items, refs + [ref], picks) && Rest(items, refs + [ref]) == Rest(items, refs) - {ref}
    {
      var more := refs + [ref];
      forall i | 0 <= i < |more|
        ensures (more[i] in items <==> picks(i) in items && picks(i) !in more[..i])
        ensures more[i] in items ==> more[i] == picks(i)
      {
        assert more[..i] == if i < n then refs[..i] else refs;
      }
    }

    /** Loop invariant: live references to the first blocks, none of them in the pool. */
    ghost predicate Made(refs: seq<SlabRef>, backings: seq<A.Backing>)
      requires |refs| <= |backings|
      reads refPool, refs
    {
      forall k :: 0 <= k < |refs| ==> Refers(refs[k], backings[k]) && refs[k] !in refPool.items
    }

    method MakeRefs(backings: seq<A.Backing>, picks: nat -> SlabRef?) returns (refs: seq<SlabRef>)
      requires Pooling()
      modifies refPool, refPool.items
      ensures Pooling() && refPool.items == Rest(old(refPool.items), refs)
      ensures |refs| == |backings| && Drawn(old(refPool.items), refs, picks)
      ensures forall i :: 0 <= i < |refs| ==> Refers(refs[i], backings[i])
      ensures forall i :: 0 <= i < |refs| ==> refs[i] in old(refPool.items) || fresh(refs[i])
    {
      refs := [];
      assert Drawn(refPool.items, refs, picks) && refPool.items == Rest(refPool.items, refs);
      hide Drawn, Rest;
      for i := 0 to |backings|
        invariant |refs| == i && Pooling() && Made(refs, backings)
        invariant refPool.items == Rest(old(refPool.items), refs) && Drawn(old(refPool.items), refs, picks)
        invariant forall ref :: ref in refs ==> ref in old(refPool.items) || fresh(ref)
        invariant refPool.items <= old(refPool.items)
      {
        var ref := NextRef(refs, backings, picks(i), i);
        DrawnNext(old(refPool.items), refs, ref, picks, i);
        refs := refs + [ref];
      }
    }

    /** One more reference; those made before stay as they are. */
    method NextRef(refs: seq<SlabRef>, backings: seq<A.Backing>, pick: SlabRef?, n: nat) returns (ref: SlabRef)
      requires Pooling() && n == |refs| < |backings| && Made(refs, backings)
      modifies refPool, Picked(pick)
      ensures Pooling() && ref !in refs && Made(refs + [ref], backings)
      ensures refPool.items == old(refPool.items) - {ref}
      ensures if pick != null && pick in old(refPool.items) then ref == pick else fresh(ref)
    {
      ref := CreateSlabRef(backings[n], pick);
    }

    method BatchAllocate(n: int, o: A.Outside, picks: nat -> SlabRef?) returns (refs: seq<SlabRef>, error: Option<A.Error>)
      requires Valid() && Pooling()
      modifies Footprint(), refPool, refPool.items
      ensures Valid() && Pooling() && refPool.items == Rest(old(refPool.items), refs)
      ensures var (s, granted) := A.BatchAllocate(config, old(State()), n, o);
        && State() == s && error == granted.error && |refs| == |granted.refs|
        && (forall i :: 0 <= i < |refs| ==> Refers(refs[i], granted.refs[i]))
      ensures Drawn(old(refPool.items), refs, picks)
      ensures forall i :: 0 <= i < |refs| ==> refs[i] in old(refPool.items) || fresh(refs[i])
    {
      hide A.BatchAllocate, A.Shaped;
      var granted := BatchBackings(n, o);
      refs := MakeRefs(granted.refs, picks);
      error := granted.error;
    }

    // ---- Deallocation ----

    method ZeroSlabMemory(id: nat)
      requires Valid() && A.IsSlab(config, id)
      modifies memoryPool
      ensures Valid() && State() == old(State()).(memory := M.Zero(config.geometry, old(State()).memory, id))
    {
      M.OffsetInside(config.geometry, memoryPool[..], id);
      M.ClearSlice(memoryPool, id * config.geometry.alignedSize, config.geometry.slabSize);
    }

    /** Hand an ID to the stack, else to its home shard. */
    method ReturnShared(id: int)
      requires Parts() && 0 <= id <= MAX_INT32
      modifies freeStack, freeStack.slab, coloredLists, coloredLists.shards
      ensures Parts() && unchanged(inUse) && unchanged(memoryPool) && History() == old(History())
      ensures perCPUCache.Contents == old(perCPUCache.Contents)
      ensures var stack, shards := old(freeStack.Contents()), old(coloredLists.Contents);
        var home := IndexAtPut(id, |shards|, config.geometry.alignedSize);
        if |stack| < inUse.Length then freeStack.Contents() == stack + [id] && coloredLists.Contents == shards
        else freeStack.Contents() == stack && coloredLists.Contents == shards[home := shards[home] + [id]]
    {
      hide IndexAtPut, PerCpuCaches.Valid;
      var stacked := freeStack.Push(id);
      if !stacked {
        coloredLists.Put(id, config.geometry.alignedSize);
      }
    }

    /** Hand an ID whose flag is clear to the cache, else the stack, else its home shard. */
    method ReturnToPool(id: int, draw: nat)
      requires Valid() && A.IsSlab(config, id)
      modifies perCPUCache, perCPUCache.slots, perCPUCache.counts
      modifies freeStack, freeStack.slab, coloredLists, coloredLists.shards
      ensures Parts() && unchanged(inUse) && unchanged(memoryPool) && unchanged(this) && History() == old(History())
      ensures var p := old(FreeLists());
        (perCPUCache.Contents, freeStack.Contents(), coloredLists.Contents)
          == PutBack(p.caches, p.stack, p.shards, |p.inUse|, id, draw, config.geometry.alignedSize)
    {
      WellFormedNow();
      CacheCount();
      ghost var p := FreeLists();
      PutBackCases(p.caches, p.stack, p.shards, |p.inUse|, id, draw, config.geometry.alignedSize);
      hide A.Shaped, WellFormed, IndexAtPut, CacheIndex, PutBack;
      if config.cacheCount > 0 {
        var cached := perCPUCache.Put(id, draw);
        if cached {
          return;
        }
      }
      ReturnShared(id);
    }

    /** The flag cleared, the bytes cleared if secure, the ID put back: all of Recycle but
        the report to the breaker. */
    ghost predicate Recycled(s0: A.State, id: int, draw: nat)
      requires A.Shaped(config, s0) && A.IsSlab(config, id) && Parts()
      reads this, Footprint()
    {
      var p := s0.pools;
      && inUse[..] == p.inUse[id := false]
      && (perCPUCache.Contents, freeStack.Contents(), coloredLists.Contents)
           == PutBack(p.caches, p.stack, p.shards, |p.inUse|, id, draw, config.geometry.alignedSize)
      && memoryPool[..] == M.ZeroIf(s0.secure, config.geometry, s0.memory, id)
      && enableSecure == s0.secure && History() == s0.history
    }

    lemma RecycledState(s0: A.State, id: int, draw: nat)
      requires A.Shaped(config, s0) && A.IsSlab(config, id) && Parts() && Recycled(s0, id, draw)
      ensures Valid()
      ensures A.Note(config, State(), Succeeded) == A.Recycle(config, s0, id, draw)
    {
      var s1 := s0.(memory := M.ZeroIf(s0.secure, config.geometry, s0.memory, id),
                    pools := Release(s0.pools, id, draw, config.geometry.alignedSize));
      assert A.Shaped(config, s1);
      hide PutBack;
      assert State() == s1;
    }

    method DeallocateFast(id: int, draw: nat) returns (error: Option<A.Error>)
      requires Valid()
      modifies Footprint()
      ensures Valid() && (State(), error) == A.DeallocateFast(config, old(State()), id, draw)
    {
      WellFormedNow();
      if id < 0 || id >= config.geometry.capacity {
        return Some(A.InvalidSlabID);
      }
      if !inUse[id] {
        return Some(A.DoubleDeallocation);
      }
      Free(id, draw, true);
      return None;
    }

    /** The common part of both deallocations: DeallocateFast clears the flag before the
        bytes, Deallocate after them. */
    method Free(id: int, draw: nat, flagFirst: bool)
      requires Valid() && A.IsSlab(config, id)
      modifies Footprint()
      ensures Valid() && State() == A.Recycle(config, old(State()), id, draw)
    {
      FreeUnreported(id, draw, flagFirst);
      RecycledState(old(State()), id, draw);
      hide A.Shaped, A.Recycle;
      RecordSuccess();
    }

    method FreeUnreported(id: int, draw: nat, flagFirst: bool)
      requires Valid() && A.IsSlab(config, id)
      modifies Footprint() - {circuitBreaker}
      ensures Parts() && Recycled(old(State()), id, draw)
    {
      if flagFirst {
        ClearFlag(id);
      }
      if enableSecure {
        ZeroSlabMemory(id);
      }
      if !flagFirst {
        ClearFlag(id);
      }
      ReturnToPool(id, draw);
    }

    method ClearFlag(id: int)
      requires Valid() && A.IsSlab(config, id)
      modifies inUse
      ensures Valid()
      ensures State() == old(State()).(pools := old(FreeLists()).(inUse := old(FreeLists()).inUse[id := false]))
    {
      inUse[id] := false;
    }

    /** References and their pool are not part of the allocator's memory. */
    lemma RefsApart(ref: SlabRef)
      ensures ref !in Footprint() && refPool !in Footprint()
    {
    }

    /** invalidateReference: the object goes into the pool. */
    method Invalidate(ref: SlabRef)
      requires Valid() && Pooling() && ref.allocatorRef == this && ref.allocState == 1
      modifies refPool
      ensures Valid() && State() == old(State())
      ensures Pooling() && refPool.items == old(refPool.items) + {ref}
    {
      hide A.Shaped;
      refPool.items := refPool.items + {ref};
    }

    /** The compare-and-swap on allocState. */
    method Mark(ref: SlabRef) returns (won: bool)
      requires Valid() && Pooling() && ref.allocatorRef == this
      modifies ref
      ensures Valid() && State() == old(State()) && Pooling()
      ensures won == (old(ref.allocState) == 0)
      ensures ref.slabID == old(ref.slabID) && ref.isHeapAlloc == old(ref.isHeapAlloc)
      ensures ref.allocState == if won then 1 else old(ref.allocState)
    {
      hide A.Shaped;
      won := ref.allocState == 0;
      if won {
        ref.allocState := 1;
      }
    }

    /** The slab of a marked reference is freed, and the object goes into the pool. */
    method GiveBack(ref: SlabRef, draw: nat)
      requires Valid() && Pooling() && ref.allocatorRef == this && ref.allocState == 1
      requires !ref.isHeapAlloc ==> A.IsSlab(config, ref.slabID)
      modifies Footprint(), refPool
      ensures Valid() && Pooling() && refPool.items == old(refPool.items) + {ref} && unchanged(ref)
      ensures State() == if ref.isHeapAlloc then old(State()) else A.Recycle(config, old(State()), ref.slabID, draw)
    {
      hide A.Shaped, A.Recycle, Slabby.Separate;
      RefsApart(ref);
      if !ref.isHeapAlloc {
        Free(ref.slabID, draw, false);
      }
      Invalidate(ref);
    }

    /** Deallocate: refuses a nil or foreign reference, and one that is deallocated and not
        issued again; a heap block only ends its reference. The object goes into the pool. */
    method Deallocate(ref: SlabRef?, draw: nat) returns (error: Option<A.Error>)
      requires Valid() && Pooling()
      requires ref != null && ref.allocatorRef == this && !ref.isHeapAlloc ==> A.IsSlab(config, ref.slabID)
      modifies Footprint(), refPool, ref
      ensures Valid() && Pooling()
      ensures ref != null ==> ref.slabID == old(ref.slabID) && ref.isHeapAlloc == old(ref.isHeapAlloc)
      ensures ref == null || ref.allocatorRef != this ==> error == Some(A.InvalidReference)
      ensures ref != null && ref.allocatorRef == this && old(ref.allocState) != 0 ==> error == Some(A.DoubleDeallocation)
      ensures error != None ==>
        && State() == old(State()) && refPool.items == old(refPool.items)
        && (ref != null ==> ref.allocState == old(ref.allocState))
      ensures error == None ==> ref != null && ref.allocatorRef == this && old(ref.allocState) == 0 && ref.allocState == 1
      ensures error == None ==> refPool.items == old(refPool.items) + {ref}
      ensures error == None ==>
        State() == if ref.isHeapAlloc then old(State()) else A.Recycle(config, old(State()), ref.slabID, draw)
    {
      if ref == null || ref.allocatorRef != this {
        return Some(A.InvalidReference);
      }
      hide A.Shaped, A.Recycle, Slabby.Separate;
      RefsApart(ref);
      var won := Mark(ref);
      if !won {
        return Some(A.DoubleDeallocation);
      }
      GiveBack(ref, draw);
      return None;
    }

    // ---- Reset, secure mode and the usage count ----

    /** One round of the first loop of Reset. */
    method FreeOne(i: nat)
      requires Valid() && i < config.geometry.capacity
      modifies inUse, memoryPool
      ensures Valid()
      ensures var s := old(State());
        State() == s.(pools := s.pools.(inUse := s.pools.inUse[i := false]),
                      memory := M.ZeroIf(s.secure, config.geometry, s.memory, i))
    {
      hide A.Shaped, M.Zero;
      ClearFlag(i);
      if enableSecure {
        ZeroSlabMemory(i);
      }
    }

    /** The first loop of Reset: every flag cleared and, if secure, every slab zeroed. */
    method FreeAll()
      requires Valid()
      modifies inUse, memoryPool
      ensures Valid()
      ensures var s, g := old(State()), config.geometry;
        State() == s.(pools := s.pools.(inUse := Repeat(false, g.capacity)),
                      memory := if s.secure then M.ZeroFirst(g, s.memory, g.capacity) else s.memory)
    {
      WellFormedNow();
      ghost var s0 := State();
      hide A.Shaped, Parts, M.Zero, FreedFirst;
      NoneFreed(s0);
      var i: nat := 0;
      while i < config.geometry.capacity
        invariant i <= config.geometry.capacity && Valid() && FreedFirst(s0, State(), i)
      {
        ghost var s, next: nat := State(), i + 1;
        FreeOne(i);
        OneMoreFreed(s0, s, i, State(), next);
        i := i + 1;
      }
      AllFreed(s0, State(), i);
    }

    /** Slabs 0..i-1 are free and, if secure, zeroed; nothing else but flags changed. */
    ghost predicate FreedFirst(s0: A.State, s: A.State, i: nat) {
      && A.Shaped(config, s0) && i <= config.geometry.capacity
      && |s.pools.inUse| == config.geometry.capacity
      && s == s0.(pools := s0.pools.(inUse := s.pools.inUse), memory := s.memory)
      && (forall k :: 0 <= k < i ==> !s.pools.inUse[k])
      && s.memory == if s0.secure then M.ZeroFirst(config.geometry, s0.memory, i) else s0.memory
    }

    lemma NoneFreed(s: A.State)
      requires A.Shaped(config, s)
      ensures FreedFirst(s, s, 0)
    {
    }

    lemma OneMoreFreed(s0: A.State, s: A.State, i: nat, s1: A.State, next: nat)
      requires FreedFirst(s0, s, i) && next == i + 1 <= config.geometry.capacity && A.Shaped(config, s)
      requires s1 == s.(pools := s.pools.(inUse := s.pools.inUse[i := false]),
                        memory := M.ZeroIf(s.secure, config.geometry, s.memory, i))
      ensures FreedFirst(s0, s1, next)
    {
      hide M.Zero;
    }

    lemma AllFreed(s0: A.State, s: A.State, n: nat)
      requires FreedFirst(s0, s, n) && n == config.geometry.capacity
      ensures s == s0.(pools := s0.pools.(inUse := Repeat(false, n)),
                       memory := if s0.secure then M.ZeroFirst(config.geometry, s0.memory, n) else s0.memory)
    {
      assert s.pools.inUse == Repeat(false, n);
    }

    lemma ListSizes()
      requires Valid()
      ensures |perCPUCache.Contents| == config.cacheCount && config.geometry.capacity <= MAX_INT32
      ensures config.cacheCount == 0 ==> perCPUCache.Contents == Repeat([], 0)
      ensures |coloredLists.Contents| / COLOR_COUNT == config.rows
    {
    }

    /** Empty caches and stack, and every slab back in its home shard. */
    method ClearLists()
      requires Valid()
      modifies perCPUCache, perCPUCache.counts, freeStack, coloredLists, coloredLists.shards
      ensures Parts() && unchanged(inUse) && unchanged(memoryPool) && unchanged(this) && History() == old(History())
      ensures freeStack.Contents() == [] && perCPUCache.Contents == Repeat([], config.cacheCount)
      ensures coloredLists.Contents == Distributed(config.geometry.capacity, config.rows, config.geometry.alignedSize)
    {
      ListSizes();
      hide Distributed, Repeat, A.Shaped, Parts;
      ClearCaches();
      ClearShared();
    }

    method ClearCaches()
      requires Parts() && |perCPUCache.Contents| == config.cacheCount
      modifies perCPUCache, perCPUCache.counts
      ensures Parts() && History() == old(History())
      ensures perCPUCache.Contents
           == if config.cacheCount > 0 then Repeat([], config.cacheCount) else old(perCPUCache.Contents)
      ensures coloredLists.Contents == old(coloredLists.Contents)
    {
      hide Repeat, PerCpuCaches.Valid, IndexedFreeStack.Valid, ColoredShardedFreeList.Valid;
      if config.cacheCount > 0 {
        perCPUCache.Clear();
      }
    }

    method ClearShared()
      requires Parts() && config.geometry.capacity <= MAX_INT32
      modifies freeStack, coloredLists, coloredLists.shards
      ensures Parts() && History() == old(History())
      ensures freeStack.Contents() == [] && perCPUCache.Contents == old(perCPUCache.Contents)
      ensures coloredLists.Contents
           == Distributed(config.geometry.capacity, |old(coloredLists.Contents)| / COLOR_COUNT, config.geometry.alignedSize)
    {
      hide Distributed, PerCpuCaches.Valid, IndexedFreeStack.Valid, ColoredShardedFreeList.Valid;
      freeStack.Clear();
      coloredLists.Redistribute(config.geometry.capacity, config.geometry.alignedSize);
    }

    method Reset()
      requires Valid()
      modifies Footprint()
      ensures Valid() && State() == A.Reset(config, old(State()))
    {
      WellFormedNow();
      hide A.Reset, WellFormed, Distributed, M.ZeroFirst;
      FreeAll();
      ClearLists();
      if circuitBreaker != null {
        circuitBreaker.Clear();
      }
      ResetState(old(State()));
    }

    lemma ResetState(s0: A.State)
      requires A.Shaped(config, s0) && Parts() && enableSecure == s0.secure
      requires inUse[..] == Repeat(false, config.geometry.capacity) && freeStack.Contents() == []
      requires perCPUCache.Contents == Repeat([], config.cacheCount)
      requires coloredLists.Contents == Distributed(config.geometry.capacity, config.rows, config.geometry.alignedSize)
      requires var g := config.geometry;
        memoryPool[..] == if s0.secure then M.ZeroFirst(g, s0.memory, g.capacity) else s0.memory
      requires History() == if config.breaker.None? then s0.history else s0.history + [WasCleared]
      ensures Valid() && State() == A.Reset(config, s0)
    {
      hide Distributed;
      assert State() == A.Reset(config, s0);
    }

    method Secure()
      requires Valid()
      modifies this
      ensures Valid() && State() == old(State()).(secure := true)
    {
      enableSecure := true;
    }

    /** memoryStatsSnapshot's count: the slabs in use are all but the free ones. */
    method UsedSlabs() returns (used: nat)
      requires Valid()
      ensures used + B.FreeCount(State().pools.inUse) == config.geometry.capacity
    {
      used := 0;
      for i := 0 to inUse.Length
        invariant used + B.FreeCount(inUse[..i]) == i
      {
        assert inUse[..i + 1][..i] == inUse[..i];
        if inUse[i] {
          used := used + 1;
        }
      }
      assert inUse[..inUse.Length] == inUse[..];
    }
  }
}
