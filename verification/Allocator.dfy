/** The allocator as a value: pools, bytes and breaker history, every operation as a
    function of the state and of what the outside draws, and runs of operations. */
module Allocator {
  import opened Bits
  import opened Breaker
  import opened Claims
  import opened Layout
  import opened Pools
  import opened Wrappers
  import M = Memory

  datatype Error =
    | OutOfMemory | CircuitBreakerOpen | InvalidSlabID | DoubleDeallocation
    | InvalidReference | InvalidBatchSize | PartialBatch

  const MAX_BATCH_SIZE := 256

  datatype Config = Config(geometry: M.Geometry, cacheCount: nat, rows: nat, fallback: bool, breaker: Option<Settings>)

  /** What the constructor guarantees about an accepted configuration. */
  ghost predicate ValidConfig(cfg: Config) {
    && M.Sound(cfg.geometry)
    && 0 < cfg.geometry.capacity <= MAX_INT32
    && cfg.geometry.alignedSize % 32 == 0
    && IsPow2(cfg.rows) && cfg.rows <= MAX_SHARDS
    && (cfg.cacheCount > 0 ==> IsPow2(cfg.cacheCount))
    && (cfg.breaker.Some? ==> cfg.breaker.value.threshold >= 1)
  }

  /** The options of the constructor; a shard count that is not positive stands for the
      number of CPUs. */
  datatype Options = Options(cacheLine: nat, cached: bool, cpus: nat, shardCount: int,
                             fallback: bool, breaker: Option<Settings>, secure: bool)

  /** The shard count as the uint32 that is rounded up to a number of rows. */
  function ShardCount(options: Options): (v: nat)
    requires options.cpus <= TWO_31
    ensures v < TWO_32
  {
    (if options.shardCount <= 0 then options.cpus else options.shardCount) % TWO_32
  }

  function Configure(slabSize: int, capacity: int, options: Options): Result<Config, LayoutError>
    requires options.cacheLine > 0 && options.cpus <= TWO_31
    requires Request(slabSize, capacity, options.cacheLine).Success? ==>
      var p := Request(slabSize, capacity, options.cacheLine).value;
      p.capacity >= 0 && p.slabSize >= 0 && p.alignedSize >= 0
  {
    match Request(slabSize, capacity, options.cacheLine)
    case Failure(e) => Failure(e)
    case Success(p) =>
      if ShardCount(options) > MAX_SHARDS then Failure(ShardPanic)
      else
        Success(Config(M.Geometry(p.capacity, p.slabSize, p.alignedSize),
                       if options.cached then NextPowerOfTwo(options.cpus) else 0,
                       RowCount(ShardCount(options)), options.fallback, options.breaker))
  }

  /** The constructor panics exactly on the accepted requests of which it would place some
      slab outside the shard array, and every configuration it completes is valid. */
  lemma ConfiguredIsValid(slabSize: int, capacity: int, options: Options)
    requires IsCacheLine(options.cacheLine) && options.cpus <= TWO_31
    requires options.breaker.Some? ==> options.breaker.value.threshold >= 1
    ensures Request(slabSize, capacity, options.cacheLine).Success? ==>
      var p := Request(slabSize, capacity, options.cacheLine).value;
      && 0 <= p.capacity <= MAX_INT32 && p.slabSize >= 0 && p.alignedSize >= 0
      && (Configure(slabSize, capacity, options) == Failure(ShardPanic) <==>
            exists id: nat :: id < p.capacity && PlacementPanics(id, RowCount(ShardCount(options)), p.alignedSize))
      && (Configure(slabSize, capacity, options) != Failure(ShardPanic) ==>
            Configure(slabSize, capacity, options).Success? && ValidConfig(Configure(slabSize, capacity, options).value))
  {
    if Request(slabSize, capacity, options.cacheLine).Success? {
      var p := Request(slabSize, capacity, options.cacheLine).value;
      AcceptedPlanIsSound(slabSize, capacity, options.cacheLine);
      LineIsMultipleOf32(p.alignedSize, options.cacheLine);
      PlacementsFitExactlyWhen(ShardCount(options), p.capacity, p.alignedSize);
      NextPowerOfTwoIsLeast(options.cpus);
      hide Request, RowCount, NextPowerOfTwo, PlacementPanics, IsPow2;
      if ShardCount(options) <= MAX_SHARDS {
        SmallRowCount(ShardCount(options));
      }
    }
  }

  /** The configuration is the one asked for: the capacity, the size as an int32 and its least
      multiple of the cache line, as many caches as the next power of two of CPUs or none, as
      many rows as the next power of two of shards, and the options as they are. */
  ghost predicate AsAsked(cfg: Config, slabSize: int, capacity: int, options: Options)
    requires options.cacheLine > 0
  {
    var g := cfg.geometry;
    && Fulfils(Plan(g.slabSize, g.alignedSize, g.capacity), slabSize, capacity, options.cacheLine)
    && (if options.cached then IsLeastPow2(cfg.cacheCount, options.cpus) else cfg.cacheCount == 0)
    && IsLeastPow2(cfg.rows, if options.shardCount > 0 then options.shardCount % 0x1_0000_0000 else options.cpus)
    && cfg.fallback == options.fallback && cfg.breaker == options.breaker
  }

  lemma ConfiguredAsAsked(slabSize: int, capacity: int, options: Options)
    requires IsCacheLine(options.cacheLine) && options.cpus <= TWO_31
    requires Request(slabSize, capacity, options.cacheLine).Success? ==>
      var p := Request(slabSize, capacity, options.cacheLine).value;
      p.capacity >= 0 && p.slabSize >= 0 && p.alignedSize >= 0
    ensures Configure(slabSize, capacity, options).Success? ==>
      AsAsked(Configure(slabSize, capacity, options).value, slabSize, capacity, options)
  {
    RequestAnswers(slabSize, capacity, options.cacheLine);
    NextPowerOfTwoIsLeast(options.cpus);
    if ShardCount(options) <= MAX_SHARDS {
      NextPowerOfTwoIsLeast(ShardCount(options));
    }
    if options.shardCount <= 0 {
      ModIsUnique(options.cpus, TWO_32, 0, options.cpus);
    }
    hide Request, Fulfils, NextPowerOfTwo, IsLeastPow2;
  }

  /** The error of a request, or none. */
  lemma ConfigureAnswers(slabSize: int, capacity: int, options: Options)
    requires IsCacheLine(options.cacheLine) && options.cpus <= TWO_31
    requires Request(slabSize, capacity, options.cacheLine).Success? ==>
      var p := Request(slabSize, capacity, options.cacheLine).value;
      p.capacity >= 0 && p.slabSize >= 0 && p.alignedSize >= 0
    ensures var r := Configure(slabSize, capacity, options);
      && (r == Failure(InvalidSlabSize) <==> slabSize <= 0)
      && (r == Failure(InvalidCapacity) <==> slabSize > 0 && capacity <= 0)
      && (r == Failure(CapacityExceeded) <==> slabSize > 0 && capacity > 0x7FFF_FFFF)
      && (r == Failure(MemoryOverflow) <==>
            slabSize > 0 && 0 < capacity <= 0x7FFF_FFFF && forall p :: !Fulfils(p, slabSize, capacity, options.cacheLine))
      && (r == Failure(ShardPanic) <==>
            (exists p :: Fulfils(p, slabSize, capacity, options.cacheLine))
            && (if options.shardCount > 0 then options.shardCount % 0x1_0000_0000 else options.cpus) > 0x800_0000)
  {
    RequestAnswers(slabSize, capacity, options.cacheLine);
    if options.shardCount <= 0 {
      ModIsUnique(options.cpus, TWO_32, 0, options.cpus);
    }
    if exists p :: Fulfils(p, slabSize, capacity, options.cacheLine) {
      var p :| Fulfils(p, slabSize, capacity, options.cacheLine);
      FulfilledIsAccepted(p, slabSize, capacity, options.cacheLine);
    }
    hide Request, Fulfils, RowCount, NextPowerOfTwo;
  }

  lemma MultipleOfFactor(x: int, k: nat, m: nat, c: nat)
    requires k > 0 && m > 0 && c == k * m > 0 && x % c == 0
    ensures x % m == 0
  {
    ModOfMod(x, k, m);
  }

  lemma LineIsMultipleOf32(x: int, c: nat)
    requires IsCacheLine(c) && x % c == 0
    ensures x % 32 == 0
  {
    var k: nat :| 5 <= k <= 30 && c == Pow2(k);
    assert Pow2(5) == 32;
    hide Pow2, IsCacheLine;
    var rest: nat := k - 5;
    Pow2Adds(rest, 5);
    MultipleOfFactor(x, Pow2(rest), 32, c);
  }

  datatype State = State(pools: Pools, memory: seq<M.byte>, history: seq<Event>, secure: bool)

  /** Sizes that no operation changes. */
  ghost predicate Shaped(cfg: Config, s: State) {
    && ValidConfig(cfg)
    && WellFormed(s.pools)
    && |s.pools.inUse| == cfg.geometry.capacity
    && |s.pools.caches| == cfg.cacheCount
    && |s.pools.shards| == cfg.rows * COLOR_COUNT
    && M.Fits(cfg.geometry, s.memory)
  }

  lemma ShapedIsSized(cfg: Config, s: State)
    requires Shaped(cfg, s)
    ensures Sized(s.pools)
  {
  }

  ghost function New(cfg: Config, secure: bool): (s: State)
    requires ValidConfig(cfg)
    ensures Shaped(cfg, s)
  {
    State(Fresh(cfg.geometry.capacity, cfg.cacheCount, cfg.rows, cfg.geometry.alignedSize),
          Repeat(0, cfg.geometry.alignedSize * cfg.geometry.capacity), [], secure)
  }

  // ---- The breaker's part in every operation ----

  ghost function Refuses(cfg: Config, s: State, now: int): bool {
    cfg.breaker.Some? && Check(After(cfg.breaker.value, s.history), cfg.breaker.value, now).1
  }

  ghost function Note(cfg: Config, s: State, e: Event): (r: State)
    ensures r == s.(history := r.history)
    ensures Shaped(cfg, s) ==> Shaped(cfg, r)
  {
    if cfg.breaker.None? then s else s.(history := s.history + [e])
  }

  // ---- Operations ----

  /** One call's view of the outside: CPU numbers and shard starts, drawn anew each time
      they are needed, and the two clock readings of the breaker. */
  datatype Outside = Outside(cpu: nat -> nat, start: nat -> nat, checkedAt: int, recordedAt: int)

  ghost function AllocateFast(cfg: Config, s: State, o: Outside): (r: (State, Result<int, Error>))
    requires Shaped(cfg, s)
    ensures Shaped(cfg, r.0) && r.0.memory == s.memory && r.0.secure == s.secure
  {
    var s1 := Note(cfg, s, Checked(o.checkedAt));
    if Refuses(cfg, s, o.checkedAt) then (s1, Failure(CircuitBreakerOpen))
    else
      var c := Acquire(s.pools, o.cpu, o.start);
      var s2 := s1.(pools := c.pools);
      match c.slot
      case Some(id) => (Note(cfg, s2, Succeeded), Success(id))
      case None => (Note(cfg, s2, Failed(o.recordedAt)), Failure(OutOfMemory))
  }

  ghost predicate IsSlab(cfg: Config, id: int) {
    0 <= id < cfg.geometry.capacity
  }

  /** What a slab reference stands for. */
  datatype Backing = Slab(id: int) | Heap

  ghost predicate AllSlabs(cfg: Config, ids: seq<int>) {
    forall i :: 0 <= i < |ids| ==> IsSlab(cfg, ids[i])
  }

  ghost predicate AllInRange(cfg: Config, backings: seq<Backing>) {
    forall i :: 0 <= i < |backings| && backings[i].Slab? ==> IsSlab(cfg, backings[i].id)
  }

  /** Unlike AllocateFast, a success is not reported to the breaker. */
  ghost function Allocate(cfg: Config, s: State, o: Outside): (r: (State, Result<Backing, Error>))
    requires Shaped(cfg, s)
    ensures Shaped(cfg, r.0) && r.0.memory == s.memory && r.0.secure == s.secure
    ensures r.1.Success? && r.1.value.Slab? ==> IsSlab(cfg, r.1.value.id)
  {
    var s1 := Note(cfg, s, Checked(o.checkedAt));
    if Refuses(cfg, s, o.checkedAt) then (s1, Failure(CircuitBreakerOpen))
    else
      var c := Acquire(s.pools, o.cpu, o.start);
      var s2 := s1.(pools := c.pools);
      match c.slot
      case Some(id) => (s2, Success(Slab(id)))
      case None =>
        if cfg.fallback then (s2, Success(Heap))
        else (Note(cfg, s2, Failed(o.recordedAt)), Failure(OutOfMemory))
  }

  /** The outcome of a batch: the references granted, and an error beside them if short. */
  datatype Granted = Granted(refs: seq<Backing>, error: Option<Error>)

  /** References to the slabs claimed, then heap blocks up to the total. */
  function References(cfg: Config, ids: seq<int>, total: nat): (r: seq<Backing>)
    requires |ids| <= total && AllSlabs(cfg, ids)
    ensures |r| == total && AllInRange(cfg, r)
    ensures forall i :: 0 <= i < total ==> r[i] == if i < |ids| then Slab(ids[i]) else Heap
  {
    seq(total, i requires 0 <= i < total => if i < |ids| then Slab(ids[i]) else Heap)
  }

  /** The slabs a batch claims. */
  ghost function ClaimBatch(cfg: Config, s: State, n: nat, o: Outside): (r: (State, seq<int>))
    requires Shaped(cfg, s)
    ensures Shaped(cfg, r.0) && r.0 == s.(pools := r.0.pools) && |r.1| <= n
    ensures AllSlabs(cfg, r.1)
  {
    var b := AcquireBatch(s.pools, n, o.cpu, o.start);
    InOrderMeans(s.pools.inUse, b.ids, b.pools.inUse);
    (s.(pools := b.pools), b.ids)
  }

  ghost function GrantBatch(cfg: Config, s: State, n: nat, o: Outside): (r: (State, Granted))
    requires Shaped(cfg, s)
    ensures Shaped(cfg, r.0) && r.0.memory == s.memory && r.0.secure == s.secure
    ensures AllInRange(cfg, r.1.refs)
  {
    var c := ClaimBatch(cfg, s, n, o);
    hide ClaimBatch, AllSlabs, AllInRange, Shaped, Note;
    var refs := References(cfg, c.1, if cfg.fallback then n else |c.1|);
    if |refs| == 0 then (Note(cfg, c.0, Failed(o.recordedAt)), Granted([], Some(OutOfMemory)))
    else (c.0, Granted(refs, if |refs| < n then Some(PartialBatch) else None))
  }

  ghost function BatchAllocate(cfg: Config, s: State, n: int, o: Outside): (r: (State, Granted))
    requires Shaped(cfg, s)
    ensures Shaped(cfg, r.0) && r.0.memory == s.memory && r.0.secure == s.secure
    ensures AllInRange(cfg, r.1.refs)
  {
    if n <= 0 || n > MAX_BATCH_SIZE then (s, Granted([], Some(InvalidBatchSize)))
    else
      var s1 := Note(cfg, s, Checked(o.checkedAt));
      if Refuses(cfg, s, o.checkedAt) then (s1, Granted([], Some(CircuitBreakerOpen)))
      else
        hide GrantBatch;
        GrantBatch(cfg, s1, n, o)
  }

  /** Clear the slab if secure, put it back, and tell the breaker. */
  ghost function Recycle(cfg: Config, s: State, id: int, draw: nat): (r: State)
    requires Shaped(cfg, s) && IsSlab(cfg, id)
    ensures Shaped(cfg, r) && r.secure == s.secure
  {
    var s1 := s.(memory := M.ZeroIf(s.secure, cfg.geometry, s.memory, id),
                 pools := Release(s.pools, id, draw, cfg.geometry.alignedSize));
    Note(cfg, s1, Succeeded)
  }

  ghost function DeallocateFast(cfg: Config, s: State, id: int, draw: nat): (r: (State, Option<Error>))
    requires Shaped(cfg, s)
    ensures Shaped(cfg, r.0) && r.0.secure == s.secure
  {
    if !IsSlab(cfg, id) then (s, Some(InvalidSlabID))
    else if !s.pools.inUse[id] then (s, Some(DoubleDeallocation))
    else (Recycle(cfg, s, id, draw), None)
  }

  ghost function Reset(cfg: Config, s: State): (r: State)
    requires Shaped(cfg, s)
    ensures Shaped(cfg, r) && r.secure == s.secure
  {
    Note(cfg,
         State(Fresh(cfg.geometry.capacity, cfg.cacheCount, cfg.rows, cfg.geometry.alignedSize),
               if s.secure then M.ZeroFirst(cfg.geometry, s.memory, cfg.geometry.capacity) else s.memory,
               s.history, s.secure),
         WasCleared)
  }

  /** After any run, Reset leaves the pools of a newly built allocator, shard by shard and
      in order, and a closed breaker with zero counts. */
  lemma ResetRestoresNew(cfg: Config, s: State, secure: bool)
    requires Shaped(cfg, s)
    ensures Reset(cfg, s).pools == New(cfg, secure).pools
    ensures cfg.breaker.Some? ==>
      var b := After(cfg.breaker.value, Reset(cfg, s).history);
      b.mode == Closed && b.failures == 0 && b.successes == 0
    ensures s.secure ==> forall id :: IsSlab(cfg, id) ==>
      M.AllZero(M.Window(cfg.geometry, Reset(cfg, s).memory, id))
  {
    if cfg.breaker.Some? {
      assert (s.history + [WasCleared])[..|s.history|] == s.history;
    }
    if s.secure {
      forall id | IsSlab(cfg, id) ensures M.AllZero(M.Window(cfg.geometry, Reset(cfg, s).memory, id)) {
        M.ZeroFirstClears(cfg.geometry, s.memory, cfg.geometry.capacity, id);
      }
    }
  }

  // ---- Single calls and the flags ----

  /** The outcomes of the two single allocations, spelled out. */
  lemma AllocateFastUnfolds(cfg: Config, s: State, o: Outside)
    requires Shaped(cfg, s)
    ensures WellFormed(s.pools)
    ensures var c, checked := Acquire(s.pools, o.cpu, o.start), Note(cfg, s, Checked(o.checkedAt));
      var s2 := checked.(pools := c.pools);
      AllocateFast(cfg, s, o)
        == if Refuses(cfg, s, o.checkedAt) then (checked, Failure(CircuitBreakerOpen))
           else if c.slot.Some? then (Note(cfg, s2, Succeeded), Success(c.slot.value))
           else (Note(cfg, s2, Failed(o.recordedAt)), Failure(OutOfMemory))
  {
    hide Acquire, WellFormed, Refuses;
  }

  lemma AllocateUnfolds(cfg: Config, s: State, o: Outside)
    requires Shaped(cfg, s)
    ensures WellFormed(s.pools)
    ensures var c, checked := Acquire(s.pools, o.cpu, o.start), Note(cfg, s, Checked(o.checkedAt));
      var s2 := checked.(pools := c.pools);
      Allocate(cfg, s, o)
        == if Refuses(cfg, s, o.checkedAt) then (checked, Failure(CircuitBreakerOpen))
           else if c.slot.Some? then (s2, Success(Slab(c.slot.value)))
           else if cfg.fallback then (s2, Success(Heap))
           else (Note(cfg, s2, Failed(o.recordedAt)), Failure(OutOfMemory))
  {
    hide Acquire, WellFormed, Refuses;
  }

  lemma AllocateFastClaims(cfg: Config, s: State, o: Outside)
    requires Shaped(cfg, s)
    ensures var (s1, r) := AllocateFast(cfg, s, o);
      && (Covers(s.pools) ==> Covers(s1.pools))
      && (r.Success? ==> IsSlab(cfg, r.value) && !s.pools.inUse[r.value]
                         && s1.pools.inUse == s.pools.inUse[r.value := true])
      && (r.Failure? ==> s1.pools.inUse == s.pools.inUse)
  {
    hide Covers, Exact, Bag, WellFormed, Acquire;
  }

  lemma AllocateClaims(cfg: Config, s: State, o: Outside)
    requires Shaped(cfg, s) && !cfg.fallback
    ensures var (s1, r) := Allocate(cfg, s, o);
      && (Covers(s.pools) ==> Covers(s1.pools))
      && (r.Success? ==> r.value.Slab? && IsSlab(cfg, r.value.id) && !s.pools.inUse[r.value.id]
                         && s1.pools.inUse == s.pools.inUse[r.value.id := true])
      && (r.Failure? ==> s1.pools.inUse == s.pools.inUse)
  {
    hide Covers, Exact, Bag, WellFormed, Acquire;
  }

  lemma DeallocateFastFrees(cfg: Config, s: State, id: int, draw: nat)
    requires Shaped(cfg, s) && IsSlab(cfg, id) && s.pools.inUse[id]
    ensures var (s1, e) := DeallocateFast(cfg, s, id, draw);
      && e.None? && s1.pools.inUse == s.pools.inUse[id := false]
      && (Covers(s.pools) ==> Covers(s1.pools))
  {
    ReleaseKeepsListing(s.pools, id, draw, cfg.geometry.alignedSize);
    hide Covers, Exact, Bag, WellFormed, Release;
  }

  // ---- Runs ----

  /** A reference object: what it was last issued for, and whether it was released since. */
  datatype Ref = Ref(backing: Backing, live: bool)

  /** The allocator and the reference objects issued since the last Reset. A released object
      may be issued again, so that whoever still has it holds the newer reference. */
  datatype World = World(state: State, refs: seq<Ref>)

  datatype Op =
    | DoAllocate(o: Outside, reuse: nat)
    | DoAllocateFast(o: Outside)
    | DoBatch(n: int, o: Outside, picks: nat -> nat)
    | DoDeallocate(r: nat, draw: nat)
    | DoDeallocateFast(id: int, draw: nat)
    | DoStore(id: int, i: nat, v: M.byte)
    | DoSecure
    | DoReset

  /** The rules callers keep: only references issued since the last Reset are released, any
      number of times, a slab held through a live reference is not freed by its ID, and bytes
      are only stored through slabs in use. */
  ghost predicate Allowed(cfg: Config, w: World, op: Op) {
    match op
    case DoDeallocate(r, _) => r < |w.refs|
    case DoDeallocateFast(id, _) => forall r :: 0 <= r < |w.refs| && w.refs[r].live ==> w.refs[r].backing != Slab(id)
    case DoStore(id, i, _) => IsSlab(cfg, id) && |w.state.pools.inUse| == cfg.geometry.capacity
                              && w.state.pools.inUse[id] && i < cfg.geometry.slabSize
    case _ => true
  }

  /** createSlabRef: the given object, if it was released, or a new one. */
  ghost function Issue(refs: seq<Ref>, backing: Backing, reuse: nat): (r: seq<Ref>) {
    var ref := Ref(backing, true);
    if reuse < |refs| && !refs[reuse].live then refs[reuse := ref] else refs + [ref]
  }

  lemma IssueInRange(cfg: Config, refs: seq<Ref>, backing: Backing, reuse: nat)
    requires AllRefsInRange(cfg, refs) && (backing.Slab? ==> IsSlab(cfg, backing.id))
    ensures AllRefsInRange(cfg, Issue(refs, backing, reuse))
  {
  }

  /** One object after the other, the choices from number k on. */
  ghost function IssueAll(refs: seq<Ref>, backings: seq<Backing>, reuse: nat -> nat, k: nat): (r: seq<Ref>)
    decreases |backings|
  {
    if backings == [] then refs else IssueAll(Issue(refs, backings[0], reuse(k)), backings[1..], reuse, k + 1)
  }

  lemma {:induction false} IssueAllInRange(cfg: Config, refs: seq<Ref>, backings: seq<Backing>, reuse: nat -> nat, k: nat)
    requires AllRefsInRange(cfg, refs) && AllInRange(cfg, backings)
    ensures AllRefsInRange(cfg, IssueAll(refs, backings, reuse, k))
    decreases |backings|
  {
    if backings != [] {
      IssueAllInRange(cfg, Issue(refs, backings[0], reuse(k)), backings[1..], reuse, k + 1);
    }
  }

  ghost function Step(cfg: Config, w: World, op: Op): (r: World)
    requires Shaped(cfg, w.state) && Allowed(cfg, w, op) && RefsInRange(cfg, w)
    ensures Shaped(cfg, r.state) && RefsInRange(cfg, r)
  {
    hide Issue, IssueAll, Allocate, BatchAllocate;
    var s := w.state;
    match op
    case DoAllocate(o, reuse) =>
      var (s1, got) := Allocate(cfg, s, o);
      if got.Failure? then World(s1, w.refs)
      else
        IssueInRange(cfg, w.refs, got.value, reuse);
        World(s1, Issue(w.refs, got.value, reuse))
    case DoAllocateFast(o) => World(AllocateFast(cfg, s, o).0, w.refs)
    case DoBatch(n, o, reuse) =>
      var (s1, granted) := BatchAllocate(cfg, s, n, o);
      IssueAllInRange(cfg, w.refs, granted.refs, reuse, 0);
      World(s1, IssueAll(w.refs, granted.refs, reuse, 0))
    case DoDeallocate(r, draw) =>
      var ref := w.refs[r];
      if !ref.live then w
      else
        World(if ref.backing.Heap? then s else Recycle(cfg, s, ref.backing.id, draw), w.refs[r := ref.(live := false)])
    case DoDeallocateFast(id, draw) => World(DeallocateFast(cfg, s, id, draw).0, w.refs)
    case DoStore(id, i, v) => World(s.(memory := M.Store(cfg.geometry, s.memory, id, i, v)), w.refs)
    case DoSecure => World(s.(secure := true), w.refs)
    case DoReset => World(Reset(cfg, s), [])
  }

  ghost predicate AllRefsInRange(cfg: Config, refs: seq<Ref>) {
    forall r :: 0 <= r < |refs| && refs[r].backing.Slab? ==> IsSlab(cfg, refs[r].backing.id)
  }

  ghost predicate RefsInRange(cfg: Config, w: World) {
    AllRefsInRange(cfg, w.refs)
  }

  /** The world after a run from a new allocator; an operation that is not allowed is skipped. */
  ghost function Run(cfg: Config, secure: bool, ops: seq<Op>): (w: World)
    requires ValidConfig(cfg)
    ensures Shaped(cfg, w.state) && RefsInRange(cfg, w)
  {
    if ops == [] then World(New(cfg, secure), [])
    else
      var w := Run(cfg, secure, ops[..|ops| - 1]);
      var op := ops[|ops| - 1];
      if Allowed(cfg, w, op) then Step(cfg, w, op) else w
  }

  lemma RunNext(cfg: Config, secure: bool, ops: seq<Op>, op: Op)
    requires ValidConfig(cfg)
    ensures var w := Run(cfg, secure, ops);
      Run(cfg, secure, ops + [op]) == if Allowed(cfg, w, op) then Step(cfg, w, op) else w
  {
    assert (ops + [op])[..|ops|] == ops;
    hide Allowed, Step;
  }
}
