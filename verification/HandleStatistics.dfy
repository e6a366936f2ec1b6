/** When the handle statistics count every handle: the slow path, which is not counted, is
    taken in some run exactly if there is a breaker or more than one cache. */
module HandleStatistics {
  import opened Bags
  import opened Breaker
  import opened Claims
  import opened H = Handles
  import opened Pools
  import opened Wrappers
  import A = Allocator
  import R = AllocatorRuns
  import S = Stranding

  ghost predicate Wrapping(cfg: A.Config) {
    A.ValidConfig(cfg) && !cfg.fallback
  }

  // ---- Without breaker and with at most one cache the slow path never succeeds ----

  /** If the fast path finds nothing, every slab is in use, and the slow path finds nothing. */
  lemma SlowFailsToo(cfg: A.Config, s: A.State, o1: A.Outside, o2: A.Outside)
    requires A.Shaped(cfg, s) && Covers(s.pools) && !cfg.fallback
    requires cfg.breaker.None? && cfg.cacheCount <= 1
    requires A.AllocateFast(cfg, s, o1).1.Failure?
    ensures A.Allocate(cfg, A.AllocateFast(cfg, s, o1).0, o2).1.Failure?
  {
    hide A.AllocateFast, A.Allocate, A.Shaped, WellFormed, Covers;
    if FreeCount(s.pools.inUse) > 0 {
      FastSucceeds(cfg, s, o1);
    }
    R.PoolsOf(cfg, s);
    hide FreeCount;
    NoneFree(s.pools.inUse);
    A.AllocateFastClaims(cfg, s, o1);
    A.AllocateClaims(cfg, A.AllocateFast(cfg, s, o1).0, o2);
  }

  /** How many handles and slow allocations one allocation adds. */
  lemma AllocateCounts(cfg: A.Config, w: World, o1: A.Outside, o2: A.Outside)
    requires H.Sized(cfg, w) && Good(w)
    ensures var r, w1 := AllocateHandle(cfg, w.state, o1, o2), Step(cfg, w, DoAllocate(o1, o2));
      && w1.state == r.0
      && (r.1.Failure? ==> w1 == w.(state := r.0))
      && (r.1.Success? ==>
            var slab := SlabOf(r.1.value);
            && 0 <= slab < |w.allocations|
            && w1.slow == w.slow + (if A.AllocateFast(cfg, w.state.slab, o1).1.Success? then 0 else 1)
            && w1.issued == w.issued + [Issue(r.1.value, slab, w1.allocations[slab])])
  {
    hide A.AllocateFast, A.Allocate, A.Shaped, AllocateHandle, Covers, FreeCount, Pack, SlabOf, GoodSlab, GoodIssue;
    SizesMatch(cfg, w.state);
    var e := AllocateEffect(cfg, w.state, o1, o2);
    hide Shaped;
  }

  lemma AllocateStaysFast(cfg: A.Config, w: World, o1: A.Outside, o2: A.Outside)
    requires H.Sized(cfg, w) && Good(w) && cfg.breaker.None? && cfg.cacheCount <= 1
    ensures Step(cfg, w, DoAllocate(o1, o2)).slow == w.slow
  {
    hide A.AllocateFast, A.Allocate, A.Shaped, AllocateHandle, FreeCount, GoodSlab, GoodIssue, SlabOf, Covers, Step;
    AllocateCounts(cfg, w, o1, o2);
    AllocateHandleUnfolds(cfg, w.state, o1, o2);
    SizesMatch(cfg, w.state);
    hide H.Sized, Shaped, Good;
    if A.AllocateFast(cfg, w.state.slab, o1).1.Failure? {
      SlowFailsToo(cfg, w.state.slab, o1, o2);
    }
  }

  lemma StepStaysFast(cfg: A.Config, w: World, op: Op)
    requires H.Sized(cfg, w) && Good(w) && cfg.breaker.None? && cfg.cacheCount <= 1
    ensures Step(cfg, w, op).slow == w.slow
  {
    match op
    case DoAllocate(o1, o2) =>
      hide Step, Good, H.Sized;
      AllocateStaysFast(cfg, w, o1, o2);
    case DoFree(_, _) => hide FreeHandle, A.Shaped, Good;
    case DoGetBytes(_) => hide GetBytes, A.Shaped, Good;
  }

  lemma {:induction false} RunStaysFast(cfg: A.Config, secure: bool, ops: seq<Op>)
    requires Wrapping(cfg) && cfg.breaker.None? && cfg.cacheCount <= 1
    ensures Run(cfg, secure, ops).slow == 0
  {
    hide Good, Step, H.Sized;
    if ops != [] {
      var n := |ops| - 1;
      RunStaysFast(cfg, secure, ops[..n]);
      EveryRunGood(cfg, secure, ops[..n]);
      StepStaysFast(cfg, Run(cfg, secure, ops[..n]), ops[n]);
    }
  }

  // ---- Filling the allocator ----

  const FIRST: A.Outside := S.FIRST

  /** n handles were issued on the fast path, everything else is in the shards, and no
      failure was recorded. The last handle is the last allocation of its slab. */
  ghost predicate Filling(cfg: A.Config, n: nat, w: World) {
    var p := w.state.slab.pools;
    && |w.issued| == n && w.slow == 0
    && |p.caches| == cfg.cacheCount && p.stack == [] && Exact(p) && S.Quiet(w.state.slab)
    && (forall c :: 0 <= c < |p.caches| ==> p.caches[c] == [])
    && FreeCount(p.inUse) + n == cfg.geometry.capacity
    && (n > 0 ==> LastIsCurrent(w))
  }

  ghost predicate LastIsCurrent(w: World) {
    && w.issued != []
    && var last := w.issued[|w.issued| - 1];
       && last.slab < |w.allocations| == |w.state.slab.pools.inUse|
       && w.allocations[last.slab] == last.number && w.state.slab.pools.inUse[last.slab]
  }

  ghost function FillHandles(n: nat): seq<Op> {
    if n == 0 then [] else FillHandles(n - 1) + [DoAllocate(FIRST, FIRST)]
  }

  lemma StartIsFilling(cfg: A.Config, secure: bool)
    requires Wrapping(cfg)
    ensures Filling(cfg, 0, Start(cfg, secure))
  {
    hide A.Shaped, Shaped, BagOf, FreeBag, FreeCount, Exact, Distributed, WellFormed;
    FreshIsExact(cfg.geometry.capacity, cfg.cacheCount, cfg.rows, cfg.geometry.alignedSize);
    AllFreeCount(cfg.geometry.capacity);
  }

  /** The slab level of one step of the filling. */
  lemma FastFills(cfg: A.Config, s: A.State)
    requires A.Shaped(cfg, s) && S.Quiet(s) && s.pools.stack == [] && Exact(s.pools) && FreeCount(s.pools.inUse) > 0
    requires forall c :: 0 <= c < |s.pools.caches| ==> s.pools.caches[c] == []
    ensures var (s1, r) := A.AllocateFast(cfg, s, FIRST);
      && r.Success? && s1.pools.stack == [] && s1.pools.caches == s.pools.caches && Exact(s1.pools)
      && S.Quiet(s1) && FreeCount(s1.pools.inUse) == FreeCount(s.pools.inUse) - 1
  {
    hide Acquire, Exact, Covers, FreeCount, GoodClaim, SameSizes, EmptyHanded, A.AllocateFast, A.Refuses, Bag;
    A.ShapedIsSized(cfg, s);
    S.QuietLetsThrough(cfg, s, FIRST.checkedAt);
    A.AllocateFastUnfolds(cfg, s, FIRST);
    hide A.Shaped;
    S.FillStep(s.pools);
    hide WellFormed;
  }

  lemma FillingStep(cfg: A.Config, n: nat, w: World)
    requires Wrapping(cfg) && H.Sized(cfg, w) && Good(w) && Filling(cfg, n, w) && n < cfg.geometry.capacity
    ensures Filling(cfg, n + 1, Step(cfg, w, DoAllocate(FIRST, FIRST)))
  {
    hide A.AllocateFast, A.Allocate, A.Shaped, AllocateHandle, Covers, FreeCount, Exact, Pack, GoodSlab, GoodIssue,
         S.Quiet, WellFormed, Bag, SlabOf, A.ValidConfig;
    SizesMatch(cfg, w.state);
    FastFills(cfg, w.state.slab);
    AllocateHandleUnfolds(cfg, w.state, FIRST, FIRST);
    AllocateCounts(cfg, w, FIRST, FIRST);
    var e := StepMoves(cfg, w, DoAllocate(FIRST, FIRST));
    hide Shaped, H.Sized, Step;
  }

  lemma {:induction false} AfterFilling(cfg: A.Config, secure: bool, n: nat)
    requires Wrapping(cfg) && n <= cfg.geometry.capacity
    ensures Filling(cfg, n, Run(cfg, secure, FillHandles(n)))
  {
    hide Filling, Step, H.Sized, Good, A.ValidConfig, Run, Start;
    if n == 0 {
      RunNothing(cfg, secure);
      StartIsFilling(cfg, secure);
    } else {
      var m: nat := n - 1;
      var before := FillHandles(m);
      AfterFilling(cfg, secure, m);
      EveryRunGood(cfg, secure, before);
      RunNext(cfg, secure, before, DoAllocate(FIRST, FIRST));
      FillingStep(cfg, m, Run(cfg, secure, before));
    }
  }

  // ---- An allocator with nothing left ----

  /** A caller that draws the first cache and the first row, at time t. */
  ghost function At(t: int): A.Outside {
    A.Outside(FIRST.cpu, FIRST.start, t, 0)
  }

  ghost predicate Empty(p: Pools) {
    && p.stack == [] && (forall c :: 0 <= c < |p.caches| ==> p.caches[c] == [])
    && (forall j :: 0 <= j < |p.shards| ==> p.shards[j] == [])
  }

  /** Nothing is found if the shards, the stack and the drawn cache are empty. */
  lemma NothingToFind(p: Pools, t: int)
    requires WellFormed(p) && p.stack == [] && (p.caches != [] ==> p.caches[0] == [])
    requires forall j :: 0 <= j < |p.shards| ==> p.shards[j] == []
    ensures var c := Acquire(p, At(t).cpu, At(t).start);
      c.slot.None? && c.pools == p
  {
    S.EmptyCachesGiveNothing(p);
    hide WellFormed, Acquire, GoodClaim;
    assert ShardGet(p, FIRST.start(0)).slot.None?;
  }

  /** The slab on top of the drawn cache is found if it is free. */
  lemma FoundInCache(p: Pools, cpu: nat -> nat, start: nat -> nat, id: int)
    requires WellFormed(p) && p.caches != [] && p.caches[CacheIndex(cpu(0), |p.caches|)] == [id]
    requires 0 <= id < |p.inUse| && !p.inUse[id]
    ensures Acquire(p, cpu, start).slot == Some(id)
  {
    hide WellFormed, CacheIndex, GoodClaim, AcquireShared;
  }

  lemma FoundOnStack(p: Pools, cpu: nat -> nat, start: nat -> nat, id: int)
    requires WellFormed(p) && p.caches == [] && p.stack == [id] && 0 <= id < |p.inUse| && !p.inUse[id]
    ensures Acquire(p, cpu, start).slot == Some(id)
  {
    hide WellFormed, GoodClaim, ClaimFromShards;
  }

  /** Freeing the last handle puts its slab back and tells the breaker. */
  lemma FreeLast(cfg: A.Config, w: World, k: nat, draw: nat)
    requires H.Sized(cfg, w) && Good(w) && LastIsCurrent(w) && k == |w.issued| - 1
    ensures var slab, s, w1 := w.issued[k].slab, w.state.slab, Step(cfg, w, DoFree(k, draw));
      && WellFormed(s.pools) && slab < |s.pools.inUse|
      && w1.issued == w.issued && w1.slow == w.slow
      && w1.state.slab.pools == Release(s.pools, slab, draw, cfg.geometry.alignedSize)
      && w1.state.slab.history == (if cfg.breaker.None? then s.history else s.history + [Succeeded])
  {
    hide FreeCount, Covers, GoodSlab, GoodIssue, FreeHandle, SlabOf, GenerationOf, Release, WellFormed;
    IssueUnpacks(w, k);
    MatchesExactlyWhen(w, k);
    SizesMatch(cfg, w.state);
    FreeHandleUnfolds(cfg, w.state, w.issued[k].id, draw);
    FreedState(cfg, w.state.slab, w.issued[k].slab, draw);
    hide A.Shaped, Shaped, Good, A.DeallocateFast;
  }

  lemma FreedState(cfg: A.Config, s: A.State, id: int, draw: nat)
    requires A.Shaped(cfg, s) && A.IsSlab(cfg, id) && s.pools.inUse[id]
    ensures WellFormed(s.pools) && id < |s.pools.inUse|
    ensures var r := A.DeallocateFast(cfg, s, id, draw);
      && r.1.None? && r.0.pools == Release(s.pools, id, draw, cfg.geometry.alignedSize)
      && r.0.history == (if cfg.breaker.None? then s.history else s.history + [Succeeded])
  {
    hide Release, WellFormed;
  }

  lemma ReleaseToStack(p: Pools, id: int, draw: nat, alignedSize: nat)
    requires WellFormed(p) && 0 <= id < |p.inUse| && p.caches == [] && p.stack == []
    ensures Release(p, id, draw, alignedSize) == p.(inUse := p.inUse[id := false], stack := [id])
  {
    hide WellFormed;
  }

  /** If the fast path fails and the slow path then succeeds, the statistics miss a handle. */
  lemma SlowIsMissed(cfg: A.Config, w: World, o1: A.Outside, o2: A.Outside)
    requires H.Sized(cfg, w) && Good(w)
    requires var (s1, fast) := A.AllocateFast(cfg, w.state.slab, o1);
      fast.Failure? && A.Allocate(cfg, s1, o2).1.Success?
    ensures Step(cfg, w, DoAllocate(o1, o2)).slow == w.slow + 1
  {
    hide A.AllocateFast, A.Allocate, A.Shaped, AllocateHandle, Good, SlabOf, Covers, Step;
    AllocateCounts(cfg, w, o1, o2);
    AllocateHandleUnfolds(cfg, w.state, o1, o2);
  }

  lemma FullIsEmpty(cfg: A.Config, w: World)
    requires H.Sized(cfg, w) && Filling(cfg, cfg.geometry.capacity, w)
    ensures Empty(w.state.slab.pools) && LastIsCurrent(w) && w.issued != []
  {
    hide FreeCount, Exact, WellFormed, LastIsCurrent;
    SizesMatch(cfg, w.state);
    R.PoolsOf(cfg, w.state.slab);
    S.EmptyShards(w.state.slab.pools);
  }

  // ---- With two caches the slow path can succeed ----

  /** A caller that draws the second cache. */
  const SECOND: A.Outside := A.Outside(_ => 1, FIRST.start, 0, 0)

  /** The last handle's slab, freed into the second cache: the fast path draws the first
      cache and misses it, the slow path draws the second and finds it. */
  lemma MissedThenFound(cfg: A.Config, s: A.State, id: int)
    requires A.Shaped(cfg, s) && !cfg.fallback && cfg.breaker.None? && cfg.cacheCount >= 2
    requires s.pools.stack == [] && forall j :: 0 <= j < |s.pools.shards| ==> s.pools.shards[j] == []
    requires |s.pools.caches| == cfg.cacheCount && s.pools.caches[0] == [] && s.pools.caches[1] == [id]
    requires 0 <= id < |s.pools.inUse| && !s.pools.inUse[id]
    ensures var (s1, fast) := A.AllocateFast(cfg, s, FIRST);
      fast.Failure? && A.Allocate(cfg, s1, SECOND).1.Success?
  {
    hide Acquire, WellFormed, A.AllocateFast, A.Allocate, GoodClaim, SameSizes, EmptyHanded, Exact, Covers, CacheIndex;
    A.AllocateFastUnfolds(cfg, s, FIRST);
    NothingToFind(s.pools, 0);
    var s1 := A.AllocateFast(cfg, s, FIRST).0;
    assert s1.pools == s.pools;
    A.AllocateUnfolds(cfg, s1, SECOND);
    A.ShapedIsSized(cfg, s);
    S.ModItself(1, cfg.cacheCount);
    hide A.Shaped;
    FoundInCache(s.pools, SECOND.cpu, SECOND.start, id);
  }

  /** With two caches: allocate everything, free one slab into the second cache, and ask on a
      CPU of the first; the fast path finds nothing, the slow path asks the second cache. */
  lemma TwoCachesTakeSlowPath(cfg: A.Config, secure: bool) returns (ops: seq<Op>)
    requires Wrapping(cfg) && cfg.breaker.None? && cfg.cacheCount >= 2
    ensures Run(cfg, secure, ops).slow == 1
  {
    hide Good, H.Sized, Filling, Step, A.ValidConfig, LastIsCurrent, Release, Run, FillHandles;
    hide A.AllocateFast, A.Allocate;
    var full := FillHandles(cfg.geometry.capacity);
    AfterFilling(cfg, secure, cfg.geometry.capacity);
    EveryRunGood(cfg, secure, full);
    var w := Run(cfg, secure, full);
    FullIsEmpty(cfg, w);
    var last: nat := |w.issued| - 1;
    FreeLast(cfg, w, last, 1);
    var freed := full + [DoFree(last, 1)];
    RunNext(cfg, secure, full, DoFree(last, 1));
    var w1 := Run(cfg, secure, freed);
    EveryRunGood(cfg, secure, freed);
    IntoSecondCache(cfg, w, w1);
    SlowIsMissed(cfg, w1, FIRST, SECOND);
    RunNext(cfg, secure, freed, DoAllocate(FIRST, SECOND));
    ops := freed + [DoAllocate(FIRST, SECOND)];
    FillingIsFast(cfg, w);
  }

  lemma FillingIsFast(cfg: A.Config, w: World)
    requires Filling(cfg, cfg.geometry.capacity, w)
    ensures w.slow == 0
  {
  }

  lemma IntoSecondCache(cfg: A.Config, w: World, w1: World)
    requires H.Sized(cfg, w) && H.Sized(cfg, w1) && Filling(cfg, cfg.geometry.capacity, w) && Empty(w.state.slab.pools)
    requires LastIsCurrent(w) && cfg.breaker.None? && cfg.cacheCount >= 2 && WellFormed(w.state.slab.pools)
    requires var slab := w.issued[|w.issued| - 1].slab;
      w1.state.slab.pools == Release(w.state.slab.pools, slab, 1, cfg.geometry.alignedSize)
    ensures var (s1, fast) := A.AllocateFast(cfg, w1.state.slab, FIRST);
      fast.Failure? && A.Allocate(cfg, s1, SECOND).1.Success?
  {
    var p, slab := w.state.slab.pools, w.issued[|w.issued| - 1].slab;
    hide A.AllocateFast, A.Allocate, WellFormed, Release, S.Quiet, Exact, FreeCount, CacheIndex;
    SizesMatch(cfg, w1.state);
    SizesMatch(cfg, w.state);
    A.ShapedIsSized(cfg, w.state.slab);
    S.ModItself(1, cfg.cacheCount);
    hide A.Shaped, Shaped;
    S.ReleaseToCache(p, slab, 1, cfg.geometry.alignedSize);
    MissedThenFound(cfg, w1.state.slab, slab);
  }

  // ---- With a breaker the slow path can succeed ----

  /** The breaker is open, or closed with at least k failures, and all failures so far were
      recorded at time 0. */
  ghost predicate Failing(cfg: A.Config, h: seq<Event>, k: nat)
    requires cfg.breaker.Some?
  {
    var b := After(cfg.breaker.value, h);
    && (b.mode == Open || (b.mode == Closed && b.failures >= k))
    && forall i :: 0 <= i < |h| && h[i].Failed? ==> h[i].now == 0
  }

  lemma OneMoreFailure(cfg: A.Config, h: seq<Event>, k: nat, k1: nat)
    requires cfg.breaker.Some? && Failing(cfg, h, k) && k1 == k + 1
    ensures Check(After(cfg.breaker.value, h), cfg.breaker.value, 0).1 ==> Failing(cfg, h + [Checked(0)], k1)
    ensures !Check(After(cfg.breaker.value, h), cfg.breaker.value, 0).1 ==>
      Failing(cfg, h + [Checked(0)] + [Failed(0)], k1)
  {
    hide After, Check;
    OutageStep(cfg.breaker.value, h, 0, 0);
  }

  lemma FewerFailures(cfg: A.Config, h: seq<Event>, k: nat, k1: nat)
    requires cfg.breaker.Some? && Failing(cfg, h, k) && k1 <= k
    ensures Failing(cfg, h, k1)
  {
    hide After;
  }

  /** With nothing left, both single allocations fail, change no pool and bring the breaker
      closer to open. */
  lemma FailsOnceMore(cfg: A.Config, s: A.State, k: nat, k1: nat)
    requires A.Shaped(cfg, s) && cfg.breaker.Some? && !cfg.fallback && k1 == k + 1
    requires Empty(s.pools) && Failing(cfg, s.history, k)
    ensures var (s1, fast) := A.AllocateFast(cfg, s, FIRST);
      fast.Failure? && s1.pools == s.pools && Failing(cfg, s1.history, k1)
    ensures var (s1, slow) := A.Allocate(cfg, s, FIRST);
      slow.Failure? && s1.pools == s.pools && Failing(cfg, s1.history, k1)
  {
    hide Acquire, WellFormed, A.AllocateFast, A.Allocate, GoodClaim, SameSizes, EmptyHanded, Exact, Covers, Failing,
         After, Check;
    A.AllocateFastUnfolds(cfg, s, FIRST);
    A.AllocateUnfolds(cfg, s, FIRST);
    NothingToFind(s.pools, 0);
    hide A.Shaped;
    OneMoreFailure(cfg, s.history, k, k1);
  }

  /** What holds while an allocator with nothing left is asked for handles at time 0. */
  ghost predicate Outage(cfg: A.Config, k: nat, w: World)
    requires cfg.breaker.Some?
  {
    && w.slow == 0 && LastIsCurrent(w) && |w.state.slab.pools.caches| == cfg.cacheCount
    && Empty(w.state.slab.pools) && Failing(cfg, w.state.slab.history, k)
  }

  lemma OutageStarts(cfg: A.Config, w: World)
    requires cfg.breaker.Some? && H.Sized(cfg, w) && Filling(cfg, cfg.geometry.capacity, w)
    ensures Outage(cfg, 0, w)
  {
    hide FreeCount, Exact, WellFormed, LastIsCurrent, Empty, After;
    FullIsEmpty(cfg, w);
    NoFailureNoChange(cfg.breaker.value, w.state.slab.history);
  }

  lemma OutageContinues(cfg: A.Config, k: nat, k1: nat, w: World)
    requires Wrapping(cfg) && cfg.breaker.Some? && H.Sized(cfg, w) && Good(w) && Outage(cfg, k, w) && k1 == k + 1
    ensures Outage(cfg, k1, Step(cfg, w, DoAllocate(FIRST, FIRST)))
  {
    hide A.AllocateFast, A.Allocate, A.Shaped, AllocateHandle, Good, SlabOf, Covers, Step, Empty, Failing, A.ValidConfig;
    SizesMatch(cfg, w.state);
    FailsOnceMore(cfg, w.state.slab, k, k1);
    var s1 := A.AllocateFast(cfg, w.state.slab, FIRST).0;
    var k2: nat := k1 + 1;
    FailsOnceMore(cfg, s1, k1, k2);
    FewerFailures(cfg, A.Allocate(cfg, s1, FIRST).0.history, k2, k1);
    AllocateHandleUnfolds(cfg, w.state, FIRST, FIRST);
    AllocateCounts(cfg, w, FIRST, FIRST);
    FlagsStay(cfg, w, FIRST, FIRST);
  }

  /** A failed allocation leaves the last handle current. */
  lemma FlagsStay(cfg: A.Config, w: World, o1: A.Outside, o2: A.Outside)
    requires H.Sized(cfg, w) && Good(w) && LastIsCurrent(w) && AllocateHandle(cfg, w.state, o1, o2).1.Failure?
    ensures LastIsCurrent(Step(cfg, w, DoAllocate(o1, o2)))
  {
    hide A.AllocateFast, A.Allocate, A.Shaped, AllocateHandle, SlabOf, Covers, Step;
    var e := AllocateEffect(cfg, w.state, o1, o2);
    AllocateCounts(cfg, w, o1, o2);
    hide Good, Shaped;
  }

  ghost function FailHandles(capacity: nat, k: nat): seq<Op> {
    if k == 0 then FillHandles(capacity) else FailHandles(capacity, k - 1) + [DoAllocate(FIRST, FIRST)]
  }

  lemma {:induction false} AfterOutage(cfg: A.Config, secure: bool, k: nat)
    requires Wrapping(cfg) && cfg.breaker.Some?
    ensures Outage(cfg, k, Run(cfg, secure, FailHandles(cfg.geometry.capacity, k)))
  {
    hide Filling, Step, H.Sized, Good, A.ValidConfig, Outage, Run;
    if k == 0 {
      AfterFilling(cfg, secure, cfg.geometry.capacity);
      OutageStarts(cfg, Run(cfg, secure, FillHandles(cfg.geometry.capacity)));
    } else {
      var m: nat := k - 1;
      var before := FailHandles(cfg.geometry.capacity, m);
      AfterOutage(cfg, secure, m);
      EveryRunGood(cfg, secure, before);
      RunNext(cfg, secure, before, DoAllocate(FIRST, FIRST));
      OutageContinues(cfg, m, k, Run(cfg, secure, before));
    }
  }

  /** After threshold failures the breaker is open with its last failure at time 0. */
  lemma OutageOpens(cfg: A.Config, h: seq<Event>)
    requires cfg.breaker.Some? && cfg.breaker.value.threshold >= 1 && Failing(cfg, h, cfg.breaker.value.threshold)
    ensures var b := After(cfg.breaker.value, h);
      b.mode == Open && b.lastFailure == 0
  {
    hide After, Outcomes;
    EveryRunConsistent(cfg.breaker.value, h);
    LastFailureIsOne(h);
  }

  lemma {:induction false} LastFailureIsOne(h: seq<Event>)
    ensures LastFailure(h).Some? ==> exists i :: 0 <= i < |h| && h[i] == Failed(LastFailure(h).value)
  {
    if h != [] {
      var n := |h| - 1;
      LastFailureIsOne(h[..n]);
      if h[n].Failed? {
        assert h[n] == Failed(LastFailure(h).value);
      } else if LastFailure(h).Some? {
        var i :| 0 <= i < n && h[..n][i] == Failed(LastFailure(h).value);
        assert h[i] == Failed(LastFailure(h).value);
      }
    }
  }

  /** Just before and just after the timeout has passed since a failure at time 0. */
  ghost function Sooner(cfg: A.Config): A.Outside
    requires cfg.breaker.Some?
  {
    At(cfg.breaker.value.timeout)
  }

  ghost function Later(cfg: A.Config): A.Outside
    requires cfg.breaker.Some?
  {
    At(cfg.breaker.value.timeout + 1)
  }

  /** A slab was freed while the breaker is open: the fast path comes just before the timeout
      has passed and is refused, the slow path comes just after and finds the slab. */
  lemma RefusedThenFound(cfg: A.Config, s: A.State, id: int)
    requires A.Shaped(cfg, s) && !cfg.fallback && cfg.breaker.Some?
    requires var b := After(cfg.breaker.value, s.history); b.mode == Open && b.lastFailure == 0
    requires 0 <= id < |s.pools.inUse| && !s.pools.inUse[id] && |s.pools.caches| == cfg.cacheCount
    requires if cfg.cacheCount == 0 then s.pools.stack == [id] else s.pools.caches[0] == [id]
    ensures var (s1, fast) := A.AllocateFast(cfg, s, Sooner(cfg));
      fast.Failure? && A.Allocate(cfg, s1, Later(cfg)).1.Success?
  {
    hide Acquire, WellFormed, A.AllocateFast, A.Allocate, GoodClaim, SameSizes, EmptyHanded, Exact, Covers;
    hide CacheIndex, After;
    var t, h := cfg.breaker.value.timeout, s.history;
    A.AllocateFastUnfolds(cfg, s, Sooner(cfg));
    AfterNext(cfg.breaker.value, h, Checked(t));
    var s1 := A.AllocateFast(cfg, s, Sooner(cfg)).0;
    assert s1 == s.(history := h + [Checked(t)]);
    A.AllocateUnfolds(cfg, s1, Later(cfg));
    A.ShapedIsSized(cfg, s);
    if cfg.cacheCount > 0 {
      S.ModItself(0, cfg.cacheCount);
      hide A.Shaped;
      FoundInCache(s.pools, Later(cfg).cpu, Later(cfg).start, id);
    } else {
      hide A.Shaped;
      FoundOnStack(s.pools, Later(cfg).cpu, Later(cfg).start, id);
    }
  }

  lemma FreedInOutage(cfg: A.Config, w: World, w1: World)
    requires Wrapping(cfg) && cfg.breaker.Some? && H.Sized(cfg, w) && H.Sized(cfg, w1)
    requires Outage(cfg, cfg.breaker.value.threshold, w) && WellFormed(w.state.slab.pools)
    requires var slab := w.issued[|w.issued| - 1].slab;
      && w1.state.slab.pools == Release(w.state.slab.pools, slab, 0, cfg.geometry.alignedSize)
      && w1.state.slab.history == w.state.slab.history + [Succeeded]
    ensures var (s1, fast) := A.AllocateFast(cfg, w1.state.slab, Sooner(cfg));
      fast.Failure? && A.Allocate(cfg, s1, Later(cfg)).1.Success?
  {
    var p, slab := w.state.slab.pools, w.issued[|w.issued| - 1].slab;
    hide A.AllocateFast, A.Allocate, WellFormed, Release, CacheIndex, After, Failing;
    SizesMatch(cfg, w1.state);
    SizesMatch(cfg, w.state);
    A.ShapedIsSized(cfg, w.state.slab);
    OutageOpens(cfg, w.state.slab.history);
    AfterNext(cfg.breaker.value, w.state.slab.history, Succeeded);
    hide A.Shaped, Shaped, A.ValidConfig;
    if cfg.cacheCount > 0 {
      S.ModItself(0, cfg.cacheCount);
      S.ReleaseToCache(p, slab, 0, cfg.geometry.alignedSize);
    } else {
      ReleaseToStack(p, slab, 0, cfg.geometry.alignedSize);
    }
    RefusedThenFound(cfg, w1.state.slab, slab);
  }

  lemma OutageFacts(cfg: A.Config, k: nat, w: World)
    requires cfg.breaker.Some? && Outage(cfg, k, w)
    ensures w.slow == 0 && w.issued != [] && LastIsCurrent(w)
  {
  }

  /** The fast path fails and the slow path then succeeds. */
  ghost predicate SlowFinds(cfg: A.Config, w: World, o1: A.Outside, o2: A.Outside)
    requires H.Sized(cfg, w)
  {
    var (s1, fast) := A.AllocateFast(cfg, w.state.slab, o1);
    fast.Failure? && A.Allocate(cfg, s1, o2).1.Success?
  }

  lemma FreedAfterOutage(cfg: A.Config, k: nat, w: World, last: nat)
    requires Wrapping(cfg) && cfg.breaker.Some? && H.Sized(cfg, w) && Good(w)
    requires k == cfg.breaker.value.threshold && Outage(cfg, k, w) && last == |w.issued| - 1
    ensures var w1 := Step(cfg, w, DoFree(last, 0));
      w1.slow == 0 && SlowFinds(cfg, w1, Sooner(cfg), Later(cfg))
  {
    hide Good, H.Sized, Step, Release, Outage, A.ValidConfig, A.AllocateFast, A.Allocate, LastIsCurrent, Sooner, Later;
    OutageFacts(cfg, k, w);
    FreeLast(cfg, w, last, 0);
    var w1 := Step(cfg, w, DoFree(last, 0));
    FreedInOutage(cfg, w, w1);
  }

  /** With a breaker: exhaust the allocator until the breaker opens, free a slab, and ask; the
      fast path is refused, and by the time of the slow path the timeout has passed. */
  lemma BreakerTakesSlowPath(cfg: A.Config, secure: bool) returns (ops: seq<Op>)
    requires Wrapping(cfg) && cfg.breaker.Some?
    ensures Run(cfg, secure, ops).slow == 1
  {
    var k: nat := cfg.breaker.value.threshold;
    hide Good, H.Sized, Step, Outage, A.ValidConfig, Run, FailHandles, Sooner, Later, LastIsCurrent, SlowFinds;
    var down := FailHandles(cfg.geometry.capacity, k);
    AfterOutage(cfg, secure, k);
    EveryRunGood(cfg, secure, down);
    var w := Run(cfg, secure, down);
    OutageFacts(cfg, k, w);
    var last: nat := |w.issued| - 1;
    FreedAfterOutage(cfg, k, w, last);
    RunNext(cfg, secure, down, DoFree(last, 0));
    var freed := down + [DoFree(last, 0)];
    EveryRunGood(cfg, secure, freed);
    ops := SlowThen(cfg, secure, freed, Sooner(cfg), Later(cfg));
  }

  lemma SlowThen(cfg: A.Config, secure: bool, before: seq<Op>, o1: A.Outside, o2: A.Outside) returns (ops: seq<Op>)
    requires Wrapping(cfg) && SlowFinds(cfg, Run(cfg, secure, before), o1, o2) && Good(Run(cfg, secure, before))
    ensures Run(cfg, secure, ops).slow == Run(cfg, secure, before).slow + 1
  {
    hide Good, H.Sized, Step, A.ValidConfig, Run, A.AllocateFast, A.Allocate;
    SlowIsMissed(cfg, Run(cfg, secure, before), o1, o2);
    RunNext(cfg, secure, before, DoAllocate(o1, o2));
    ops := before + [DoAllocate(o1, o2)];
  }

  // ---- Main result ----

  ghost predicate CountsAllHandles(w: World) {
    w.state.stats.allocations == |w.issued|
  }

  /** The allocation statistic counts every issued handle in every run if and only if there
      is no breaker and at most one cache. */
  lemma StatisticsAreExactExactlyWhen(cfg: A.Config, secure: bool)
    requires A.ValidConfig(cfg) && !cfg.fallback
    ensures (forall ops: seq<Op> :: CountsAllHandles(Run(cfg, secure, ops))) <==> cfg.breaker.None? && cfg.cacheCount <= 1
  {
    hide Run, A.ValidConfig;
    if cfg.breaker.None? && cfg.cacheCount <= 1 {
      forall ops: seq<Op> ensures CountsAllHandles(Run(cfg, secure, ops)) {
        RunStaysFast(cfg, secure, ops);
        HandlesAreConserved(cfg, secure, ops);
      }
    } else {
      var ops;
      if cfg.breaker.Some? {
        ops := BreakerTakesSlowPath(cfg, secure);
      } else {
        ops := TwoCachesTakeSlowPath(cfg, secure);
      }
      HandlesAreConserved(cfg, secure, ops);
      assert !CountsAllHandles(Run(cfg, secure, ops));
    }
  }
}
