/** Generation-counted handles as values: packing, the three operations, and sequential
    runs in which only issued handles are presented, any number of times. */
module Handles {
  import opened Bags
  import opened Bits
  import opened Pools
  import opened Wrappers
  import A = Allocator
  import C = Claims

  // ---- Packing ----

  /** (generation << 32) | slab */
  function Pack(generation: nat, slab: nat): nat {
    Or(generation * TWO_32, slab)
  }

  /** int32(id & handleIDMask) */
  function SlabOf(id: nat): int {
    ToInt32(And(id, TWO_32 - 1))
  }

  /** uint32(id >> 32) */
  function GenerationOf(id: nat): nat {
    (id / TWO_32) % TWO_32
  }

  /** Packing loses nothing, fits 64 bits, and only generation 0 of slab 0 packs to zero. */
  lemma PackUnpacks(generation: nat, slab: nat)
    requires generation < TWO_32 && slab <= MAX_INT32
    ensures SlabOf(Pack(generation, slab)) == slab && GenerationOf(Pack(generation, slab)) == generation
    ensures Pack(generation, slab) < TWO_32 * TWO_32
    ensures Pack(generation, slab) == 0 <==> generation == 0 && slab == 0
  {
    Pow2Values();
    hide And, Or, Pow2;
    OrDisjoint(generation, slab, 32);
    var id := Pack(generation, slab);
    AndMask(id, 32);
    ModIsUnique(id, TWO_32, generation, slab);
  }

  // ---- Operations ----

  datatype Error = InvalidHandle | StaleHandle | SlabError(error: A.Error)

  datatype Stats = Stats(allocations: nat, deallocations: nat, genMismatches: nat, staleAccesses: nat)

  datatype State = State(slab: A.State, generations: seq<nat>, stats: Stats)

  /** The wrapped slab allocator has no heap fallback, so every reference has a slab. */
  ghost predicate Shaped(cfg: A.Config, s: State) {
    && A.Shaped(cfg, s.slab) && !cfg.fallback
    && |s.generations| == cfg.geometry.capacity
    && (forall i :: 0 <= i < |s.generations| ==> s.generations[i] < TWO_32)
  }

  ghost function New(cfg: A.Config, secure: bool): (s: State)
    requires A.ValidConfig(cfg) && !cfg.fallback
    ensures Shaped(cfg, s)
  {
    State(A.New(cfg, secure), Repeat(0, cfg.geometry.capacity), Stats(0, 0, 0, 0))
  }

  ghost function Bump(generations: seq<nat>, slab: int): (r: seq<nat>)
    requires 0 <= slab < |generations|
    ensures |r| == |generations|
  {
    generations[slab := (generations[slab] + 1) % TWO_32]
  }

  /** A handle for a slab just claimed: its generation is bumped and packed with it. */
  ghost function HandOut(s: State, slab: A.State, id: int, counted: nat): (r: (State, Result<nat, Error>))
    requires 0 <= id < |s.generations|
  {
    var g := Bump(s.generations, id);
    (State(slab, g, s.stats.(allocations := s.stats.allocations + counted)), Success(Pack(g[id], id)))
  }

  /** A fast claim, else a plain allocation; only the fast one is counted in the statistics. */
  ghost function AllocateHandle(cfg: A.Config, s: State, o1: A.Outside, o2: A.Outside): (r: (State, Result<nat, Error>))
    requires Shaped(cfg, s)
    ensures Shaped(cfg, r.0)
  {
    SizesMatch(cfg, s);
    A.AllocateFastClaims(cfg, s.slab, o1);
    var (s1, fast) := A.AllocateFast(cfg, s.slab, o1);
    match fast
    case Success(id) =>
      hide A.AllocateFast, A.Allocate, A.Shaped, Shaped, Covers, WellFormed;
      HandOutIsShaped(cfg, s, s1, id, 1);
      HandOut(s, s1, id, 1)
    case Failure(_) =>
      hide A.AllocateFast, A.Allocate, A.Shaped, Shaped, Covers, WellFormed;
      A.AllocateClaims(cfg, s1, o2);
      var (s2, slow) := A.Allocate(cfg, s1, o2);
      match slow
      case Failure(e) =>
        SlabIsShaped(cfg, s, s2);
        (s.(slab := s2), Failure(SlabError(e)))
      case Success(backing) =>
        HandOutIsShaped(cfg, s, s2, backing.id, 0);
        HandOut(s, s2, backing.id, 0)
  }

  /** The three outcomes of an allocation, spelled out. */
  lemma AllocateHandleUnfolds(cfg: A.Config, s: State, o1: A.Outside, o2: A.Outside)
    requires Shaped(cfg, s)
    ensures var (s1, fast) := A.AllocateFast(cfg, s.slab, o1);
      var (s2, slow) := A.Allocate(cfg, s1, o2);
      var r := AllocateHandle(cfg, s, o1, o2);
      && (fast.Success? ==> 0 <= fast.value < |s.generations| && r == HandOut(s, s1, fast.value, 1))
      && (fast.Failure? && slow.Failure? ==> r == (s.(slab := s2), Failure(SlabError(slow.error))))
      && (fast.Failure? && slow.Success? ==>
            slow.value.Slab? && 0 <= slow.value.id < |s.generations| && r == HandOut(s, s2, slow.value.id, 0))
  {
    SizesMatch(cfg, s);
    A.AllocateFastClaims(cfg, s.slab, o1);
    var s1 := A.AllocateFast(cfg, s.slab, o1).0;
    A.AllocateClaims(cfg, s1, o2);
    hide A.AllocateFast, A.Allocate, A.Shaped, Shaped, Covers, WellFormed, HandOut;
  }

  /** The five outcomes of a free, spelled out. */
  lemma FreeHandleUnfolds(cfg: A.Config, s: State, id: nat, draw: nat)
    requires Shaped(cfg, s)
    ensures FreeHandle(cfg, s, id, false, draw) == (s, Some(InvalidHandle))
    ensures !InRange(cfg, id) ==> FreeHandle(cfg, s, id, true, draw) == (s, Some(InvalidHandle))
    ensures InRange(cfg, id) && GenerationOf(id) != s.generations[SlabOf(id)] ==>
      FreeHandle(cfg, s, id, true, draw)
        == (s.(stats := s.stats.(genMismatches := s.stats.genMismatches + 1)), Some(StaleHandle))
    ensures InRange(cfg, id) && GenerationOf(id) == s.generations[SlabOf(id)] ==>
      var (s1, e) := A.DeallocateFast(cfg, s.slab, SlabOf(id), draw);
      var g := Bump(s.generations, SlabOf(id));
      FreeHandle(cfg, s, id, true, draw)
        == if e.None? then (State(s1, g, s.stats.(deallocations := s.stats.deallocations + 1)), None)
           else (State(s1, g, s.stats), Some(SlabError(e.value)))
  {
    SizesMatch(cfg, s);
    hide A.DeallocateFast, A.Shaped, Shaped, SlabOf, GenerationOf;
  }

  lemma SizesMatch(cfg: A.Config, s: State)
    requires Shaped(cfg, s)
    ensures |s.generations| == |s.slab.pools.inUse| == cfg.geometry.capacity <= MAX_INT32
    ensures forall i :: 0 <= i < |s.generations| ==> 0 <= s.generations[i] < TWO_32
    ensures A.Shaped(cfg, s.slab) && !cfg.fallback
  {
  }

  lemma HandOutIsShaped(cfg: A.Config, s: State, slab: A.State, id: nat, counted: nat)
    requires Shaped(cfg, s) && A.Shaped(cfg, slab) && id < |s.generations|
    ensures Shaped(cfg, HandOut(s, slab, id, counted).0)
  {
    hide A.Shaped;
  }

  lemma SlabIsShaped(cfg: A.Config, s: State, slab: A.State)
    requires Shaped(cfg, s) && A.Shaped(cfg, slab)
    ensures Shaped(cfg, s.(slab := slab))
  {
    hide A.Shaped;
  }

  ghost predicate InRange(cfg: A.Config, id: nat) {
    0 <= SlabOf(id) < cfg.geometry.capacity
  }

  /** FreeHandle of a handle whose allocator field is this allocator or not. */
  ghost function FreeHandle(cfg: A.Config, s: State, id: nat, mine: bool, draw: nat): (r: (State, Option<Error>))
    requires Shaped(cfg, s)
    ensures Shaped(cfg, r.0)
  {
    if !mine || !InRange(cfg, id) then (s, Some(InvalidHandle))
    else
      var slab := SlabOf(id);
      if GenerationOf(id) != s.generations[slab] then
        (s.(stats := s.stats.(genMismatches := s.stats.genMismatches + 1)), Some(StaleHandle))
      else
        var g := Bump(s.generations, slab);
        var (s1, e) := A.DeallocateFast(cfg, s.slab, slab, draw);
        match e
        case None => (State(s1, g, s.stats.(deallocations := s.stats.deallocations + 1)), None)
        case Some(error) => (State(s1, g, s.stats), Some(SlabError(error)))
  }

  /** GetBytes: on success, the slab whose bytes are returned. */
  ghost function GetBytes(cfg: A.Config, s: State, id: nat, mine: bool): (r: (State, Result<int, Error>))
    requires Shaped(cfg, s)
    ensures Shaped(cfg, r.0)
  {
    if !mine || !InRange(cfg, id) then (s, Failure(InvalidHandle))
    else if GenerationOf(id) != s.generations[SlabOf(id)] then
      (s.(stats := s.stats.(staleAccesses := s.stats.staleAccesses + 1)), Failure(StaleHandle))
    else (s, Success(SlabOf(id)))
  }

  // ---- What a call changes ----

  /** The part of a call's effect that the generations follow. */
  datatype Effect = Nothing | Claimed(slab: nat) | Freed(slab: nat)

  /** The slab that changes hands, if any, has its flag flipped and its generation bumped. */
  ghost predicate Changes(s: State, e: Effect, s1: State) {
    var u, v := s.slab.pools.inUse, s1.slab.pools.inUse;
    && |s.generations| == |u|
    && s1.stats.deallocations == s.stats.deallocations + (if e.Freed? then 1 else 0)
    && (Covers(s.slab.pools) ==> Covers(s1.slab.pools))
    && match e
       case Nothing => v == u && s1.generations == s.generations
       case Claimed(slab) => slab < |u| && !u[slab] && v == u[slab := true] && s1.generations == Bump(s.generations, slab)
       case Freed(slab) => slab < |u| && u[slab] && v == u[slab := false] && s1.generations == Bump(s.generations, slab)
  }

  /** An allocation claims a free slab and packs its bumped generation, or changes nothing. */
  ghost predicate AllocateResult(s: State, e: Effect, fast: bool, r: (State, Result<nat, Error>)) {
    && Changes(s, e, r.0)
    && r.0.stats.allocations == s.stats.allocations + (if fast then 1 else 0)
    && if r.1.Success? then
         e.Claimed? && e.slab < |r.0.generations| && r.1.value == Pack(r.0.generations[e.slab], e.slab)
         && SlabOf(r.1.value) == e.slab
       else e == Nothing && !fast
  }

  lemma AllocateEffect(cfg: A.Config, s: State, o1: A.Outside, o2: A.Outside) returns (e: Effect)
    requires Shaped(cfg, s)
    ensures AllocateResult(s, e, A.AllocateFast(cfg, s.slab, o1).1.Success?, AllocateHandle(cfg, s, o1, o2))
  {
    hide A.AllocateFast, A.Allocate, A.Shaped, WellFormed, Covers, Changes, AllocateResult;
    A.AllocateFastClaims(cfg, s.slab, o1);
    var (s1, fast) := A.AllocateFast(cfg, s.slab, o1);
    A.AllocateClaims(cfg, s1, o2);
    var slow := A.Allocate(cfg, s1, o2);
    SizesMatch(cfg, s);
    hide Shaped;
    match fast
    case Success(id) =>
      e := Claimed(id);
      HandOutEffect(s, s1, id, 1);
    case Failure(_) =>
      match slow.1 {
        case Success(backing) =>
          e := Claimed(backing.id);
          HandOutEffect(s, slow.0, backing.id, 0);
        case Failure(_) =>
          e := Nothing;
          FailureEffect(s, slow.0, AllocateHandle(cfg, s, o1, o2));
      }
  }

  lemma HandOutEffect(s: State, slab: A.State, id: nat, counted: nat)
    requires |s.generations| == |s.slab.pools.inUse| <= MAX_INT32 && id < |s.generations| && counted <= 1
    requires !s.slab.pools.inUse[id] && slab.pools.inUse == s.slab.pools.inUse[id := true]
    requires Covers(s.slab.pools) ==> Covers(slab.pools)
    ensures AllocateResult(s, Claimed(id), counted == 1, HandOut(s, slab, id, counted))
  {
    hide Covers, Pack, SlabOf;
    PackUnpacks(Bump(s.generations, id)[id], id);
  }

  lemma FailureEffect(s: State, slab: A.State, r: (State, Result<nat, Error>))
    requires |s.generations| == |s.slab.pools.inUse|
    requires slab.pools.inUse == s.slab.pools.inUse && r.0 == s.(slab := slab) && r.1.Failure?
    requires Covers(s.slab.pools) ==> Covers(slab.pools)
    ensures AllocateResult(s, Nothing, false, r)
  {
    hide Covers;
  }

  /** Free slabs have even generations, as after every run. */
  ghost predicate EvenWhenFree(s: State) {
    && |s.generations| == |s.slab.pools.inUse|
    && forall i :: 0 <= i < |s.generations| && !s.slab.pools.inUse[i] ==> s.generations[i] % 2 == 0
  }

  /** From such a state a new handle has an odd generation, so its bits are not zero. */
  lemma NewHandleIsOdd(cfg: A.Config, s: State, o1: A.Outside, o2: A.Outside)
    requires Shaped(cfg, s) && EvenWhenFree(s)
    ensures var got := AllocateHandle(cfg, s, o1, o2).1;
      got.Success? ==> got.value != 0 && GenerationOf(got.value) % 2 == 1
  {
    hide A.AllocateFast, A.Allocate, A.Shaped, WellFormed, Covers, Pack, SlabOf, GenerationOf, AllocateHandle;
    var e := AllocateEffect(cfg, s, o1, o2);
    SizesMatch(cfg, s);
    hide Shaped;
    var (s1, got) := AllocateHandle(cfg, s, o1, o2);
    if got.Success? {
      var g := s.generations[e.slab];
      assert g % 2 == 0 && 0 <= g < TWO_32;
      EvenIsNotLast(g);
      PackUnpacks(g + 1, e.slab);
    }
  }

  lemma EvenIsNotLast(g: nat)
    requires g % 2 == 0 && g < TWO_32
    ensures g + 1 < TWO_32 && (g + 1) % TWO_32 == g + 1 && (g + 1) % 2 == 1
  {
    ModIsUnique(g + 1, TWO_32, 0, g + 1);
  }

  /** A handle whose generation matches frees its slab, provided the slab is in use then. */
  ghost predicate FreeResult(s: State, e: Effect, id: nat, r: (State, Option<Error>)) {
    && Changes(s, e, r.0) && r.0.stats.allocations == s.stats.allocations
    && 0 <= SlabOf(id) < |s.generations|
    && if GenerationOf(id) == s.generations[SlabOf(id)] then e == Freed(SlabOf(id)) && r.1 == None
       else e == Nothing && r.1 == Some(StaleHandle)
  }

  ghost predicate FreesInUse(s: State, id: nat) {
    && 0 <= SlabOf(id) < |s.generations| == |s.slab.pools.inUse|
    && (GenerationOf(id) == s.generations[SlabOf(id)] ==> s.slab.pools.inUse[SlabOf(id)])
  }

  lemma FreeEffect(cfg: A.Config, s: State, id: nat, draw: nat) returns (e: Effect)
    requires Shaped(cfg, s) && FreesInUse(s, id)
    ensures FreeResult(s, e, id, FreeHandle(cfg, s, id, true, draw))
  {
    hide A.DeallocateFast, A.Shaped, Covers, SlabOf, GenerationOf;
    SizesMatch(cfg, s);
    if GenerationOf(id) == s.generations[SlabOf(id)] {
      A.DeallocateFastFrees(cfg, s.slab, SlabOf(id), draw);
      e := Freed(SlabOf(id));
    } else {
      e := Nothing;
    }
    hide Shaped;
  }

  // ---- Sequential runs ----

  /** An issued handle: its bits, its slab, and which allocation of that slab it is, from 1. */
  datatype Issue = Issue(id: nat, slab: nat, number: nat)

  /** The allocator, every handle issued so far, how often each slab has been allocated, and
      how many of the allocations took the slow path. */
  datatype World = World(state: State, issued: seq<Issue>, allocations: seq<nat>, slow: nat)

  /** Handles are presented by their place in the list of issued handles, any number of times. */
  datatype Op =
    | DoAllocate(o1: A.Outside, o2: A.Outside)
    | DoFree(handle: nat, draw: nat)
    | DoGetBytes(handle: nat)

  ghost predicate Sized(cfg: A.Config, w: World) {
    Shaped(cfg, w.state) && |w.allocations| == cfg.geometry.capacity
  }

  ghost function Step(cfg: A.Config, w: World, op: Op): (r: World)
    requires Sized(cfg, w)
    ensures Sized(cfg, r)
  {
    hide A.Shaped;
    match op
    case DoAllocate(o1, o2) =>
      var (s, got) := AllocateHandle(cfg, w.state, o1, o2);
      if got.Failure? || !InRange(cfg, got.value) then w.(state := s)
      else
        var slab := SlabOf(got.value);
        var n := w.allocations[slab] + 1;
        World(s, w.issued + [Issue(got.value, slab, n)], w.allocations[slab := n],
              w.slow + if A.AllocateFast(cfg, w.state.slab, o1).1.Success? then 0 else 1)
    case DoFree(h, draw) =>
      if h >= |w.issued| then w else w.(state := FreeHandle(cfg, w.state, w.issued[h].id, true, draw).0)
    case DoGetBytes(h) =>
      if h >= |w.issued| then w else w.(state := GetBytes(cfg, w.state, w.issued[h].id, true).0)
  }

  ghost function Start(cfg: A.Config, secure: bool): (w: World)
    requires A.ValidConfig(cfg) && !cfg.fallback
    ensures Sized(cfg, w)
  {
    World(New(cfg, secure), [], Repeat(0, cfg.geometry.capacity), 0)
  }

  ghost function Run(cfg: A.Config, secure: bool, ops: seq<Op>): (w: World)
    requires A.ValidConfig(cfg) && !cfg.fallback
    ensures Sized(cfg, w)
  {
    if ops == [] then Start(cfg, secure)
    else Step(cfg, Run(cfg, secure, ops[..|ops| - 1]), ops[|ops| - 1])
  }

  lemma RunNothing(cfg: A.Config, secure: bool)
    requires A.ValidConfig(cfg) && !cfg.fallback
    ensures Run(cfg, secure, []) == Start(cfg, secure)
  {
    hide Start;
  }

  lemma RunNext(cfg: A.Config, secure: bool, ops: seq<Op>, op: Op)
    requires A.ValidConfig(cfg) && !cfg.fallback
    ensures Run(cfg, secure, ops + [op]) == Step(cfg, Run(cfg, secure, ops), op)
  {
    assert (ops + [op])[..|ops|] == ops;
    hide Sized, Step;
  }

  /** What an operation does to the world, given what it does to the allocator. */
  ghost predicate Moves(w: World, e: Effect, w1: World) {
    && |w.state.generations| == |w.state.slab.pools.inUse| == |w.allocations|
    && Changes(w.state, e, w1.state)
    && w1.state.stats.allocations + w1.slow - |w1.issued| == w.state.stats.allocations + w.slow - |w.issued|
    && w.slow <= w1.slow
    && if e.Claimed? then
         var n := w.allocations[e.slab] + 1;
         && w1.allocations == w.allocations[e.slab := n]
         && w1.issued == w.issued + [Issue(Pack(w1.state.generations[e.slab], e.slab), e.slab, n)]
       else w1.allocations == w.allocations && w1.issued == w.issued
  }

  // ---- Every run keeps the generations in step ----

  /** The stored generation of a slab allocated n times: 2n - 1 while in use, 2n while free,
      as a uint32. */
  ghost function Expected(n: nat, inUse: bool): int {
    (2 * n - if inUse then 1 else 0) % TWO_32
  }

  ghost predicate GoodSlab(w: World, i: int)
    requires 0 <= i < |w.allocations| == |w.state.generations| == |w.state.slab.pools.inUse|
  {
    && w.state.generations[i] == Expected(w.allocations[i], w.state.slab.pools.inUse[i])
    && (w.state.slab.pools.inUse[i] ==> w.allocations[i] > 0)
  }

  ghost predicate GoodIssue(w: World, h: Issue) {
    && h.slab < |w.allocations| && 0 < h.number <= w.allocations[h.slab]
    && h.id == Pack(Expected(h.number, true), h.slab)
  }

  ghost predicate Good(w: World) {
    && |w.state.generations| == |w.state.slab.pools.inUse| == |w.allocations| <= MAX_INT32
    && (forall i :: 0 <= i < |w.allocations| ==> GoodSlab(w, i))
    && (forall k :: 0 <= k < |w.issued| ==> GoodIssue(w, w.issued[k]))
    && Covers(w.state.slab.pools)
    // Live slabs are issued handles less successful frees; the statistics miss slow allocations.
    && FreeCount(w.state.slab.pools.inUse) + |w.issued| == |w.allocations| + w.state.stats.deallocations
    && w.state.stats.allocations + w.slow == |w.issued|
  }

  lemma NextGeneration(n: nat)
    ensures (Expected(n, false) + 1) % TWO_32 == Expected(n + 1, true)
    ensures n > 0 ==> (Expected(n, true) + 1) % TWO_32 == Expected(n, false)
  {
    ModAdd(2 * n, 1, TWO_32);
    ModAdd(2 * n - 1, 1, TWO_32);
  }

  /** The generation of allocation m matches the stored one if and only if the slab is in
      use and m and n differ by a multiple of 2^31. */
  lemma GenerationsMatch(m: nat, n: nat, inUse: bool)
    requires 0 < m <= n
    ensures Expected(m, true) == Expected(n, inUse) <==> inUse && (n - m) % TWO_31 == 0
  {
    if inUse {
      SameRemainder(2 * m - 1, 2 * n - 1, TWO_32);
      ModDouble(n - m, TWO_31);
    } else {
      Parity(2 * m - 1);
      Parity(2 * n);
    }
  }

  lemma Parity(x: nat)
    ensures (x % TWO_32) % 2 == x % 2
  {
    ModOfMod(x, TWO_31, 2);
  }

  lemma ExpectedBounds(n: nat, inUse: bool)
    ensures 0 <= Expected(n, inUse) < TWO_32
    ensures n > 0 && inUse ==> Expected(n, inUse) % 2 == 1
  {
    if n > 0 && inUse {
      Parity(2 * n - 1);
    }
  }

  lemma StartIsGood(cfg: A.Config, secure: bool)
    requires A.ValidConfig(cfg) && !cfg.fallback
    ensures Good(Start(cfg, secure))
  {
    hide A.Shaped, Shaped, BagOf, FreeBag, FreeCount, Covers, Distributed, Pack, WellFormed, GoodIssue;
    StartCovers(cfg, secure);
    AllFreeCount(cfg.geometry.capacity);
  }

  lemma StartCovers(cfg: A.Config, secure: bool)
    requires A.ValidConfig(cfg) && !cfg.fallback
    ensures Covers(Start(cfg, secure).state.slab.pools)
  {
    hide BagOf, FreeBag, Distributed, WellFormed, Bag;
    FreshIsExact(cfg.geometry.capacity, cfg.cacheCount, cfg.rows, cfg.geometry.alignedSize);
  }

  lemma MoveKeepsGood(w: World, e: Effect, w1: World)
    requires Good(w) && Moves(w, e, w1)
    ensures Good(w1)
  {
    hide Covers, FreeCount, FreeBag, Pack, Expected;
    match e
    case Nothing => MoveKeepsSlabs(w, e, w1);
    case Claimed(slab) => {
      MoveKeepsSlabs(w, e, w1);
      FreeCountSet(w.state.slab.pools.inUse, slab, true);
    }
    case Freed(slab) => {
      MoveKeepsSlabs(w, e, w1);
      FreeCountSet(w.state.slab.pools.inUse, slab, false);
    }
  }

  lemma FreeCountSet(u: seq<bool>, id: nat, v: bool)
    requires id < |u| && u[id] != v
    ensures FreeCount(u[id := v]) == FreeCount(u) + if v then -1 else 1
  {
    FreeBagSet(u, id, v);
  }

  lemma MoveKeepsSlabs(w: World, e: Effect, w1: World)
    requires Good(w) && Moves(w, e, w1)
    ensures |w1.state.generations| == |w1.state.slab.pools.inUse| == |w1.allocations| == |w.allocations|
    ensures forall i :: 0 <= i < |w1.allocations| ==> GoodSlab(w1, i)
    ensures forall k :: 0 <= k < |w1.issued| ==> GoodIssue(w1, w1.issued[k])
  {
    hide Covers, FreeCount, FreeBag, Pack, Expected;
    if e.Claimed? || e.Freed? {
      assert GoodSlab(w, e.slab);
      NextGeneration(w.allocations[e.slab]);
    }
    forall i | 0 <= i < |w1.allocations| ensures GoodSlab(w1, i) {
      assert GoodSlab(w, i);
    }
    forall k | 0 <= k < |w1.issued| ensures GoodIssue(w1, w1.issued[k]) {
      if k < |w.issued| {
        assert GoodIssue(w, w.issued[k]);
      }
    }
  }

  /** An issued handle unpacks to its slab, has an odd generation, and so is never zero. */
  lemma IssueUnpacks(w: World, k: nat)
    requires Good(w) && k < |w.issued|
    ensures var h := w.issued[k];
      && SlabOf(h.id) == h.slab < |w.allocations|
      && GenerationOf(h.id) == Expected(h.number, true) && GenerationOf(h.id) % 2 == 1
      && h.id != 0
  {
    hide Covers, FreeCount, FreeBag, Pack, Expected, SlabOf, GenerationOf, GoodSlab;
    var h := w.issued[k];
    assert GoodIssue(w, h);
    ExpectedBounds(h.number, true);
    PackUnpacks(Expected(h.number, true), h.slab);
  }

  /** Issued handle k is accepted: its slab is in use and has been allocated a multiple of
      2^31 times since. */
  ghost predicate Accepted(w: World, k: nat)
    requires k < |w.issued| && w.issued[k].slab < |w.allocations| == |w.state.slab.pools.inUse|
  {
    var h := w.issued[k];
    w.state.slab.pools.inUse[h.slab] && (w.allocations[h.slab] - h.number) % TWO_31 == 0
  }

  lemma MatchesExactlyWhen(w: World, k: nat)
    requires Good(w) && k < |w.issued|
    ensures w.issued[k].slab < |w.allocations|
    ensures GenerationOf(w.issued[k].id) == w.state.generations[w.issued[k].slab] <==> Accepted(w, k)
  {
    IssueUnpacks(w, k);
    var h := w.issued[k];
    assert GoodIssue(w, h) && GoodSlab(w, h.slab);
    GenerationsMatch(h.number, w.allocations[h.slab], w.state.slab.pools.inUse[h.slab]);
    hide Covers, FreeCount, FreeBag, Pack, Expected, SlabOf, GenerationOf;
  }

  /** The effect of a step; presenting a handle to FreeHandle frees its slab or changes nothing. */
  lemma StepMoves(cfg: A.Config, w: World, op: Op) returns (e: Effect)
    requires Sized(cfg, w) && Good(w)
    ensures Moves(w, e, Step(cfg, w, op))
    ensures op.DoFree? && op.handle < |w.issued| ==>
      FreeResult(w.state, e, w.issued[op.handle].id, FreeHandle(cfg, w.state, w.issued[op.handle].id, true, op.draw))
  {
    hide Sized, Good, Moves, FreeResult, FreeHandle, AllocateHandle, GetBytes, A.AllocateFast;
    e := Nothing;
    match op
    case DoAllocate(o1, o2) => e := AllocateMoves(cfg, w, o1, o2);
    case DoFree(k, draw) =>
      if k < |w.issued| {
        e := FreeMoves(cfg, w, k, draw);
      } else {
        NothingMoves(w, w);
      }
    case DoGetBytes(k) => GetBytesMoves(cfg, w, k);
  }

  lemma NothingMoves(w: World, w1: World)
    requires Good(w) && w1 == w.(state := w1.state)
    requires w1.state == w.state.(stats := w1.state.stats)
    requires w1.state.stats == w.state.stats.(staleAccesses := w1.state.stats.staleAccesses)
    ensures Moves(w, Nothing, w1)
  {
  }

  lemma GetBytesMoves(cfg: A.Config, w: World, k: nat)
    requires Sized(cfg, w) && Good(w)
    ensures Moves(w, Nothing, Step(cfg, w, DoGetBytes(k)))
  {
    hide Good, Moves, A.Shaped, InRange, SlabOf, GenerationOf;
    NothingMoves(w, Step(cfg, w, DoGetBytes(k)));
  }

  lemma AllocateMoves(cfg: A.Config, w: World, o1: A.Outside, o2: A.Outside) returns (e: Effect)
    requires Sized(cfg, w) && Good(w)
    ensures Moves(w, e, Step(cfg, w, DoAllocate(o1, o2)))
  {
    hide Good, Moves, A.Shaped, SlabOf, AllocateHandle, A.AllocateFast, AllocateResult;
    e := AllocateEffect(cfg, w.state, o1, o2);
    var fast, r := A.AllocateFast(cfg, w.state.slab, o1).1.Success?, AllocateHandle(cfg, w.state, o1, o2);
    SizesMatch(cfg, w.state);
    hide Shaped;
    IssueMoves(w, e, fast, r, Step(cfg, w, DoAllocate(o1, o2)));
  }

  lemma IssueMoves(w: World, e: Effect, fast: bool, r: (State, Result<nat, Error>), w1: World)
    requires Good(w) && AllocateResult(w.state, e, fast, r)
    requires w1.state == r.0
    requires
      var slab := if r.1.Success? then SlabOf(r.1.value) else 0;
      if r.1.Success? && 0 <= slab < |w.allocations| then
        var n := w.allocations[slab] + 1;
        && w1.issued == w.issued + [Issue(r.1.value, slab, n)] && w1.allocations == w.allocations[slab := n]
        && w1.slow == w.slow + if fast then 0 else 1
      else w1 == w.(state := r.0)
    ensures Moves(w, e, w1)
  {
    hide GoodSlab, GoodIssue, Covers, FreeCount, Pack, SlabOf;
  }

  lemma FreeMoves(cfg: A.Config, w: World, k: nat, draw: nat) returns (e: Effect)
    requires Sized(cfg, w) && Good(w) && k < |w.issued|
    ensures Moves(w, e, Step(cfg, w, DoFree(k, draw)))
    ensures FreeResult(w.state, e, w.issued[k].id, FreeHandle(cfg, w.state, w.issued[k].id, true, draw))
  {
    hide A.Shaped, Covers, FreeCount, FreeBag, Pack, SlabOf, GenerationOf, AllocateHandle, FreeHandle, GoodSlab, GoodIssue;
    SizesMatch(cfg, w.state);
    IssueFrees(w, k);
    e := FreeEffect(cfg, w.state, w.issued[k].id, draw);
    hide Shaped, Good, GetBytes;
  }

  lemma IssueFrees(w: World, k: nat)
    requires Good(w) && k < |w.issued|
    ensures FreesInUse(w.state, w.issued[k].id)
  {
    hide Covers, FreeCount, Pack, SlabOf, GenerationOf, GoodSlab, GoodIssue;
    IssueUnpacks(w, k);
    MatchesExactlyWhen(w, k);
  }

  /** After every sequential run: generations follow the number of allocations, and live
      slabs are the issued handles less the successful frees. */
  lemma {:induction false} EveryRunGood(cfg: A.Config, secure: bool, ops: seq<Op>)
    requires A.ValidConfig(cfg) && !cfg.fallback
    ensures Good(Run(cfg, secure, ops))
  {
    hide Sized, Good, Moves, Step;
    if ops == [] {
      StartIsGood(cfg, secure);
    } else {
      var before, op := Run(cfg, secure, ops[..|ops| - 1]), ops[|ops| - 1];
      EveryRunGood(cfg, secure, ops[..|ops| - 1]);
      var e := StepMoves(cfg, before, op);
      MoveKeepsGood(before, e, Step(cfg, before, op));
    }
  }

  // ---- Main results ----

  /** After every run, an issued handle is Valid() and is accepted, by GetBytes and FreeHandle
      alike, if and only if its slab is in use and has been allocated a multiple of 2^31
      times since; otherwise both answer ErrStaleHandle. Freeing never reports a double
      deallocation. */
  lemma AcceptedExactlyWhen(cfg: A.Config, secure: bool, ops: seq<Op>, k: nat, draw: nat)
    requires A.ValidConfig(cfg) && !cfg.fallback && k < |Run(cfg, secure, ops).issued|
    ensures var w := Run(cfg, secure, ops);
      var h := w.issued[k];
      && h.slab < |w.allocations| == |w.state.slab.pools.inUse| && h.id != 0 && SlabOf(h.id) == h.slab
      && GetBytes(cfg, w.state, h.id, true).1 == (if Accepted(w, k) then Success(h.slab) else Failure(StaleHandle))
      && FreeHandle(cfg, w.state, h.id, true, draw).1 == (if Accepted(w, k) then None else Some(StaleHandle))
  {
    hide A.Shaped, Covers, FreeCount, FreeBag, Pack, SlabOf, GenerationOf, FreeHandle, GoodSlab, GoodIssue, Run, Step;
    EveryRunGood(cfg, secure, ops);
    var w := Run(cfg, secure, ops);
    SizesMatch(cfg, w.state);
    IssueUnpacks(w, k);
    MatchesExactlyWhen(w, k);
    IssueFrees(w, k);
    var e := FreeEffect(cfg, w.state, w.issued[k].id, draw);
  }

  /** Worlds only grow: issued handles stay, allocation counts do not go down, and a slab
      that is free now is in use later only if it has been allocated again. */
  ghost predicate Grows(w: World, v: World) {
    && w.issued <= v.issued
    && |w.allocations| == |v.allocations| == |w.state.slab.pools.inUse| == |v.state.slab.pools.inUse|
    && (forall i :: 0 <= i < |w.allocations| ==> w.allocations[i] <= v.allocations[i])
    && (forall i :: 0 <= i < |w.allocations| && !w.state.slab.pools.inUse[i] && v.state.slab.pools.inUse[i] ==>
         w.allocations[i] < v.allocations[i])
  }

  lemma MoveGrows(w: World, e: Effect, v: World)
    requires Good(w) && Moves(w, e, v)
    ensures Grows(w, v)
  {
    hide Covers, FreeCount, FreeBag, Pack, SlabOf, GenerationOf, GoodSlab, GoodIssue;
  }

  lemma {:induction false} RunGrows(cfg: A.Config, secure: bool, ops: seq<Op>, more: seq<Op>)
    requires A.ValidConfig(cfg) && !cfg.fallback
    ensures Grows(Run(cfg, secure, ops), Run(cfg, secure, ops + more))
    decreases |more|
  {
    hide Sized, Good, Moves, Step, Run, GoodSlab, GoodIssue, Covers, FreeCount;
    EveryRunGood(cfg, secure, ops);
    if more == [] {
      assert ops + more == ops;
      assert Grows(Run(cfg, secure, ops), Run(cfg, secure, ops)) by {
        GoodGrows(Run(cfg, secure, ops));
      }
    } else {
      var n := |more| - 1;
      var extended := ops + more[..n];
      RunGrows(cfg, secure, ops, more[..n]);
      assert ops + more == extended + [more[n]];
      RunNext(cfg, secure, extended, more[n]);
      EveryRunGood(cfg, secure, extended);
      var e := StepMoves(cfg, Run(cfg, secure, extended), more[n]);
      MoveGrows(Run(cfg, secure, extended), e, Run(cfg, secure, ops + more));
    }
  }

  lemma GoodGrows(w: World)
    requires Good(w)
    ensures Grows(w, w)
  {
  }

  /** From a successful FreeHandle on, the handle is answered with ErrStaleHandle through
      every continuation of the run until its slab has been allocated 2^31 more times, and
      at exactly that many, with the slab in use, it is accepted again: the bound is tight. */
  lemma StaleUntilWrap(cfg: A.Config, secure: bool, ops: seq<Op>, k: nat, draw: nat, more: seq<Op>)
    requires A.ValidConfig(cfg) && !cfg.fallback && k < |Run(cfg, secure, ops).issued|
    requires FreeHandle(cfg, Run(cfg, secure, ops).state, Run(cfg, secure, ops).issued[k].id, true, draw).1 == None
    ensures RefusedForAWhile(cfg, Run(cfg, secure, ops), Run(cfg, secure, ops + [DoFree(k, draw)] + more), k, draw)
  {
    hide Sized, Good, Moves, Step, Run, GoodSlab, GoodIssue, Covers, FreeCount, Pack, SlabOf, GenerationOf,
         FreeHandle, GetBytes, Shaped, A.Shaped;
    var w, freed := Run(cfg, secure, ops), ops + [DoFree(k, draw)];
    EveryRunGood(cfg, secure, ops);
    AcceptedExactlyWhen(cfg, secure, ops, k, draw);
    var e := StepMoves(cfg, w, DoFree(k, draw));
    RunNext(cfg, secure, ops, DoFree(k, draw));
    Freeing(w, e.slab, Run(cfg, secure, freed));
    RunGrows(cfg, secure, freed, more);
    RunGrows(cfg, secure, ops, [DoFree(k, draw)] + more);
    assert ops + ([DoFree(k, draw)] + more) == freed + more;
    AcceptedExactlyWhen(cfg, secure, freed + more, k, draw);
  }

  lemma Freeing(w: World, slab: nat, w1: World)
    requires Good(w) && Moves(w, Freed(slab), w1)
    ensures |w1.allocations| == |w1.state.slab.pools.inUse| == |w.allocations| && slab < |w.allocations|
    ensures w1.allocations == w.allocations && !w1.state.slab.pools.inUse[slab]
  {
  }

  /** Handle k, accepted in w and freed then, as answered in the later world v. */
  ghost predicate RefusedForAWhile(cfg: A.Config, w: World, v: World, k: nat, draw: nat)
    requires Sized(cfg, w) && Sized(cfg, v) && k < |w.issued|
  {
    && k < |v.issued| && v.issued[k] == w.issued[k] && w.issued[k].slab < |w.allocations| <= |v.allocations|
    && var h := w.issued[k];
       var before, now := w.allocations[h.slab], v.allocations[h.slab];
       var got, freed := GetBytes(cfg, v.state, h.id, true).1, FreeHandle(cfg, v.state, h.id, true, draw).1;
       && before <= now
       && (now < before + TWO_31 ==> got == Failure(StaleHandle) && freed == Some(StaleHandle))
       && (now == before + TWO_31 && v.state.slab.pools.inUse[h.slab] ==> got == Success(h.slab) && freed == None)
  }

  lemma {:induction false} EveryRunEven(cfg: A.Config, secure: bool, ops: seq<Op>)
    requires A.ValidConfig(cfg) && !cfg.fallback
    ensures EvenWhenFree(Run(cfg, secure, ops).state)
  {
    hide Run, Covers, FreeCount, GoodIssue, A.Shaped;
    EveryRunGood(cfg, secure, ops);
    var w := Run(cfg, secure, ops);
    forall i | 0 <= i < |w.state.generations| && !w.state.slab.pools.inUse[i] ensures w.state.generations[i] % 2 == 0 {
      assert GoodSlab(w, i);
      Parity(2 * w.allocations[i]);
    }
  }

  // ---- The wrap-around is really reached ----

  /** n times: allocate, and free the handle just issued. */
  ghost function Cycles(o: A.Outside, n: nat): seq<Op> {
    if n == 0 then [] else Cycles(o, n - 1) + [DoAllocate(o, o)] + [DoFree(n - 1, 0)]
  }

  /** One slab, at most one cache, no breaker. */
  ghost predicate Tiny(cfg: A.Config) {
    A.ValidConfig(cfg) && !cfg.fallback && cfg.breaker.None? && cfg.geometry.capacity == 1 && cfg.cacheCount <= 1
  }

  /** After n handles, with the slab in use or not. */
  ghost predicate AfterHandles(w: World, n: nat, inUse: bool) {
    |w.issued| == n && w.allocations == [n] && w.state.slab.pools.inUse == [inUse]
    && (n > 0 ==> w.issued[n - 1].slab == 0 && w.issued[n - 1].number == n)
  }

  /** With at most one cache and no breaker, a fast allocation succeeds if a slab is free. */
  lemma FastSucceeds(cfg: A.Config, s: A.State, o: A.Outside)
    requires A.Shaped(cfg, s) && cfg.breaker.None? && cfg.cacheCount <= 1
    requires Covers(s.pools) && FreeCount(s.pools.inUse) > 0
    ensures A.AllocateFast(cfg, s, o).1.Success?
  {
    A.ShapedIsSized(cfg, s);
    C.OutOfMemoryMeans(s.pools, o.cpu, o.start);
    hide Covers, FreeCount, WellFormed, C.EmptyHanded, C.Acquire;
  }

  lemma TinyAllocate(cfg: A.Config, w: World, o: A.Outside, n: nat)
    requires Tiny(cfg) && Sized(cfg, w) && Good(w) && AfterHandles(w, n, false)
    ensures AfterHandles(Step(cfg, w, DoAllocate(o, o)), n + 1, true)
  {
    hide A.Shaped, Covers, FreeCount, GoodSlab, GoodIssue, Pack, SlabOf, AllocateHandle, A.AllocateFast;
    SizesMatch(cfg, w.state);
    A.AllocateFastClaims(cfg, w.state.slab, o);
    NoneFree(w.state.slab.pools.inUse);
    assert !w.state.slab.pools.inUse[0];
    FastSucceeds(cfg, w.state.slab, o);
    var e := AllocateEffect(cfg, w.state, o, o);
    var r := AllocateHandle(cfg, w.state, o, o);
    assert r.1.Success? by {
      SuccessIsHandedOut(cfg, w.state, o);
    }
    hide Shaped;
    var w1 := Step(cfg, w, DoAllocate(o, o));
    IssueMoves(w, e, true, r, w1);
    hide Step;
  }

  lemma SuccessIsHandedOut(cfg: A.Config, s: State, o: A.Outside)
    requires Shaped(cfg, s) && A.AllocateFast(cfg, s.slab, o).1.Success?
    ensures AllocateHandle(cfg, s, o, o).1.Success?
  {
    hide A.AllocateFast, A.Allocate, A.Shaped, Shaped;
  }

  lemma TinyFree(cfg: A.Config, w: World, n: nat)
    requires Sized(cfg, w) && Good(w) && AfterHandles(w, n + 1, true)
    ensures FreeHandle(cfg, w.state, w.issued[n].id, true, 0).1.None?
    ensures AfterHandles(Step(cfg, w, DoFree(n, 0)), n + 1, false)
  {
    hide A.Shaped, Sized, Covers, FreeCount, GoodSlab, GoodIssue, Pack, SlabOf, GenerationOf, FreeHandle, Step;
    IssueUnpacks(w, n);
    MatchesExactlyWhen(w, n);
    var e := StepMoves(cfg, w, DoFree(n, 0));
  }

  lemma {:induction false} CyclesRun(cfg: A.Config, secure: bool, o: A.Outside, n: nat)
    requires Tiny(cfg)
    ensures AfterHandles(Run(cfg, secure, Cycles(o, n)), n, false)
  {
    hide Sized, Good, Step, A.ValidConfig, Run;
    if n == 0 {
      RunNothing(cfg, secure);
      hide New, A.New;
    } else {
      hide AfterHandles;
      var m: nat := n - 1;
      CyclesRun(cfg, secure, o, m);
      var before := Cycles(o, m);
      EveryRunGood(cfg, secure, before);
      TinyAllocate(cfg, Run(cfg, secure, before), o, m);
      RunNext(cfg, secure, before, DoAllocate(o, o));
      EveryRunGood(cfg, secure, before + [DoAllocate(o, o)]);
      TinyFree(cfg, Run(cfg, secure, before + [DoAllocate(o, o)]), m);
      RunNext(cfg, secure, before + [DoAllocate(o, o)], DoFree(m, 0));
    }
  }

  /** A run in which the first handle ever issued is freed at once, and accepted again after
      2^31 more allocations of its slab. */
  lemma WrapIsReached(cfg: A.Config, secure: bool, o: A.Outside)
    requires Tiny(cfg)
    ensures var first := Run(cfg, secure, Cycles(o, 0) + [DoAllocate(o, o)]);
      var w := Run(cfg, secure, Cycles(o, TWO_31) + [DoAllocate(o, o)]);
      && |first.issued| == 1 && |w.issued| == TWO_31 + 1 && w.issued[0] == first.issued[0]
      && FreeHandle(cfg, first.state, first.issued[0].id, true, 0).1.None?
      && GetBytes(cfg, w.state, w.issued[0].id, true).1 == Success(0)
  {
    hide Sized, Good, Step, A.ValidConfig, GetBytes, FreeHandle, A.Shaped, Run;
    TinyRun(cfg, secure, o, 0);
    TinyRun(cfg, secure, o, TWO_31);
    var first, last := Cycles(o, 0) + [DoAllocate(o, o)], Cycles(o, TWO_31) + [DoAllocate(o, o)];
    EveryRunGood(cfg, secure, first);
    TinyFree(cfg, Run(cfg, secure, first), 0);
    var rest := CyclesExtend(o, TWO_31);
    RunGrows(cfg, secure, first, rest);
    assert last == first + rest;
    AcceptedExactlyWhen(cfg, secure, last, 0, 0);
    hide Cycles;
  }

  lemma TinyRun(cfg: A.Config, secure: bool, o: A.Outside, n: nat)
    requires Tiny(cfg)
    ensures AfterHandles(Run(cfg, secure, Cycles(o, n) + [DoAllocate(o, o)]), n + 1, true)
  {
    hide Sized, Good, Step, A.ValidConfig, AfterHandles, Cycles, Run;
    CyclesRun(cfg, secure, o, n);
    EveryRunGood(cfg, secure, Cycles(o, n));
    TinyAllocate(cfg, Run(cfg, secure, Cycles(o, n)), o, n);
    RunNext(cfg, secure, Cycles(o, n), DoAllocate(o, o));
  }

  /** Every positive number of cycles starts with the same allocation. */
  lemma {:induction false} CyclesExtend(o: A.Outside, n: nat) returns (rest: seq<Op>)
    ensures Cycles(o, n) + [DoAllocate(o, o)] == Cycles(o, 0) + [DoAllocate(o, o)] + rest
  {
    if n == 0 {
      rest := [];
    } else {
      rest := CyclesExtend(o, n - 1);
      rest := rest + [DoFree(n - 1, 0), DoAllocate(o, o)];
      assert Cycles(o, n) == Cycles(o, n - 1) + [DoAllocate(o, o)] + [DoFree(n - 1, 0)];
    }
  }

  /** The allocation statistic counts every issued handle if and only if no allocation took
      the slow path, and live slabs are issued handles less successful frees. */
  lemma HandlesAreConserved(cfg: A.Config, secure: bool, ops: seq<Op>)
    requires A.ValidConfig(cfg) && !cfg.fallback
    ensures var w := Run(cfg, secure, ops);
      && cfg.geometry.capacity - FreeCount(w.state.slab.pools.inUse) == |w.issued| - w.state.stats.deallocations
      && (w.state.stats.allocations == |w.issued| <==> w.slow == 0)
  {
    EveryRunGood(cfg, secure, ops);
    hide Run, Step, Covers, FreeCount, GoodSlab, GoodIssue, A.Shaped;
  }
}
