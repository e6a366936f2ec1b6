/** What each call of the allocator answers, and what it leaves behind, said of the state
    before it: every error with its exact condition, and what the breaker is told. */
module Answers {
  import opened Allocator
  import opened AllocatorRuns
  import opened Bags
  import opened Breaker
  import opened Claims
  import opened Pools
  import opened Wrappers
  import M = Memory

  /** The history of an allocator with a breaker gains these events. */
  ghost predicate Told(cfg: Config, s: State, s1: State, events: seq<Event>) {
    s1.history == if cfg.breaker.Some? then s.history + events else s.history
  }

  // ---- Single allocations ----

  /** What both single allocations take, and where they differ: only AllocateFast reports a
      success, and only Allocate falls back to the heap, which it does not report. */
  lemma AllocationAnswers(cfg: Config, s: State, o: Outside)
    requires Shaped(cfg, s)
    ensures var (s1, fast) := AllocateFast(cfg, s, o);
      var (s2, slow) := Allocate(cfg, s, o);
      && s1.pools == s2.pools && s1.memory == s2.memory == s.memory && s1.secure == s2.secure == s.secure
      && fast.Failure? == (fast == Failure(CircuitBreakerOpen) || fast == Failure(OutOfMemory))
      && (fast == Failure(CircuitBreakerOpen) <==> Refuses(cfg, s, o.checkedAt))
      && (slow == Failure(CircuitBreakerOpen) <==> Refuses(cfg, s, o.checkedAt))
      && (forall id :: slow == Success(Slab(id)) <==> fast == Success(id))
      && (slow == Success(Heap) <==> fast == Failure(OutOfMemory) && cfg.fallback)
      && (slow == Failure(OutOfMemory) <==> fast == Failure(OutOfMemory) && !cfg.fallback)
      && (Refuses(cfg, s, o.checkedAt) ==> s1.pools == s.pools)
      && Told(cfg, s, s1, if fast.Success? then [Checked(o.checkedAt), Succeeded]
                          else if fast == Failure(OutOfMemory) then [Checked(o.checkedAt), Failed(o.recordedAt)]
                          else [Checked(o.checkedAt)])
      && Told(cfg, s, s2, if slow == Failure(OutOfMemory) then [Checked(o.checkedAt), Failed(o.recordedAt)]
                          else [Checked(o.checkedAt)])
  {
    hide Acquire, Shaped, GoodClaim, Covers, Exact, WellFormed;
  }

  // ---- Batches ----

  /** A batch that is let through: the error beside what it grants. */
  lemma GrantAnswers(cfg: Config, s: State, n: nat, o: Outside)
    requires Shaped(cfg, s) && n > 0
    ensures var (s1, r) := GrantBatch(cfg, s, n, o);
      && |r.refs| <= n && (cfg.fallback ==> |r.refs| == n)
      && r.error == (if |r.refs| == 0 then Some(OutOfMemory) else if |r.refs| < n then Some(PartialBatch) else None)
      && Told(cfg, s, s1, if |r.refs| == 0 then [Failed(o.recordedAt)] else [])
  {
    hide Shaped, ClaimBatch, AllSlabs, AllInRange;
  }

  /** The error of a batch, and what the breaker is told: of an invalid number nothing, and
      of the rest the check and, if it was let through and came back empty, a failure. */
  lemma BatchAnswers(cfg: Config, s: State, n: int, o: Outside)
    requires Shaped(cfg, s)
    ensures var (s1, r) := BatchAllocate(cfg, s, n, o);
      var valid := 0 < n <= 256;
      var letThrough := valid && !Refuses(cfg, s, o.checkedAt);
      && (r.error == Some(InvalidBatchSize) <==> !valid)
      && (r.error == Some(CircuitBreakerOpen) <==> valid && Refuses(cfg, s, o.checkedAt))
      && (r.error == Some(OutOfMemory) <==> letThrough && |r.refs| == 0)
      && (r.error == Some(PartialBatch) <==> letThrough && 0 < |r.refs| < n)
      && (r.error == None <==> letThrough && |r.refs| == n)
      && |r.refs| <= (if letThrough then n else 0)
      && (letThrough && cfg.fallback ==> |r.refs| == n)
      && (!letThrough ==> s1.pools == s.pools)
      && s1.memory == s.memory && s1.secure == s.secure
      && Told(cfg, s, s1, if !valid then []
                          else if letThrough && |r.refs| == 0 then [Checked(o.checkedAt), Failed(o.recordedAt)]
                          else [Checked(o.checkedAt)])
  {
    hide Shaped, Refuses, GrantBatch;
    if 0 < n <= 256 && !Refuses(cfg, s, o.checkedAt) {
      GrantAnswers(cfg, Note(cfg, s, Checked(o.checkedAt)), n, o);
    }
  }

  // ---- Freeing ----

  /** A slab was given back: its flag is cleared, its bytes are zero if secure and else as
      they were, no other slab's bytes changed, the ID is listed once more, and the breaker is
      told of a success. */
  ghost predicate GivenBack(cfg: Config, s: State, id: int, s1: State)
    requires Shaped(cfg, s) && Shaped(cfg, s1) && IsSlab(cfg, id)
  {
    && s1.pools.inUse == s.pools.inUse[id := false]
    && Bag(s1.pools) == Bag(s.pools) + multiset{id}
    && (if s.secure then M.AllZero(M.Window(cfg.geometry, s1.memory, id)) else s1.memory == s.memory)
    && (forall x :: IsSlab(cfg, x) && x != id ==>
          M.Window(cfg.geometry, s1.memory, x) == M.Window(cfg.geometry, s.memory, x))
    && s1.secure == s.secure
    && Told(cfg, s, s1, [Succeeded])
  }

  lemma RecycleGivesBack(cfg: Config, s: State, id: int, draw: nat)
    requires Shaped(cfg, s) && IsSlab(cfg, id)
    ensures GivenBack(cfg, s, id, Recycle(cfg, s, id, draw))
  {
    forall x | IsSlab(cfg, x) && x != id
      ensures M.Window(cfg.geometry, Recycle(cfg, s, id, draw).memory, x) == M.Window(cfg.geometry, s.memory, x)
    {
      M.ZeroIsLocal(cfg.geometry, s.memory, id, x);
    }
    M.ZeroIsLocal(cfg.geometry, s.memory, id, id);
    hide M.Zero, M.Window, M.AllZero, Release, WellFormed, Bag;
  }

  /** DeallocateFast frees exactly a slab in range that is in use; a double free and an ID out
      of range are refused without effect. */
  lemma DeallocateFastAnswers(cfg: Config, s: State, id: int, draw: nat)
    requires Shaped(cfg, s)
    ensures var (s1, e) := DeallocateFast(cfg, s, id, draw);
      && (e == Some(InvalidSlabID) <==> id < 0 || id >= cfg.geometry.capacity)
      && (e == Some(DoubleDeallocation) <==> 0 <= id < cfg.geometry.capacity && !s.pools.inUse[id])
      && (e == None <==> 0 <= id < cfg.geometry.capacity && s.pools.inUse[id])
      && (e.Some? ==> s1 == s)
      && (e.None? ==> GivenBack(cfg, s, id, s1))
  {
    if 0 <= id < cfg.geometry.capacity {
      RecycleGivesBack(cfg, s, id, draw);
    }
    hide Recycle, GivenBack;
  }

  /** Deallocate of a reference object frees its slab if the object is live, or nothing if it
      stands for heap memory, of which the breaker is not told; in both cases the object, and
      no other, is released. Of a released object nothing happens. */
  lemma DeallocateAnswers(cfg: Config, w: World, r: nat, draw: nat)
    requires Shaped(cfg, w.state) && RefsInRange(cfg, w) && r < |w.refs|
    ensures var w1, ref := Step(cfg, w, DoDeallocate(r, draw)), w.refs[r];
      && Shaped(cfg, w1.state)
      && (!ref.live ==> w1 == w)
      && (ref.live && ref.backing.Heap? ==> w1.state == w.state)
      && (ref.live && ref.backing.Slab? ==>
            IsSlab(cfg, ref.backing.id) && GivenBack(cfg, w.state, ref.backing.id, w1.state))
      && |w1.refs| == |w.refs| && w1.refs[r] == Ref(ref.backing, false)
      && (forall x :: 0 <= x < |w.refs| && x != r ==> w1.refs[x] == w.refs[x])
  {
    DeallocateUnfolds(cfg, w, r, draw);
    var ref := w.refs[r];
    hide Step, Recycle, Shaped, GivenBack;
    if ref.live && ref.backing.Slab? {
      RecycleGivesBack(cfg, w.state, ref.backing.id, draw);
    }
  }

  // ---- Reset and secure mode ----

  /** Reset leaves the bytes alone unless secure, keeps the mode, and restarts the breaker. */
  lemma ResetAnswers(cfg: Config, s: State)
    requires Shaped(cfg, s)
    ensures var s1 := Reset(cfg, s);
      && s1.secure == s.secure && FreeCount(s1.pools.inUse) == cfg.geometry.capacity
      && (if s.secure then forall id :: IsSlab(cfg, id) ==> M.AllZero(M.Window(cfg.geometry, s1.memory, id))
          else s1.memory == s.memory)
      && Told(cfg, s, s1, [WasCleared])
  {
    ResetRestoresNew(cfg, s, false);
    AllFreeCount(cfg.geometry.capacity);
    hide FreeCount, M.ZeroFirst;
  }
}
