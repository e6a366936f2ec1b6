/** What holds after every sequential run of the allocator. */
module AllocatorRuns {
  import opened Allocator
  import opened Bags
  import opened Breaker
  import opened Claims
  import opened Pools
  import opened Wrappers
  import M = Memory

  /** Every free slab is listed; with caching off each exactly once and nothing else. */
  ghost predicate Listing(cfg: Config, p: Pools) {
    Covers(p) && (cfg.cacheCount == 0 ==> Exact(p))
  }

  /** Live references hold pairwise distinct slabs, all in use. */
  ghost predicate Exclusive(refs: seq<Ref>, u: seq<bool>) {
    && (forall r :: 0 <= r < |refs| && HoldsSlab(refs[r]) ==> 0 <= refs[r].backing.id < |u| && u[refs[r].backing.id])
    && (forall q, r :: 0 <= q < r < |refs| && HoldsSlab(refs[q]) && HoldsSlab(refs[r]) ==>
         refs[q].backing.id != refs[r].backing.id)
  }

  ghost predicate HoldsSlab(ref: Ref) {
    ref.live && ref.backing.Slab?
  }

  /** Every free slab is all zero. */
  ghost predicate FreeAreZero(cfg: Config, s: State)
    requires Shaped(cfg, s)
  {
    forall id :: IsSlab(cfg, id) && !s.pools.inUse[id] ==> M.AllZero(M.Window(cfg.geometry, s.memory, id))
  }

  ghost predicate Good(cfg: Config, secure: bool, w: World) {
    && Shaped(cfg, w.state)
    && Listing(cfg, w.state.pools)
    && Exclusive(w.refs, w.state.pools.inUse)
    && (secure ==> w.state.secure && FreeAreZero(cfg, w.state))
  }

  lemma NewIsGood(cfg: Config, secure: bool)
    requires ValidConfig(cfg)
    ensures Good(cfg, secure, World(New(cfg, secure), []))
  {
    FreshIsExact(cfg.geometry.capacity, cfg.cacheCount, cfg.rows, cfg.geometry.alignedSize);
    var s := New(cfg, secure);
    forall id | IsSlab(cfg, id) ensures M.AllZero(M.Window(cfg.geometry, s.memory, id)) {
      M.WindowOfZeros(cfg.geometry, s.memory, id);
    }
  }

  // ---- One operation at a time ----

  lemma FlagsGrow(refs: seq<Ref>, u: seq<bool>, v: seq<bool>)
    requires Exclusive(refs, u) && |v| == |u| && forall x :: 0 <= x < |u| && u[x] ==> v[x]
    ensures Exclusive(refs, v)
  {
  }

  /** An object issued for a heap block or for a slab that was free, in use from now on. */
  lemma IssueIsExclusive(refs: seq<Ref>, u: seq<bool>, backing: Backing, reuse: nat, v: seq<bool>)
    requires Exclusive(refs, u)
    requires if backing.Slab? then 0 <= backing.id < |u| && !u[backing.id] && v == u[backing.id := true] else v == u
    ensures Exclusive(Issue(refs, backing, reuse), v)
  {
    var after := Issue(refs, backing, reuse);
    var k := if reuse < |refs| && !refs[reuse].live then reuse else |refs|;
    assert after[k] == Ref(backing, true);
    assert forall r :: 0 <= r < |after| && r != k ==> after[r] == refs[r];
  }

  /** The slabs claimed, in order, then heap blocks. */
  ghost predicate Names(backings: seq<Backing>, ids: seq<int>) {
    && |ids| <= |backings|
    && forall i :: 0 <= i < |backings| ==> backings[i] == if i < |ids| then Slab(ids[i]) else Heap
  }

  lemma {:induction false} IssueAllIsExclusive(refs: seq<Ref>, u: seq<bool>, ids: seq<int>, backings: seq<Backing>,
                                               reuse: nat -> nat, k: nat, v: seq<bool>)
    requires Exclusive(refs, u) && ClaimedInOrder(u, ids, v) && Names(backings, ids)
    ensures Exclusive(IssueAll(refs, backings, reuse, k), v)
    decreases |backings|
  {
    hide Exclusive, Issue;
    if backings != [] {
      var rest := backings[1..];
      if ids == [] {
        assert Names(rest, []);
        IssueIsExclusive(refs, u, backings[0], reuse(k), u);
        IssueAllIsExclusive(Issue(refs, backings[0], reuse(k)), u, [], rest, reuse, k + 1, v);
      } else {
        assert Names(rest, ids[1..]);
        var u1 := u[ids[0] := true];
        IssueIsExclusive(refs, u, backings[0], reuse(k), u1);
        IssueAllIsExclusive(Issue(refs, backings[0], reuse(k)), u1, ids[1..], rest, reuse, k + 1, v);
      }
    }
  }

  lemma ClaimKeepsGood(cfg: Config, secure: bool, w: World, ids: seq<int>, w1: World)
    requires Good(cfg, secure, w) && Shaped(cfg, w1.state)
    requires w1.state.memory == w.state.memory && w1.state.secure == w.state.secure
    requires Listing(cfg, w1.state.pools) && ClaimedInOrder(w.state.pools.inUse, ids, w1.state.pools.inUse)
    requires w1.refs == w.refs || Exclusive(w1.refs, w1.state.pools.inUse)
    ensures Good(cfg, secure, w1)
  {
    InOrderMeans(w.state.pools.inUse, ids, w1.state.pools.inUse);
    FlagsGrow(w.refs, w.state.pools.inUse, w1.state.pools.inUse);
    hide ClaimedInOrder, Exclusive, Listing;
  }

  lemma ClaimOne(u: seq<bool>, slot: Option<int>, v: seq<bool>)
    requires slot.Some? ==> 0 <= slot.value < |u| && !u[slot.value] && v == u[slot.value := true]
    requires slot.None? ==> v == u
    ensures ClaimedInOrder(u, if slot.Some? then [slot.value] else [], v)
  {
    if slot.Some? {
      assert [slot.value][1..] == [];
    }
  }

  ghost function SlotIds(slot: Option<int>): seq<int> {
    if slot.Some? then [slot.value] else []
  }

  /** What both single allocations do to the pools. */
  lemma AcquireKeepsListing(cfg: Config, s: State, o: Outside)
    requires Shaped(cfg, s) && Listing(cfg, s.pools)
    ensures var c := Acquire(s.pools, o.cpu, o.start);
      Listing(cfg, c.pools) && ClaimedInOrder(s.pools.inUse, SlotIds(c.slot), c.pools.inUse)
  {
    var c := Acquire(s.pools, o.cpu, o.start);
    ClaimOne(s.pools.inUse, c.slot, c.pools.inUse);
  }

  lemma AllocateFastKeepsGood(cfg: Config, secure: bool, w: World, o: Outside)
    requires Good(cfg, secure, w) && RefsInRange(cfg, w)
    ensures Good(cfg, secure, Step(cfg, w, DoAllocateFast(o)))
  {
    hide ClaimedInOrder, Acquire, Listing, Exclusive, FreeAreZero, Step, Refuses;
    var w1 := Step(cfg, w, DoAllocateFast(o));
    FastMoves(cfg, w, o);
    if Refuses(cfg, w.state, o.checkedAt) {
      SameKeepsGood(cfg, secure, w, w1);
    } else {
      AcquireKeepsListing(cfg, w.state, o);
      ClaimKeepsGood(cfg, secure, w, SlotIds(Acquire(w.state.pools, o.cpu, o.start).slot), w1);
    }
  }

  lemma FastMoves(cfg: Config, w: World, o: Outside)
    requires Shaped(cfg, w.state) && RefsInRange(cfg, w)
    ensures var w1 := Step(cfg, w, DoAllocateFast(o));
      && w1.refs == w.refs
      && w1.state == w.state.(history := w1.state.history, pools := w1.state.pools)
      && w1.state.pools
           == if Refuses(cfg, w.state, o.checkedAt) then w.state.pools else Acquire(w.state.pools, o.cpu, o.start).pools
  {
    hide Acquire, Shaped, Refuses, RefsInRange;
  }

  lemma AllocateKeepsGood(cfg: Config, secure: bool, w: World, o: Outside, reuse: nat)
    requires Good(cfg, secure, w) && RefsInRange(cfg, w)
    ensures Good(cfg, secure, Step(cfg, w, DoAllocate(o, reuse)))
  {
    var w1 := Step(cfg, w, DoAllocate(o, reuse));
    if !Refuses(cfg, w.state, o.checkedAt) {
      AcquireKeepsListing(cfg, w.state, o);
      var ids := SlotIds(Acquire(w.state.pools, o.cpu, o.start).slot);
      AllocateIssues(cfg, w, o, reuse);
      hide ClaimedInOrder, Acquire, Listing, Exclusive, FreeAreZero, Step;
      ClaimKeepsGood(cfg, secure, w, ids, w1);
    }
  }

  lemma AllocateIssues(cfg: Config, w: World, o: Outside, reuse: nat)
    requires Shaped(cfg, w.state) && RefsInRange(cfg, w) && !Refuses(cfg, w.state, o.checkedAt)
    requires Exclusive(w.refs, w.state.pools.inUse)
    ensures var w1, c := Step(cfg, w, DoAllocate(o, reuse)), Acquire(w.state.pools, o.cpu, o.start);
      && w1.state.pools == c.pools && w1.state.memory == w.state.memory && w1.state.secure == w.state.secure
      && (w1.refs == w.refs || Exclusive(w1.refs, w1.state.pools.inUse))
  {
    hide Exclusive, Issue;
    var (s1, got) := Allocate(cfg, w.state, o);
    if got.Success? {
      IssueIsExclusive(w.refs, w.state.pools.inUse, got.value, reuse, s1.pools.inUse);
    }
    hide Acquire, Shaped, Covers, Exact, WellFormed;
  }

  lemma BatchKeepsGood(cfg: Config, secure: bool, w: World, n: int, o: Outside, reuse: nat -> nat)
    requires Good(cfg, secure, w) && RefsInRange(cfg, w)
    ensures Good(cfg, secure, Step(cfg, w, DoBatch(n, o, reuse)))
  {
    hide ClaimedInOrder, AcquireBatch, Exclusive, BatchAllocate, FreeAreZero, GoodBatch, Refuses, IssueAll;
    var w1 := Step(cfg, w, DoBatch(n, o, reuse));
    BatchUnfolds(cfg, w, n, o, reuse);
    if 0 < n <= MAX_BATCH_SIZE && !Refuses(cfg, w.state, o.checkedAt) {
      BatchGrants(cfg, w.state, n, o);
      BatchKeepsListing(cfg, w.state, n, o);
      BatchIssues(cfg, w, n, o, reuse);
      hide Step, Shaped, Listing;
      ClaimKeepsGood(cfg, secure, w, AcquireBatch(w.state.pools, n, o.cpu, o.start).ids, w1);
    } else {
      NoBatch(cfg, w.state, n, o);
      NoneIssued(w.refs, reuse);
      hide Listing, Shaped, Step;
      assert w1.refs == w.refs;
      SameKeepsGood(cfg, secure, w, w1);
    }
  }

  lemma NoneIssued(refs: seq<Ref>, reuse: nat -> nat)
    ensures IssueAll(refs, [], reuse, 0) == refs
  {
  }

  lemma BatchKeepsListing(cfg: Config, s: State, n: nat, o: Outside)
    requires Shaped(cfg, s) && Listing(cfg, s.pools)
    ensures var b := AcquireBatch(s.pools, n, o.cpu, o.start);
      Listing(cfg, b.pools) && ClaimedInOrder(s.pools.inUse, b.ids, b.pools.inUse)
  {
    hide AcquireBatch, ClaimedInOrder, Covers, Exact, WellFormed, SameSizes;
  }

  lemma NoBatch(cfg: Config, s: State, n: int, o: Outside)
    requires Shaped(cfg, s) && (n <= 0 || n > MAX_BATCH_SIZE || Refuses(cfg, s, o.checkedAt))
    ensures var r := BatchAllocate(cfg, s, n, o);
      r.1.refs == [] && r.0 == s.(history := r.0.history)
  {
    hide GrantBatch, Shaped, Refuses;
  }

  /** Nothing but the breaker's history changed. */
  lemma SameKeepsGood(cfg: Config, secure: bool, w: World, w1: World)
    requires Good(cfg, secure, w) && Shaped(cfg, w1.state)
    requires w1.refs == w.refs && w1.state == w.state.(history := w1.state.history)
    ensures Good(cfg, secure, w1)
  {
    hide Listing, Exclusive;
  }

  lemma BatchIssues(cfg: Config, w: World, n: int, o: Outside, reuse: nat -> nat)
    requires Shaped(cfg, w.state) && RefsInRange(cfg, w) && 0 < n <= MAX_BATCH_SIZE && !Refuses(cfg, w.state, o.checkedAt)
    requires Exclusive(w.refs, w.state.pools.inUse)
    requires var b := AcquireBatch(w.state.pools, n, o.cpu, o.start);
      ClaimedInOrder(w.state.pools.inUse, b.ids, b.pools.inUse)
    ensures var w1 := Step(cfg, w, DoBatch(n, o, reuse));
      Exclusive(w1.refs, w1.state.pools.inUse)
  {
    BatchUnfolds(cfg, w, n, o, reuse);
    hide Step, BatchAllocate, AcquireBatch, Shaped, RefsInRange, Exclusive, ClaimedInOrder, IssueAll;
    BatchGrants(cfg, w.state, n, o);
    var b := AcquireBatch(w.state.pools, n, o.cpu, o.start);
    var granted := BatchAllocate(cfg, w.state, n, o).1.refs;
    assert Names(granted, b.ids);
    IssueAllIsExclusive(w.refs, w.state.pools.inUse, b.ids, granted, reuse, 0, b.pools.inUse);
  }

  lemma BatchUnfolds(cfg: Config, w: World, n: int, o: Outside, reuse: nat -> nat)
    requires Shaped(cfg, w.state) && RefsInRange(cfg, w)
    ensures var r := BatchAllocate(cfg, w.state, n, o);
      Step(cfg, w, DoBatch(n, o, reuse)) == World(r.0, IssueAll(w.refs, r.1.refs, reuse, 0))
    ensures WellFormed(w.state.pools)
  {
    hide BatchAllocate, IssueAll;
  }

  /** A batch that is let through grants a reference to each slab it claims, in order. */
  lemma BatchGrants(cfg: Config, s: State, n: int, o: Outside)
    requires Shaped(cfg, s) && 0 < n <= MAX_BATCH_SIZE && !Refuses(cfg, s, o.checkedAt)
    ensures var b := AcquireBatch(s.pools, n, o.cpu, o.start);
      var r := BatchAllocate(cfg, s, n, o);
      && r.0.pools == b.pools && |b.ids| <= n && AllSlabs(cfg, b.ids)
      && r.1.refs == References(cfg, b.ids, if cfg.fallback then n else |b.ids|)
      && (r.1.error.None? <==> |r.1.refs| == n)
      && (r.1.error == Some(OutOfMemory) <==> r.1.refs == [])
  {
  }

  lemma RecycleKeepsGood(cfg: Config, secure: bool, w: World, id: int, draw: nat, refs: seq<Ref>)
    requires Good(cfg, secure, w) && IsSlab(cfg, id) && w.state.pools.inUse[id]
    requires Exclusive(refs, w.state.pools.inUse[id := false])
    ensures Good(cfg, secure, World(Recycle(cfg, w.state, id, draw), refs))
  {
    var s, s1 := w.state, Recycle(cfg, w.state, id, draw);
    ReleaseKeepsListing(s.pools, id, draw, cfg.geometry.alignedSize);
    if secure {
      forall x | IsSlab(cfg, x) && !s1.pools.inUse[x] ensures M.AllZero(M.Window(cfg.geometry, s1.memory, x)) {
        M.ZeroIsLocal(cfg.geometry, s.memory, id, x);
      }
    }
  }

  /** Ending one reference and, if it holds a slab, freeing that slab. */
  lemma ExclusiveShrinks(refs: seq<Ref>, u: seq<bool>, r: nat)
    requires Exclusive(refs, u) && r < |refs|
    ensures Exclusive(refs[r := refs[r].(live := false)], u)
    ensures HoldsSlab(refs[r]) ==>
      Exclusive(refs[r := refs[r].(live := false)], u[refs[r].backing.id := false])
  {
    var after := refs[r := refs[r].(live := false)];
    assert forall q :: 0 <= q < |after| && HoldsSlab(after[q]) ==> q != r && after[q] == refs[q];
  }

  lemma DeallocateKeepsGood(cfg: Config, secure: bool, w: World, r: nat, draw: nat)
    requires Good(cfg, secure, w) && RefsInRange(cfg, w) && r < |w.refs|
    ensures Good(cfg, secure, Step(cfg, w, DoDeallocate(r, draw)))
  {
    var ref := w.refs[r];
    DeallocateUnfolds(cfg, w, r, draw);
    hide Step;
    if ref.live {
      ExclusiveShrinks(w.refs, w.state.pools.inUse, r);
      hide Exclusive, Listing, FreeAreZero, Recycle;
      if ref.backing.Slab? {
        SlabHeld(w.refs, w.state.pools.inUse, r);
        RecycleKeepsGood(cfg, secure, w, ref.backing.id, draw, w.refs[r := ref.(live := false)]);
      }
    }
  }

  lemma DeallocateUnfolds(cfg: Config, w: World, r: nat, draw: nat)
    requires Shaped(cfg, w.state) && RefsInRange(cfg, w) && r < |w.refs|
    ensures var ref, after := w.refs[r], w.refs[r := w.refs[r].(live := false)];
      && (ref.backing.Slab? ==> IsSlab(cfg, ref.backing.id))
      && Step(cfg, w, DoDeallocate(r, draw))
           == if !ref.live then w
              else if ref.backing.Heap? then World(w.state, after)
              else World(Recycle(cfg, w.state, ref.backing.id, draw), after)
  {
    hide Shaped, Recycle;
  }

  lemma SlabHeld(refs: seq<Ref>, u: seq<bool>, r: nat)
    requires Exclusive(refs, u) && r < |refs| && HoldsSlab(refs[r])
    ensures 0 <= refs[r].backing.id < |u| && u[refs[r].backing.id]
  {
  }

  lemma DeallocateFastKeepsGood(cfg: Config, secure: bool, w: World, id: int, draw: nat)
    requires Good(cfg, secure, w) && RefsInRange(cfg, w) && Allowed(cfg, w, DoDeallocateFast(id, draw))
    ensures Good(cfg, secure, Step(cfg, w, DoDeallocateFast(id, draw)))
  {
    if IsSlab(cfg, id) && w.state.pools.inUse[id] {
      RecycleKeepsGood(cfg, secure, w, id, draw, w.refs);
    }
  }

  lemma StoreKeepsGood(cfg: Config, secure: bool, w: World, id: int, i: nat, v: M.byte)
    requires Good(cfg, secure, w) && RefsInRange(cfg, w) && Allowed(cfg, w, DoStore(id, i, v))
    ensures Good(cfg, secure, Step(cfg, w, DoStore(id, i, v)))
  {
    if secure {
      var s, s1 := w.state, Step(cfg, w, DoStore(id, i, v)).state;
      forall x | IsSlab(cfg, x) && !s1.pools.inUse[x] ensures M.AllZero(M.Window(cfg.geometry, s1.memory, x)) {
        M.StoreIsLocal(cfg.geometry, s.memory, id, i, v, x);
      }
    }
  }

  lemma ResetKeepsGood(cfg: Config, secure: bool, w: World)
    requires Good(cfg, secure, w) && RefsInRange(cfg, w)
    ensures Good(cfg, secure, Step(cfg, w, DoReset))
  {
    FreshIsExact(cfg.geometry.capacity, cfg.cacheCount, cfg.rows, cfg.geometry.alignedSize);
    ResetRestoresNew(cfg, w.state, secure);
  }

  lemma StepKeepsGood(cfg: Config, secure: bool, w: World, op: Op)
    requires Good(cfg, secure, w) && RefsInRange(cfg, w) && Allowed(cfg, w, op)
    ensures Good(cfg, secure, Step(cfg, w, op))
  {
    match op
    case DoAllocate(o, reuse) => AllocateKeepsGood(cfg, secure, w, o, reuse);
    case DoAllocateFast(o) => AllocateFastKeepsGood(cfg, secure, w, o);
    case DoBatch(n, o, reuse) => BatchKeepsGood(cfg, secure, w, n, o, reuse);
    case DoDeallocate(r, draw) => DeallocateKeepsGood(cfg, secure, w, r, draw);
    case DoDeallocateFast(id, draw) => DeallocateFastKeepsGood(cfg, secure, w, id, draw);
    case DoStore(id, i, v) => StoreKeepsGood(cfg, secure, w, id, i, v);
    case DoSecure =>
    case DoReset => ResetKeepsGood(cfg, secure, w);
  }

  /** After every run: every free slab is listed (exactly once and alone with caching off),
      live references hold distinct slabs in use, and in secure mode free slabs are zero. */
  lemma {:induction false} EveryRunGood(cfg: Config, secure: bool, ops: seq<Op>)
    requires ValidConfig(cfg)
    ensures Good(cfg, secure, Run(cfg, secure, ops))
  {
    if ops == [] {
      NewIsGood(cfg, secure);
    } else {
      var before, op := ops[..|ops| - 1], ops[|ops| - 1];
      EveryRunGood(cfg, secure, before);
      if Allowed(cfg, Run(cfg, secure, before), op) {
        StepKeepsGood(cfg, secure, Run(cfg, secure, before), op);
      }
    }
  }

  // ---- Consequences for every run ----

  /** Sixteen slabs for each cache but one, or all slabs if there are fewer. */
  ghost function StrandingLimit(cfg: Config): nat {
    var others := if cfg.cacheCount == 0 then 0 else 16 * (cfg.cacheCount - 1);
    if cfg.geometry.capacity < others then cfg.geometry.capacity else others
  }

  /** After every run, a breaker that is configured refuses a request if and only if it is
      open and its last recorded failure is at most the recovery timeout old. */
  lemma RefusedExactlyWhen(cfg: Config, secure: bool, ops: seq<Op>, now: int)
    requires ValidConfig(cfg) && cfg.breaker.Some?
    ensures var h := Run(cfg, secure, ops).state.history;
      Refuses(cfg, Run(cfg, secure, ops).state, now) <==>
        After(cfg.breaker.value, h).mode == Open && LastFailure(h).Some?
        && now - LastFailure(h).value <= cfg.breaker.value.timeout
  {
    EveryRunConsistent(cfg.breaker.value, Run(cfg, secure, ops).state.history);
  }

  /** A single allocation that reports out of memory leaves at most sixteen slabs per other
      cache free, or all of them; with at most one cache, a request that is not refused runs out exactly when
      every slab is in use, whatever CPUs and shards are drawn. */
  ghost predicate OutOfMemoryOutcome(cfg: Config, s: State, o: Outside)
    requires Shaped(cfg, s)
  {
    var fast, slow := AllocateFast(cfg, s, o), Allocate(cfg, s, o);
    && (fast.1 == Failure(OutOfMemory) ==>
          EmptyHanded(fast.0.pools) && fast.0.pools.inUse == s.pools.inUse
          && FreeCount(s.pools.inUse) <= StrandingLimit(cfg))
    && (slow.1 == Failure(OutOfMemory) <==> fast.1 == Failure(OutOfMemory) && !cfg.fallback)
    && (cfg.cacheCount <= 1 && !Refuses(cfg, s, o.checkedAt) ==>
          (fast.1 == Failure(OutOfMemory) <==> FreeCount(s.pools.inUse) == 0))
  }

  lemma OutOfMemoryNow(cfg: Config, s: State, o: Outside)
    requires Shaped(cfg, s) && Listing(cfg, s.pools)
    ensures OutOfMemoryOutcome(cfg, s, o)
  {
    hide AllocateFast, Allocate, Refuses, Acquire, EmptyHanded, FreeCount, Covers, Sized, Listing, WellFormed,
         GoodClaim, SameSizes, Exact, Bag, M.Fits;
    PoolsOf(cfg, s);
    hide Shaped;
    AllocateFastUnfolds(cfg, s, o);
    AllocateUnfolds(cfg, s, o);
    OutOfMemoryMeans(s.pools, o.cpu, o.start);
    FreeCountBound(s.pools.inUse);
    NothingClaimed(s.pools, o);
  }

  lemma NothingClaimed(p: Pools, o: Outside)
    requires WellFormed(p)
    ensures var c := Acquire(p, o.cpu, o.start);
      c.slot.None? ==> c.pools.inUse == p.inUse
  {
    hide Acquire, WellFormed;
  }

  /** After every run, every single allocation has that outcome. */
  lemma OutOfMemoryInRuns(cfg: Config, secure: bool, ops: seq<Op>, o: Outside)
    requires ValidConfig(cfg)
    ensures OutOfMemoryOutcome(cfg, Run(cfg, secure, ops).state, o)
  {
    hide Shaped, Listing, Exclusive, OutOfMemoryOutcome, FreeAreZero, Run, RefsInRange;
    EveryRunGood(cfg, secure, ops);
    OutOfMemoryNow(cfg, Run(cfg, secure, ops).state, o);
  }

  /** The slabs are pairwise distinct, were free and are in use now. */
  ghost predicate TakesDistinctFree(u: seq<bool>, ids: seq<int>, v: seq<bool>) {
    && |v| == |u|
    && (forall i, j :: 0 <= i < j < |ids| ==> ids[i] != ids[j])
    && (forall i :: 0 <= i < |ids| ==> 0 <= ids[i] < |u| && !u[ids[i]] && v[ids[i]])
  }

  /** What a batch takes: pairwise distinct free slabs; if it is short, the stack, every shard
      and one cache are empty, and few slabs are left; with at most one cache (or none) exactly
      as many as asked for or as are free. */
  ghost predicate BatchTakes(cfg: Config, p: Pools, b: Batch, n: int) {
    && TakesDistinctFree(p.inUse, b.ids, b.pools.inUse)
    && |b.ids| <= n && AllSlabs(cfg, b.ids)
    && (|b.ids| < n ==> EmptyHanded(b.pools) && FreeCount(b.pools.inUse) <= StrandingLimit(cfg))
    && (cfg.cacheCount <= 1 ==> |b.ids| == if n <= FreeCount(p.inUse) then n else FreeCount(p.inUse))
  }

  /** A batch that is let through takes that, and grants a reference to each slab taken. */
  ghost predicate BatchOutcome(cfg: Config, s: State, n: int, o: Outside)
    requires Shaped(cfg, s) && 0 < n <= MAX_BATCH_SIZE
  {
    var b := AcquireBatch(s.pools, n, o.cpu, o.start);
    && BatchTakes(cfg, s.pools, b, n)
    && BatchAllocate(cfg, s, n, o).1.refs == References(cfg, b.ids, if cfg.fallback then n else |b.ids|)
  }

  lemma BatchTakesNow(cfg: Config, s: State, n: nat, o: Outside)
    requires Shaped(cfg, s) && Listing(cfg, s.pools)
    ensures BatchTakes(cfg, s.pools, AcquireBatch(s.pools, n, o.cpu, o.start), n)
  {
    PoolsOf(cfg, s);
    hide Shaped, Listing, EmptyHanded, ClaimedInOrder, AcquireBatch, BatchTakes, WellFormed, Covers, Sized;
    BatchInOrder(s.pools, n, o);
    ShortBatchMeans(s.pools, n, o.cpu, o.start);
    BatchTakesFrom(cfg, s.pools, AcquireBatch(s.pools, n, o.cpu, o.start), n);
  }

  lemma PoolsOf(cfg: Config, s: State)
    requires Shaped(cfg, s)
    ensures Sized(s.pools) && WellFormed(s.pools)
    ensures |s.pools.inUse| == cfg.geometry.capacity && |s.pools.caches| == cfg.cacheCount
    ensures Listing(cfg, s.pools) ==> Covers(s.pools)
  {
    ShapedIsSized(cfg, s);
  }

  lemma BatchTakesFrom(cfg: Config, p: Pools, b: Batch, n: nat)
    requires |p.inUse| == cfg.geometry.capacity && |p.caches| == cfg.cacheCount
    requires ClaimedInOrder(p.inUse, b.ids, b.pools.inUse) && |b.ids| <= n
    requires |b.ids| < n ==> EmptyHanded(b.pools)
    requires |b.ids| < n ==>
      FreeCount(b.pools.inUse) <= if p.caches == [] then 0 else 16 * (|p.caches| - 1)
    requires |p.caches| <= 1 ==> |b.ids| == if n <= FreeCount(p.inUse) then n else FreeCount(p.inUse)
    ensures BatchTakes(cfg, p, b, n)
  {
    hide FreeCount, ClaimedInOrder, EmptyHanded;
    InOrderMeans(p.inUse, b.ids, b.pools.inUse);
    FreeCountBound(b.pools.inUse);
  }

  lemma BatchNow(cfg: Config, s: State, n: int, o: Outside)
    requires Shaped(cfg, s) && Listing(cfg, s.pools) && 0 < n <= MAX_BATCH_SIZE && !Refuses(cfg, s, o.checkedAt)
    ensures BatchOutcome(cfg, s, n, o)
  {
    hide BatchAllocate, GoodBatch, BatchTakes, AcquireBatch, Listing;
    BatchGrants(cfg, s, n, o);
    BatchTakesNow(cfg, s, n, o);
  }

  lemma BatchInOrder(p: Pools, n: nat, o: Outside)
    requires WellFormed(p)
    ensures var b := AcquireBatch(p, n, o.cpu, o.start);
      ClaimedInOrder(p.inUse, b.ids, b.pools.inUse) && |b.ids| <= n
  {
    hide ClaimedInOrder, AcquireBatch;
  }

  /** After every run, every batch that the breaker lets through has that outcome. */
  lemma BatchInRuns(cfg: Config, secure: bool, ops: seq<Op>, n: int, o: Outside)
    requires ValidConfig(cfg) && 0 < n <= MAX_BATCH_SIZE
    requires !Refuses(cfg, Run(cfg, secure, ops).state, o.checkedAt)
    ensures BatchOutcome(cfg, Run(cfg, secure, ops).state, n, o)
  {
    hide Shaped, Listing, Exclusive, BatchOutcome, FreeAreZero, Refuses, Run, RefsInRange;
    EveryRunGood(cfg, secure, ops);
    BatchNow(cfg, Run(cfg, secure, ops).state, n, o);
  }

  /** With caching off, after every run: the stack and the shards list each free slab
      exactly once and no slab in use, so the ID a pop yields is always free, and a freed
      slab always fits on the stack. */
  lemma UncachedRuns(cfg: Config, secure: bool, ops: seq<Op>, id: int, draw: nat)
    requires ValidConfig(cfg) && cfg.cacheCount == 0
    ensures var p := Run(cfg, secure, ops).state.pools;
      && multiset(p.stack) + BagOf(p.shards) == FreeBag(p.inUse)
      && (StackGet(p).slot.Some? ==> !p.inUse[StackGet(p).slot.value])
      && (ShardGet(p, draw).slot.Some? ==> !p.inUse[ShardGet(p, draw).slot.value])
      && (IsSlab(cfg, id) && p.inUse[id] ==>
            Release(p, id, draw, cfg.geometry.alignedSize) == p.(inUse := p.inUse[id := false], stack := p.stack + [id]))
  {
    EveryRunGood(cfg, secure, ops);
    var p := Run(cfg, secure, ops).state.pools;
    var s, h := StackGet(p), ShardGet(p, draw);
    if s.slot.Some? {
      TakenKeepsExact(p, s);
    }
    if h.slot.Some? {
      TakenKeepsExact(p, h);
    }
    if IsSlab(cfg, id) && p.inUse[id] {
      StackNeverRefuses(p, id, draw, cfg.geometry.alignedSize);
    }
  }

  /** The bytes of a slab are all zero, if it is one. */
  ghost predicate ZeroSlab(cfg: Config, m: seq<M.byte>, id: int) {
    M.Fits(cfg.geometry, m) && IsSlab(cfg, id) && M.AllZero(M.Window(cfg.geometry, m, id))
  }

  /** Whatever any allocation hands out is all zero. */
  ghost predicate HandsOutZeros(cfg: Config, s: State, n: int, o: Outside)
    requires Shaped(cfg, s)
  {
    var (s1, fast) := AllocateFast(cfg, s, o);
    var (s2, slow) := Allocate(cfg, s, o);
    var (s3, granted) := BatchAllocate(cfg, s, n, o);
    && (fast.Success? ==> ZeroSlab(cfg, s1.memory, fast.value))
    && (slow.Success? && slow.value.Slab? ==> ZeroSlab(cfg, s2.memory, slow.value.id))
    && (forall i :: 0 <= i < |granted.refs| && granted.refs[i].Slab? ==> ZeroSlab(cfg, s3.memory, granted.refs[i].id))
  }

  lemma FreeIsZero(cfg: Config, s: State, id: int)
    requires Shaped(cfg, s) && FreeAreZero(cfg, s) && 0 <= id < |s.pools.inUse| && !s.pools.inUse[id]
    ensures ZeroSlab(cfg, s.memory, id)
  {
    hide M.AllZero, WellFormed;
  }

  /** The slabs a batch grants were free. */
  lemma GrantedWereFree(cfg: Config, s: State, n: int, o: Outside, i: nat)
    requires Shaped(cfg, s) && i < |BatchAllocate(cfg, s, n, o).1.refs|
    ensures var ref := BatchAllocate(cfg, s, n, o).1.refs[i];
      ref.Slab? ==> 0 <= ref.id < |s.pools.inUse| && !s.pools.inUse[ref.id]
  {
    hide BatchAllocate, AcquireBatch, ClaimedInOrder, FreeCount, Covers, Exact, M.Fits, WellFormed, Refuses;
    BatchIsGranted(cfg, s, n, o);
    BatchGrants(cfg, s, n, o);
    PoolsOf(cfg, s);
    hide Shaped;
    BatchInOrder(s.pools, n, o);
    var b := AcquireBatch(s.pools, n, o.cpu, o.start);
    InOrderMeans(s.pools.inUse, b.ids, b.pools.inUse);
  }

  lemma BatchIsGranted(cfg: Config, s: State, n: int, o: Outside)
    requires Shaped(cfg, s) && BatchAllocate(cfg, s, n, o).1.refs != []
    ensures 0 < n <= MAX_BATCH_SIZE && !Refuses(cfg, s, o.checkedAt)
  {
    hide GrantBatch, Shaped;
  }

  lemma FreeSlabsAreHandedOutZero(cfg: Config, s: State, n: int, o: Outside)
    requires Shaped(cfg, s) && FreeAreZero(cfg, s)
    ensures HandsOutZeros(cfg, s, n, o)
  {
    hide AllocateFast, Allocate, BatchAllocate, ZeroSlab, FreeAreZero, WellFormed, M.Fits, Covers, Exact;
    AllocateFastClaims(cfg, s, o);
    var fast, slow, granted := AllocateFast(cfg, s, o).1, Allocate(cfg, s, o).1, BatchAllocate(cfg, s, n, o).1.refs;
    if fast.Success? {
      FreeIsZero(cfg, s, fast.value);
    }
    AllocatedWasFree(cfg, s, o);
    if slow.Success? && slow.value.Slab? {
      FreeIsZero(cfg, s, slow.value.id);
    }
    forall i | 0 <= i < |granted| && granted[i].Slab? ensures ZeroSlab(cfg, s.memory, granted[i].id) {
      GrantedWereFree(cfg, s, n, o, i);
      FreeIsZero(cfg, s, granted[i].id);
    }
  }

  lemma AllocatedWasFree(cfg: Config, s: State, o: Outside)
    requires Shaped(cfg, s)
    ensures var slow := Allocate(cfg, s, o).1;
      slow.Success? && slow.value.Slab? ==> 0 <= slow.value.id < |s.pools.inUse| && !s.pools.inUse[slow.value.id]
  {
    hide Acquire, WellFormed, Refuses, SameSizes, Exact, EmptyHanded, M.Fits, Sized, Bag, Covers;
  }

  /** In an allocator that is secure from construction, after every run, every slab that
      AllocateFast, Allocate or BatchAllocate hands out is all zero. */
  lemma SecureHandsOutZeros(cfg: Config, ops: seq<Op>, n: int, o: Outside)
    requires ValidConfig(cfg)
    ensures HandsOutZeros(cfg, Run(cfg, true, ops).state, n, o)
  {
    hide Run, Shaped, Listing, Exclusive, FreeAreZero, HandsOutZeros, RefsInRange;
    EveryRunGood(cfg, true, ops);
    FreeSlabsAreHandedOutZero(cfg, Run(cfg, true, ops).state, n, o);
  }

  // ---- What the breaker is told ----

  /** AllocateFast reports success and failure, Allocate only failure; a request that is
      refused is not reported and touches nothing else. */
  lemma BreakerIsTold(cfg: Config, s: State, o: Outside)
    requires Shaped(cfg, s) && cfg.breaker.Some?
    ensures var (s1, fast) := AllocateFast(cfg, s, o);
      var (s2, slow) := Allocate(cfg, s, o);
      var checked := s.history + [Checked(o.checkedAt)];
      && (fast == Failure(CircuitBreakerOpen) <==> Refuses(cfg, s, o.checkedAt))
      && (slow == Failure(CircuitBreakerOpen) <==> Refuses(cfg, s, o.checkedAt))
      && (Refuses(cfg, s, o.checkedAt) ==> s1 == s2 == s.(history := checked))
      && (fast.Success? ==> s1.history == checked + [Succeeded])
      && (slow.Success? ==> s2.history == checked)
      && (fast == Failure(OutOfMemory) ==> s1.history == checked + [Failed(o.recordedAt)])
      && (slow == Failure(OutOfMemory) ==> s2.history == checked + [Failed(o.recordedAt)])
  {
    hide Acquire, Shaped, GoodClaim, Covers, Exact, WellFormed;
  }

  /** The state after one fast allocation for each view of the outside, in order. */
  ghost function FastAll(cfg: Config, s: State, os: seq<Outside>): (r: State)
    requires Shaped(cfg, s)
    ensures Shaped(cfg, r)
  {
    hide Shaped;
    if os == [] then s else AllocateFast(cfg, FastAll(cfg, s, os[..|os| - 1]), os[|os| - 1]).0
  }

  ghost function BreakerOf(cfg: Config, s: State): Breaker
    requires cfg.breaker.Some?
  {
    After(cfg.breaker.value, s.history)
  }

  /** The breaker is open, or closed with n more failures than before. */
  ghost predicate CloserToOpen(cfg: Config, s: State, n: nat, s1: State)
    requires cfg.breaker.Some?
  {
    var b, b1 := BreakerOf(cfg, s), BreakerOf(cfg, s1);
    b1.mode == Open || (b.mode == Closed && b1.mode == Closed && b1.failures == b.failures + n)
  }

  /** With every slab in use no slab is found. */
  lemma ExhaustedFails(cfg: Config, s: State, o: Outside)
    requires Shaped(cfg, s) && cfg.breaker.Some? && FreeCount(s.pools.inUse) == 0
    ensures var (s1, r) := AllocateFast(cfg, s, o);
      r.Failure? && s1.pools.inUse == s.pools.inUse
  {
    AllocateFastClaims(cfg, s, o);
    PoolsOf(cfg, s);
    hide Shaped, AllocateFast, FreeCount;
    NoneFree(s.pools.inUse);
  }

  lemma ExhaustedStep(cfg: Config, s: State, o: Outside)
    requires Shaped(cfg, s) && cfg.breaker.Some? && FreeCount(s.pools.inUse) == 0
    ensures var (s1, r) := AllocateFast(cfg, s, o);
      s1.pools.inUse == s.pools.inUse && CloserToOpen(cfg, s, 1, s1)
  {
    hide Shaped, AllocateFast, Allocate, FreeCount, After, Check;
    ExhaustedFails(cfg, s, o);
    BreakerIsTold(cfg, s, o);
    OutageStep(cfg.breaker.value, s.history, o.checkedAt, o.recordedAt);
    FastErrors(cfg, s, o);
  }

  lemma FastErrors(cfg: Config, s: State, o: Outside)
    requires Shaped(cfg, s)
    ensures var r := AllocateFast(cfg, s, o).1;
      r.Failure? ==> r.error == CircuitBreakerOpen || r.error == OutOfMemory
  {
    hide Shaped, Acquire, Refuses;
  }

  lemma {:induction false} ExhaustedRun(cfg: Config, s: State, os: seq<Outside>)
    requires Shaped(cfg, s) && cfg.breaker.Some? && FreeCount(s.pools.inUse) == 0
    ensures var s1 := FastAll(cfg, s, os);
      FreeCount(s1.pools.inUse) == 0 && (os == [] || CloserToOpen(cfg, s, |os|, s1))
  {
    hide Shaped, FreeCount, BreakerOf, AllocateFast;
    if os != [] {
      var n := |os| - 1;
      ExhaustedRun(cfg, s, os[..n]);
      ExhaustedStep(cfg, FastAll(cfg, s, os[..n]), os[n]);
    }
  }

  /** From any run, once every slab is in use, threshold fast allocations in a row open the
      breaker whatever mode it was in, and from then on a request at most the timeout after
      the last failure is refused. */
  lemma ExhaustionOpensBreaker(cfg: Config, secure: bool, ops: seq<Op>, os: seq<Outside>, now: int)
    requires ValidConfig(cfg) && cfg.breaker.Some?
    requires FreeCount(Run(cfg, secure, ops).state.pools.inUse) == 0 && |os| >= cfg.breaker.value.threshold
    ensures var s := FastAll(cfg, Run(cfg, secure, ops).state, os);
      && BreakerOf(cfg, s).mode == Open
      && LastFailure(s.history).Some?
      && (Refuses(cfg, s, now) <==> now - LastFailure(s.history).value <= cfg.breaker.value.timeout)
  {
    var s0 := Run(cfg, secure, ops).state;
    hide Run, Shaped, FreeCount, FastAll;
    ExhaustedRun(cfg, s0, os);
    EveryRunConsistent(cfg.breaker.value, s0.history);
    EveryRunConsistent(cfg.breaker.value, FastAll(cfg, s0, os).history);
  }

  // ---- Bytes of a live slab ----

  /** One operation that neither frees a slab nor stores through it keeps its bytes. */
  lemma StepKeepsBytes(cfg: Config, w: World, op: Op, id: int)
    requires Shaped(cfg, w.state) && RefsInRange(cfg, w) && Allowed(cfg, w, op)
    requires IsSlab(cfg, id) && w.state.pools.inUse[id] && Step(cfg, w, op).state.pools.inUse[id]
    requires !(op.DoStore? && op.id == id)
    ensures M.Window(cfg.geometry, Step(cfg, w, op).state.memory, id) == M.Window(cfg.geometry, w.state.memory, id)
  {
    match op
    case DoDeallocate(r, draw) =>
      if HoldsSlab(w.refs[r]) {
        M.ZeroIsLocal(cfg.geometry, w.state.memory, w.refs[r].backing.id, id);
      }
    case DoDeallocateFast(other, draw) =>
      if IsSlab(cfg, other) {
        M.ZeroIsLocal(cfg.geometry, w.state.memory, other, id);
      }
    case DoStore(other, i, v) => M.StoreIsLocal(cfg.geometry, w.state.memory, other, i, v, id);
    case _ =>
  }

  /** The slab stays in use through every prefix of a run after from, and no store goes
      through it. */
  ghost predicate Untouched(cfg: Config, secure: bool, ops: seq<Op>, from: nat, id: int)
    requires ValidConfig(cfg) && from <= |ops| && IsSlab(cfg, id)
  {
    forall k :: from <= k <= |ops| ==>
      Run(cfg, secure, ops[..k]).state.pools.inUse[id]
      && (k < |ops| ==> !(ops[k].DoStore? && ops[k].id == id))
  }

  /** Over any part of any run in which a slab stays in use and is not stored through, its
      bytes do not change, whatever happens to the other slabs. */
  lemma {:induction false} BytesAreKept(cfg: Config, secure: bool, ops: seq<Op>, from: nat, id: int)
    requires ValidConfig(cfg) && from <= |ops| && IsSlab(cfg, id) && Untouched(cfg, secure, ops, from, id)
    ensures M.Window(cfg.geometry, Run(cfg, secure, ops).state.memory, id)
         == M.Window(cfg.geometry, Run(cfg, secure, ops[..from]).state.memory, id)
    decreases |ops|
  {
    if from < |ops| {
      var before, op := ops[..|ops| - 1], ops[|ops| - 1];
      assert forall k :: from <= k <= |before| ==> before[..k] == ops[..k];
      BytesAreKept(cfg, secure, before, from, id);
      var w := Run(cfg, secure, before);
      assert ops[..|ops|] == ops;
      if Allowed(cfg, w, op) {
        StepKeepsBytes(cfg, w, op, id);
      }
    } else {
      assert ops[..from] == ops;
    }
  }
}
