/** Deallocate refuses a reference that was deallocated before only until its object is issued
    again: in every configuration a single thread can allocate, deallocate, allocate again
    and, with the first reference, free the slab of the second. */
module StaleReference {
  import opened Bags
  import opened InterleavedRefs
  import opened Wrappers
  import I = Interleaving
  import P = Pools

  // ---- Choices ----

  const SLAB_TURN := I.Choice(0, I.WishAllocate, false, 0, 0)

  const GO: Choice := Choice(SLAB_TURN, CallFast, 0, None)
  const ALLOCATE: Choice := Choice(SLAB_TURN, CallAllocate, 0, None)
  const DEALLOCATE: Choice := Choice(SLAB_TURN, CallDeallocate(0), 0, None)

  function Yielding(j: nat, id: int): Choice {
    GO.(slab := SLAB_TURN.(shard := j, id := id))
  }

  // ---- Scenes ----

  /** Where an allocation begins, and where a freed ID is put first. */
  function FirstGet(cfg: I.Config): I.Pc {
    if cfg.cacheCount == 0 then I.StackPop(false) else I.CacheGet(false)
  }

  function FirstPut(cfg: I.Config, id: int): I.Pc {
    if cfg.cacheCount == 0 then I.StackPush(id) else I.ReturnPut(0, id, I.Load)
  }

  /** One slab: its flag, whether its ID is back in the first pool, the only object, and the
      issues of that object. */
  datatype View = View(slab: int, inUse: bool, returned: bool, refs: seq<Ref>, presented: seq<bool>)

  ghost predicate PoolScene(cfg: I.Config, g: I.Shared, v: View) {
    && 0 <= v.slab < |g.inUse| == cfg.capacity && g.inUse[v.slab] == v.inUse
    && g.stack == (if v.returned && cfg.cacheCount == 0 then [v.slab] else [])
    && (cfg.cacheCount > 0 ==>
          && |g.caches| > 0 && |g.caches[0].slots| == P.CACHE_SIZE
          && g.caches[0].count == (if v.returned then 1 else 0)
          && (v.returned ==> g.caches[0].slots[0] == v.slab))
  }

  ghost predicate Scene(cfg: I.Config, s: State, th: Thread, v: View) {
    && |s.threads| > 0 && s.threads[0] == th
    && PoolScene(cfg, s.shared.slab, v)
    && s.shared.refs == v.refs && s.shared.presented == v.presented && |s.shared.issues| == |v.presented|
    && forall k :: 0 <= k < |s.shared.issues| ==> s.shared.issues[k].ref == 0 && s.shared.issues[k].slab == v.slab
  }

  const OUTSIDE: Thread := Thread(Outside, I.Idle)

  /** One more turn of thread 0. */
  lemma Tick(cfg: I.Config, n: nat, schedule: seq<Turn>, x: Choice) returns (more: seq<Turn>)
    requires I.ValidConfig(cfg) && n > 0
    ensures more == schedule + [Turn(0, x)]
    ensures var s := Run(cfg, n, schedule);
      && Formed(cfg, s.shared) && Placed(cfg, s.shared, s.threads[0])
      && var r := Act(cfg, s.shared, s.threads[0], 0, x);
         Run(cfg, n, more) == State(r.0, s.threads[0 := r.1])
  {
    more := schedule + [Turn(0, x)];
    assert more[..|schedule|] == schedule;
    hide Act, Formed, Placed;
  }

  // ---- Allocating ----

  ghost predicate Valid(cfg: I.Config, n: nat) {
    I.ValidConfig(cfg) && n > 0
  }

  lemma Calls(cfg: I.Config, n: nat, schedule: seq<Turn>, v: View) returns (more: seq<Turn>)
    requires Valid(cfg, n) && Scene(cfg, Run(cfg, n, schedule), OUTSIDE, v)
    ensures Scene(cfg, Run(cfg, n, more), Thread(InAllocate(None), FirstGet(cfg)), v)
    ensures Run(cfg, n, more).shared == Run(cfg, n, schedule).shared
  {
    hide Run, Formed, PoolScene;
    more := Tick(cfg, n, schedule, ALLOCATE);
    more := Tick(cfg, n, more, GO);
  }

  /** The caches and the stack are empty. */
  lemma ToStack(cfg: I.Config, n: nat, schedule: seq<Turn>, v: View) returns (more: seq<Turn>)
    requires Valid(cfg, n) && !v.returned && cfg.cacheCount > 0
    requires Scene(cfg, Run(cfg, n, schedule), Thread(InAllocate(None), I.CacheGet(false)), v)
    ensures Scene(cfg, Run(cfg, n, more), Thread(InAllocate(None), I.StackPop(false)), v)
    ensures Run(cfg, n, more).shared == Run(cfg, n, schedule).shared
  {
    hide Run, Formed, I.PutStep, I.GoodShared;
    more := Tick(cfg, n, schedule, GO);
    more := Tick(cfg, n, more, GO);
    more := Tick(cfg, n, more, GO);
  }

  lemma ToShards(cfg: I.Config, n: nat, schedule: seq<Turn>, v: View) returns (more: seq<Turn>)
    requires Valid(cfg, n) && !v.returned
    requires Scene(cfg, Run(cfg, n, schedule), Thread(InAllocate(None), I.StackPop(false)), v)
    ensures Scene(cfg, Run(cfg, n, more), Thread(InAllocate(None), I.ShardGet(false)), v)
    ensures Run(cfg, n, more).shared == Run(cfg, n, schedule).shared
  {
    hide Run, Formed, I.PutStep, I.GoodShared;
    more := Tick(cfg, n, schedule, GO);
  }

  /** The ID is in a shard, as its newest entry. */
  ghost predicate Yields(g: Shared, j: nat, id: int) {
    && j < |g.slab.shards| && g.slab.shards[j] != [] && g.slab.shards[j][|g.slab.shards[j]| - 1] == id
  }

  lemma FromShards(cfg: I.Config, n: nat, schedule: seq<Turn>, v: View, j: nat) returns (more: seq<Turn>)
    requires Valid(cfg, n)
    requires Scene(cfg, Run(cfg, n, schedule), Thread(InAllocate(None), I.ShardGet(false)), v)
    requires Yields(Run(cfg, n, schedule).shared, j, v.slab)
    ensures Scene(cfg, Run(cfg, n, more), Thread(InAllocate(None), I.Claiming(false, v.slab, I.Shards)), v)
  {
    hide Run, Formed, I.PutStep, I.GoodShared, I.Taken;
    more := Tick(cfg, n, schedule, Yielding(j, v.slab));
  }

  /** The first pool yields the slab that was returned to it. */
  lemma FromFirstPool(cfg: I.Config, n: nat, schedule: seq<Turn>, v: View) returns (more: seq<Turn>, from: I.Source)
    requires Valid(cfg, n) && v.returned
    requires Scene(cfg, Run(cfg, n, schedule), Thread(InAllocate(None), FirstGet(cfg)), v)
    ensures Scene(cfg, Run(cfg, n, more), Thread(InAllocate(None), I.Claiming(false, v.slab, from)), v.(returned := false))
  {
    hide Run, Formed, I.PutStep;
    more := Tick(cfg, n, schedule, GO);
    from := I.Stack;
    if cfg.cacheCount > 0 {
      from := I.Caches;
      more := Tick(cfg, n, more, GO);
      more := Tick(cfg, n, more, GO);
      more := Tick(cfg, n, more, GO);
    }
  }

  /** The claim succeeds, and a reference is issued. */
  lemma Issues(cfg: I.Config, n: nat, schedule: seq<Turn>, v: View, from: I.Source) returns (more: seq<Turn>)
    requires Valid(cfg, n) && !v.inUse
    requires Scene(cfg, Run(cfg, n, schedule), Thread(InAllocate(None), I.Claiming(false, v.slab, from)), v)
    requires v.refs == [] || (|v.refs| == 1 && v.refs[0].stage.Pooled?)
    ensures Scene(cfg, Run(cfg, n, more), OUTSIDE,
                  v.(inUse := true, refs := [Ref(|v.presented|, v.slab, Live)], presented := v.presented + [false]))
  {
    hide Run, Formed, I.PutStep, I.Claims, I.Increment;
    more := Tick(cfg, n, schedule, GO);
    more := Tick(cfg, n, more, GO);
    more := Tick(cfg, n, more, GO);
    more := Tick(cfg, n, more, GO);
  }

  // ---- Deallocating the first reference ----

  /** The reference is marked and the flag cleared, whoever the object was issued to last. */
  lemma Clears(cfg: I.Config, n: nat, schedule: seq<Turn>, v: View) returns (more: seq<Turn>)
    requires Valid(cfg, n) && Scene(cfg, Run(cfg, n, schedule), OUTSIDE, v) && v.inUse
    requires |v.refs| == 1 && v.refs[0].slab == v.slab && v.refs[0].stage.Live? && v.presented != []
    ensures Scene(cfg, Run(cfg, n, more), Thread(Placing(0), FirstPut(cfg, v.slab)),
                  v.(inUse := false, refs := [v.refs[0].(stage := Handled(0))], presented := v.presented[0 := true]))
  {
    hide Run, Formed, I.PutStep;
    more := Tick(cfg, n, schedule, DEALLOCATE);
    more := Tick(cfg, n, more, GO);
    more := Tick(cfg, n, more, GO);
  }

  /** The ID goes into the first pool. */
  lemma Returns(cfg: I.Config, n: nat, schedule: seq<Turn>, v: View) returns (more: seq<Turn>)
    requires Valid(cfg, n) && !v.returned && |v.refs| == 1
    requires Scene(cfg, Run(cfg, n, schedule), Thread(Placing(0), FirstPut(cfg, v.slab)), v)
    ensures Scene(cfg, Run(cfg, n, more), Thread(Placing(0), I.RecordFree(v.slab)), v.(returned := true))
  {
    hide Run, Formed, I.Increment, I.GoodShared;
    more := Tick(cfg, n, schedule, GO);
    if cfg.cacheCount > 0 {
      more := Tick(cfg, n, more, GO);
      more := Tick(cfg, n, more, GO);
    }
  }

  /** The free is counted, and the object goes back to the pool of objects. */
  lemma Pools(cfg: I.Config, n: nat, schedule: seq<Turn>, v: View) returns (more: seq<Turn>)
    requires Valid(cfg, n) && |v.refs| == 1
    requires Scene(cfg, Run(cfg, n, schedule), Thread(Placing(0), I.RecordFree(v.slab)), v)
    ensures Scene(cfg, Run(cfg, n, more), OUTSIDE, v.(refs := [v.refs[0].(stage := Pooled)]))
  {
    hide Run, Formed, I.Increment, I.GoodShared;
    more := Tick(cfg, n, schedule, GO);
    more := Tick(cfg, n, more, GO);
  }

  // ---- The whole run ----

  /** Some shard of a new allocator is not empty. */
  lemma SomeEntry(cfg: I.Config, shards: seq<seq<int>>) returns (j: nat, id: int)
    requires I.ValidConfig(cfg) && shards == P.Distributed(cfg.capacity, cfg.rows, cfg.alignedSize)
    ensures j < |shards| && shards[j] != [] && id == shards[j][|shards[j]| - 1] && 0 <= id < cfg.capacity
  {
    P.DistributedBag(cfg.capacity, cfg.rows, cfg.alignedSize);
    FreeBagCounts(Repeat(false, cfg.capacity), 0);
    hide BagOf, FreeBag;
    j := BagOfHolder(shards, 0);
    id := shards[j][|shards[j]| - 1];
    assert P.InRange(shards[j], cfg.capacity);
  }

  lemma StartScene(cfg: I.Config, n: nat) returns (j: nat, v: View)
    requires Valid(cfg, n)
    ensures Scene(cfg, Run(cfg, n, []), OUTSIDE, v) && Yields(Run(cfg, n, []).shared, j, v.slab)
    ensures v.refs == [] && v.presented == [] && !v.inUse && !v.returned
  {
    hide P.Distributed, Good, Formed;
    var shards := P.Distributed(cfg.capacity, cfg.rows, cfg.alignedSize);
    var id;
    j, id := SomeEntry(cfg, shards);
    v := View(id, false, false, [], []);
    assert id in shards[j];
  }

  /** A run of one thread after which a reference never passed to Deallocate has lost its
      slab, because another reference, deallocated before, shares its object. */
  lemma StaleReferenceFreesAnother(cfg: I.Config, n: nat) returns (schedule: seq<Turn>)
    requires I.ValidConfig(cfg) && n > 0
    ensures var g := Run(cfg, n, schedule).shared;
      && |g.issues| == |g.presented| == 2 && g.issues[0].ref == g.issues[1].ref
      && !g.presented[1] && 0 <= g.issues[1].slab < |g.slab.inUse| && !g.slab.inUse[g.issues[1].slab]
    ensures !Permitted(cfg, n, schedule)
  {
    hide Scene, Run, Yields, Permitted;
    var j, v := StartScene(cfg, n);
    schedule := Calls(cfg, n, [], v);
    if cfg.cacheCount > 0 {
      schedule := ToStack(cfg, n, schedule, v);
    }
    schedule := ToShards(cfg, n, schedule, v);
    schedule := FromShards(cfg, n, schedule, v, j);
    schedule := Issues(cfg, n, schedule, v, I.Shards);
    v := v.(inUse := true, refs := [Ref(|v.presented|, v.slab, Live)], presented := v.presented + [false]);
    schedule := Clears(cfg, n, schedule, v);
    v := v.(inUse := false, refs := [v.refs[0].(stage := Handled(0))], presented := v.presented[0 := true]);
    schedule := Returns(cfg, n, schedule, v);
    v := v.(returned := true);
    schedule := Pools(cfg, n, schedule, v);
    v := v.(refs := [v.refs[0].(stage := Pooled)]);
    schedule := Calls(cfg, n, schedule, v);
    var from;
    schedule, from := FromFirstPool(cfg, n, schedule, v);
    v := v.(returned := false);
    schedule := Issues(cfg, n, schedule, v, from);
    v := v.(inUse := true, refs := [Ref(|v.presented|, v.slab, Live)], presented := v.presented + [false]);
    schedule := Clears(cfg, n, schedule, v);
    v := v.(inUse := false, refs := [v.refs[0].(stage := Handled(0))], presented := v.presented[0 := true]);
    SceneMeans(cfg, Run(cfg, n, schedule), v);
    if Permitted(cfg, n, schedule) {
      ReferencesAreSafe(cfg, n, schedule);
    }
  }

  lemma SceneMeans(cfg: I.Config, s: State, v: View)
    requires exists th :: Scene(cfg, s, th, v)
    ensures PoolScene(cfg, s.shared.slab, v) && s.shared.presented == v.presented && |s.shared.issues| == |v.presented|
    ensures forall k :: 0 <= k < |s.shared.issues| ==> s.shared.issues[k].ref == 0 && s.shared.issues[k].slab == v.slab
  {
  }
}
