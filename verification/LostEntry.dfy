/** With caching on, two slabs and two threads or more, a free slab can be lost: one thread
    takes an entry from a cache by lowering the count; before it reads the slot, the other
    frees a second slab into the same slot, and the first slab is forgotten. */
module LostEntry {
  import opened Bags
  import opened Interleaving
  import opened InterleavedListing
  import opened Layout
  import opened Wrappers
  import P = Pools

  ghost predicate Risky(cfg: Config, threadCount: nat) {
    ValidConfig(cfg) && cfg.cacheCount >= 1 && cfg.capacity >= 2 && threadCount >= 2
  }

  const ALLOCATE := Choice(0, WishAllocateFast, false, 0, 0)

  function Yielding(j: nat, id: int): Choice {
    Choice(0, WishAllocateFast, false, j, id)
  }

  function Freeing(id: int): Choice {
    Choice(0, WishDeallocateFast, false, 0, id)
  }

  /** The entry a shard yields, and the shards without it. */
  function Newest(shards: seq<seq<int>>, j: nat): int
    requires j < |shards| && shards[j] != []
  {
    shards[j][|shards[j]| - 1]
  }

  function Popped(shards: seq<seq<int>>, j: nat): seq<seq<int>>
    requires j < |shards| && shards[j] != []
  {
    shards[j := shards[j][..|shards[j]| - 1]]
  }

  /** Threads 0 and 1 at the given points and the others outside any call; the stack and all
      caches but the first are empty; flags, shards, and the first cache's count and first
      slot as given. */
  datatype View = View(inUse: seq<bool>, count: int, first: int, shards: seq<seq<int>>)

  ghost predicate Scene(s: State, pc0: Pc, pc1: Pc, v: View) {
    var g := s.shared;
    && |s.threads| >= 2 && s.threads[0] == pc0 && s.threads[1] == pc1
    && (forall t :: 2 <= t < |s.threads| ==> s.threads[t] == Idle)
    && g.inUse == v.inUse && g.stack == [] && g.shards == v.shards
    && |g.caches| >= 1 && g.caches[0].count == v.count
    && |g.caches[0].slots| == P.CACHE_SIZE && g.caches[0].slots[0] == v.first
    && (forall c :: 1 <= c < |g.caches| ==> g.caches[c].count == 0)
  }

  /** One more turn. */
  lemma Tick(cfg: Config, n: nat, schedule: seq<Turn>, t: nat, x: Choice) returns (more: seq<Turn>)
    requires ValidConfig(cfg) && t < n && Lifo(cfg, n, schedule)
    requires PopsNewest(Run(cfg, n, schedule).shared, Run(cfg, n, schedule).threads[t], x)
    ensures more == schedule + [Turn(t, x)] && Lifo(cfg, n, more)
    ensures var s := Run(cfg, n, schedule);
      && Good(cfg, s) && GoodPc(cfg, s.threads[t])
      && var r := Act(cfg, s.shared, s.threads[t], t, x);
         Run(cfg, n, more) == State(r.0, s.threads[t := r.1])
  {
    more := schedule + [Turn(t, x)];
    assert more[..|schedule|] == schedule;
    assert GoodPc(cfg, Run(cfg, n, schedule).threads[t]);
    hide Act, PopsNewest, GoodShared, GoodPc;
  }

  /** Thread 0 allocates the newest slab of a shard: the first cache and the stack are empty. */
  lemma FromShards(cfg: Config, n: nat, schedule: seq<Turn>, v: View, j: nat) returns (more: seq<Turn>)
    requires Risky(cfg, n) && Lifo(cfg, n, schedule) && Scene(Run(cfg, n, schedule), Idle, Idle, v) && v.count == 0
    requires j < |v.shards| && v.shards[j] != []
    requires 0 <= Newest(v.shards, j) < |v.inUse| && !v.inUse[Newest(v.shards, j)]
    ensures Lifo(cfg, n, more)
    ensures Scene(Run(cfg, n, more), Idle, Idle,
                  v.(inUse := v.inUse[Newest(v.shards, j) := true], shards := Popped(v.shards, j)))
  {
    hide Scene, Run, Lifo, Newest, Popped;
    more := ToShards(cfg, n, schedule, v);
    more := Pops(cfg, n, more, v, j);
    more := Claims(cfg, n, more, v.(shards := Popped(v.shards, j)), Newest(v.shards, j));
  }

  lemma ToShards(cfg: Config, n: nat, schedule: seq<Turn>, v: View) returns (more: seq<Turn>)
    requires Risky(cfg, n) && Lifo(cfg, n, schedule) && Scene(Run(cfg, n, schedule), Idle, Idle, v) && v.count == 0
    ensures Lifo(cfg, n, more) && Scene(Run(cfg, n, more), ShardGet(true), Idle, v)
  {
    hide Start, Run, PutStep, Increment, Lifo, GoodShared, GoodThreads, IndexAtPut;
    more := Tick(cfg, n, schedule, 0, ALLOCATE);
    more := Tick(cfg, n, more, 0, ALLOCATE);
    more := Tick(cfg, n, more, 0, ALLOCATE);
    assert Run(cfg, n, more).threads[0] == RefillPop(true, 0);
    more := Tick(cfg, n, more, 0, ALLOCATE);
    more := Tick(cfg, n, more, 0, ALLOCATE);
  }

  lemma NewestInRange(cfg: Config, g: Shared, j: nat)
    requires GoodShared(cfg, g) && j < |g.shards| && g.shards[j] != []
    ensures InUseRange(cfg, Newest(g.shards, j))
  {
    assert P.InRange(g.shards[j], cfg.capacity);
  }

  /** Thread 0 pops the newest entry of a shard. */
  lemma Pops(cfg: Config, n: nat, schedule: seq<Turn>, v: View, j: nat) returns (more: seq<Turn>)
    requires Risky(cfg, n) && Lifo(cfg, n, schedule) && Scene(Run(cfg, n, schedule), ShardGet(true), Idle, v)
    requires j < |v.shards| && v.shards[j] != []
    ensures Lifo(cfg, n, more)
    ensures Scene(Run(cfg, n, more), Claiming(true, Newest(v.shards, j), Shards), Idle, v.(shards := Popped(v.shards, j)))
  {
    var s := Run(cfg, n, schedule);
    var x := Yielding(j, Newest(v.shards, j));
    NewestInRange(cfg, s.shared, j);
    assert PopsNewest(s.shared, s.threads[0], x);
    PopActs(cfg, s.shared, j);
    SceneAfterPop(s, v, Newest(v.shards, j), Popped(v.shards, j));
    hide Scene, Start, Run, Lifo, Good, GoodShared, GoodThreads, GoodPc, Act, Newest, Popped, PopsNewest;
    more := Tick(cfg, n, schedule, 0, x);
  }

  lemma SceneAfterPop(s: State, v: View, id: int, shards: seq<seq<int>>)
    requires Scene(s, ShardGet(true), Idle, v)
    ensures Scene(State(s.shared.(shards := shards), s.threads[0 := Claiming(true, id, Shards)]),
                  Claiming(true, id, Shards), Idle, v.(shards := shards))
  {
  }

  lemma PopActs(cfg: Config, g: Shared, j: nat)
    requires ValidConfig(cfg) && GoodShared(cfg, g)
    requires j < |g.shards| && g.shards[j] != [] && InUseRange(cfg, Newest(g.shards, j))
    ensures Act(cfg, g, ShardGet(true), 0, Yielding(j, Newest(g.shards, j)))
         == (g.(shards := Popped(g.shards, j)), Claiming(true, Newest(g.shards, j), Shards))
  {
    hide GoodCache;
  }

  /** Thread 0 claims the slab it holds and returns. */
  lemma Claims(cfg: Config, n: nat, schedule: seq<Turn>, v: View, id: int) returns (more: seq<Turn>)
    requires Risky(cfg, n) && Lifo(cfg, n, schedule)
    requires Scene(Run(cfg, n, schedule), Claiming(true, id, Shards), Idle, v) && 0 <= id < |v.inUse| && !v.inUse[id]
    ensures Lifo(cfg, n, more) && Scene(Run(cfg, n, more), Idle, Idle, v.(inUse := v.inUse[id := true]))
  {
    hide Start, Run, PutStep, Increment, Lifo, GoodShared, GoodThreads, IndexAtPut;
    more := Tick(cfg, n, schedule, 0, ALLOCATE);
    more := Tick(cfg, n, more, 0, ALLOCATE);
    more := Tick(cfg, n, more, 0, ALLOCATE);
  }

  /** Thread 0 clears the flag and has the ID in hand. */
  lemma ClearsFlag(cfg: Config, n: nat, schedule: seq<Turn>, v: View, id: int, pc1: Pc) returns (more: seq<Turn>)
    requires Risky(cfg, n) && Lifo(cfg, n, schedule) && Scene(Run(cfg, n, schedule), Idle, pc1, v)
    requires 0 <= id < |v.inUse| == cfg.capacity && v.inUse[id]
    ensures Lifo(cfg, n, more)
    ensures Scene(Run(cfg, n, more), ReturnPut(0, id, Load), pc1, v.(inUse := v.inUse[id := false]))
  {
    hide Start, Run, PutStep, Increment, Lifo, GoodShared, GoodThreads, IndexAtPut;
    more := Tick(cfg, n, schedule, 0, Freeing(id));
    more := Tick(cfg, n, more, 0, ALLOCATE);
  }

  /** Thread 0 publishes the ID in the first cache, which is empty. */
  lemma Publishes(cfg: Config, n: nat, schedule: seq<Turn>, v: View, id: int, pc1: Pc) returns (more: seq<Turn>)
    requires Risky(cfg, n) && Lifo(cfg, n, schedule) && Scene(Run(cfg, n, schedule), ReturnPut(0, id, Load), pc1, v)
    requires v.count == 0
    ensures Lifo(cfg, n, more) && Scene(Run(cfg, n, more), RecordFree(id), pc1, v.(count := 1, first := id))
  {
    hide Start, Run, Increment, Lifo, GoodShared, GoodThreads, IndexAtPut;
    more := Tick(cfg, n, schedule, 0, ALLOCATE);
    more := Tick(cfg, n, more, 0, ALLOCATE);
    more := Tick(cfg, n, more, 0, ALLOCATE);
  }

  lemma Records(cfg: Config, n: nat, schedule: seq<Turn>, v: View, id: int, pc1: Pc) returns (more: seq<Turn>)
    requires Risky(cfg, n) && Lifo(cfg, n, schedule) && Scene(Run(cfg, n, schedule), RecordFree(id), pc1, v)
    ensures Lifo(cfg, n, more) && Scene(Run(cfg, n, more), Idle, pc1, v)
  {
    hide Start, Run, PutStep, Increment, Lifo, GoodShared, GoodThreads, IndexAtPut;
    more := Tick(cfg, n, schedule, 0, ALLOCATE);
    more := Tick(cfg, n, more, 0, ALLOCATE);
  }

  /** Thread 0 frees a slab into the empty first cache, whatever thread 1 is about to do. */
  lemma IntoCache(cfg: Config, n: nat, schedule: seq<Turn>, v: View, id: int, pc1: Pc) returns (more: seq<Turn>)
    requires Risky(cfg, n) && Lifo(cfg, n, schedule) && Scene(Run(cfg, n, schedule), Idle, pc1, v)
    requires 0 <= id < |v.inUse| == cfg.capacity && v.inUse[id] && v.count == 0
    ensures Lifo(cfg, n, more)
    ensures Scene(Run(cfg, n, more), Idle, pc1, v.(inUse := v.inUse[id := false], count := 1, first := id))
  {
    hide Scene, Run, Lifo;
    more := ClearsFlag(cfg, n, schedule, v, id, pc1);
    var freed := v.(inUse := v.inUse[id := false]);
    more := Publishes(cfg, n, more, freed, id, pc1);
    more := Records(cfg, n, more, freed.(count := 1, first := id), id, pc1);
  }

  /** Thread 1 lowers the count of the first cache and is about to read the slot. */
  lemma TakesEntry(cfg: Config, n: nat, schedule: seq<Turn>, v: View) returns (more: seq<Turn>)
    requires Risky(cfg, n) && Lifo(cfg, n, schedule) && Scene(Run(cfg, n, schedule), Idle, Idle, v) && v.count == 1
    ensures Lifo(cfg, n, more) && Scene(Run(cfg, n, more), Idle, CacheRead(true, 0, 0), v.(count := 0))
  {
    hide Start, Run, PutStep, Increment, Lifo, GoodShared, GoodThreads, IndexAtPut;
    more := Tick(cfg, n, schedule, 1, ALLOCATE);
    more := Tick(cfg, n, more, 1, ALLOCATE);
    more := Tick(cfg, n, more, 1, ALLOCATE);
    more := Tick(cfg, n, more, 1, ALLOCATE);
  }

  /** Thread 1 reads whatever is in the slot by now and claims it. */
  lemma ReadsSlot(cfg: Config, n: nat, schedule: seq<Turn>, v: View) returns (more: seq<Turn>)
    requires Risky(cfg, n) && Lifo(cfg, n, schedule) && Scene(Run(cfg, n, schedule), Idle, CacheRead(true, 0, 0), v)
    requires 0 <= v.first < |v.inUse| && !v.inUse[v.first]
    ensures Lifo(cfg, n, more)
    ensures Scene(Run(cfg, n, more), Idle, RecordAlloc(true, v.first), v.(inUse := v.inUse[v.first := true]))
  {
    hide Start, Run, PutStep, Increment, Lifo, GoodShared, GoodThreads, IndexAtPut;
    more := Tick(cfg, n, schedule, 1, ALLOCATE);
    more := Tick(cfg, n, more, 1, ALLOCATE);
  }

  lemma RecordsClaim(cfg: Config, n: nat, schedule: seq<Turn>, v: View, id: int) returns (more: seq<Turn>)
    requires Risky(cfg, n) && Lifo(cfg, n, schedule) && Scene(Run(cfg, n, schedule), Idle, RecordAlloc(true, id), v)
    ensures Lifo(cfg, n, more) && Scene(Run(cfg, n, more), Idle, Idle, v)
  {
    hide Start, Run, PutStep, Increment, Lifo, GoodShared, GoodThreads, IndexAtPut;
    more := Tick(cfg, n, schedule, 1, ALLOCATE);
    more := Tick(cfg, n, more, 1, ALLOCATE);
  }

  // ---- The two slabs ----

  /** Every slab is in the shards exactly once at the start. */
  lemma EachSlabOnce(cfg: Config, shards: seq<seq<int>>)
    requires ValidConfig(cfg) && shards == P.Distributed(cfg.capacity, cfg.rows, cfg.alignedSize)
    ensures forall id: int :: BagOf(shards)[id] == if 0 <= id < cfg.capacity then 1 else 0
  {
    P.DistributedBag(cfg.capacity, cfg.rows, cfg.alignedSize);
    hide P.Distributed, BagOf, FreeBag;
    forall id: int ensures FreeBag(Repeat(false, cfg.capacity))[id] == if 0 <= id < cfg.capacity then 1 else 0 {
      FreeBagCounts(Repeat(false, cfg.capacity), id);
    }
  }

  lemma StartScene(cfg: Config, n: nat) returns (v: View)
    requires Risky(cfg, n)
    ensures Lifo(cfg, n, []) && Scene(Run(cfg, n, []), Idle, Idle, v)
    ensures v.count == 0 && v.inUse == Repeat(false, cfg.capacity)
    ensures forall id: int :: BagOf(v.shards)[id] == if 0 <= id < cfg.capacity then 1 else 0
  {
    hide P.Distributed, BagOf, FreeBag;
    v := View(Repeat(false, cfg.capacity), 0, 0, P.Distributed(cfg.capacity, cfg.rows, cfg.alignedSize));
    EachSlabOnce(cfg, v.shards);
  }

  /** Some shard has a newest entry, given that the shards hold some ID; without it they hold
      everything else as before. */
  lemma SomeNewest(shards: seq<seq<int>>, any: int) returns (j: nat)
    requires BagOf(shards)[any] > 0
    ensures j < |shards| && shards[j] != []
    ensures BagOf(shards) == BagOf(Popped(shards, j)) + multiset{Newest(shards, j)}
  {
    j := BagOfHolder(shards, any);
    BagOfPop(shards, j);
  }

  /** Thread 0 took two slabs from the shards, which do not hold the first any more. */
  lemma TwoTaken(cfg: Config, n: nat) returns (schedule: seq<Turn>, v: View, a: int, b: int)
    requires Risky(cfg, n)
    ensures Lifo(cfg, n, schedule) && Scene(Run(cfg, n, schedule), Idle, Idle, v) && v.count == 0
    ensures |v.inUse| == cfg.capacity && 0 <= a < cfg.capacity && 0 <= b < cfg.capacity && a != b
    ensures v.inUse[a] && v.inUse[b] && BagOf(v.shards)[a] == 0
  {
    hide Scene, Run, Lifo, BagOf, Newest, Popped;
    v := StartScene(cfg, n);
    var full := BagOf(v.shards);
    var j := SomeNewest(v.shards, 0);
    a := Newest(v.shards, j);
    assert full[a] > 0;
    schedule := FromShards(cfg, n, [], v, j);
    v := v.(inUse := v.inUse[a := true], shards := Popped(v.shards, j));
    var rest := BagOf(v.shards);
    assert full == rest + multiset{a};
    var other := if a == 0 then 1 else 0;
    assert rest[other] == full[other] && rest[a] == 0;
    j := SomeNewest(v.shards, other);
    b := Newest(v.shards, j);
    assert rest[b] > 0 && full[b] > 0;
    schedule := FromShards(cfg, n, schedule, v, j);
    v := v.(inUse := v.inUse[b := true], shards := Popped(v.shards, j));
    assert rest == BagOf(v.shards) + multiset{b};
  }

  /** In every such configuration some schedule, whose shard pops all take the newest entry,
      ends with no thread inside a call and a free slab that is in no cache, not on the stack
      and in no shard. */
  lemma EntryIsLost(cfg: Config, n: nat) returns (schedule: seq<Turn>, lost: int)
    requires Risky(cfg, n)
    ensures Lifo(cfg, n, schedule)
    ensures var s := Run(cfg, n, schedule);
      && (forall t :: 0 <= t < n ==> s.threads[t] == Idle)
      && 0 <= lost < |s.shared.inUse| && !s.shared.inUse[lost] && !InSomePool(s.shared, lost)
  {
    hide Scene, Run, Lifo, BagOf;
    var v, kept;
    schedule, v, lost, kept := TwoTaken(cfg, n);
    schedule := IntoCache(cfg, n, schedule, v, lost, Idle);
    v := v.(inUse := v.inUse[lost := false], count := 1, first := lost);
    schedule := TakesEntry(cfg, n, schedule, v);
    v := v.(count := 0);
    schedule := IntoCache(cfg, n, schedule, v, kept, CacheRead(true, 0, 0));
    v := v.(inUse := v.inUse[kept := false], count := 1, first := kept);
    schedule := ReadsSlot(cfg, n, schedule, v);
    v := v.(inUse := v.inUse[kept := true]);
    schedule := RecordsClaim(cfg, n, schedule, v, kept);
    NowhereInScene(Run(cfg, n, schedule), v, lost);
  }

  lemma NowhereInScene(s: State, v: View, id: int)
    requires Scene(s, Idle, Idle, v) && v.count == 1 && v.first != id && BagOf(v.shards)[id] == 0
    ensures (forall t :: 0 <= t < |s.threads| ==> s.threads[t] == Idle) && !InSomePool(s.shared, id)
    ensures s.shared.inUse == v.inUse
  {
    if Sharded(s.shared, id) {
      var j :| 0 <= j < |s.shared.shards| && id in s.shared.shards[j];
      BagOfMember(v.shards, j, id);
    }
    hide BagOf;
  }

  /** In every interleaving whose shard pops take the newest entry, every free slab is in some
      pool or in the hands of some thread. */
  ghost predicate NeverLoses(cfg: Config, n: nat)
    requires ValidConfig(cfg)
  {
    forall schedule: seq<Turn> :: Lifo(cfg, n, schedule) ==> AllFindable(Run(cfg, n, schedule))
  }

  /** That is so if and only if caching is off, there is one slab, or at most one thread. */
  lemma NeverLosesExactlyWhen(cfg: Config, n: nat)
    requires ValidConfig(cfg)
    ensures NeverLoses(cfg, n) <==> cfg.cacheCount == 0 || cfg.capacity == 1 || n <= 1
  {
    hide Run, Lifo, AllStored, Solo;
    if Harmless(cfg, n) {
      forall schedule: seq<Turn> | Lifo(cfg, n, schedule) ensures AllFindable(Run(cfg, n, schedule)) {
        HarmlessRun(cfg, n, schedule);
      }
    } else {
      var schedule, lost := EntryIsLost(cfg, n);
      IdleHoldsNothing(Run(cfg, n, schedule), lost);
    }
  }

  lemma IdleHoldsNothing(s: State, id: int)
    requires (forall t :: 0 <= t < |s.threads| ==> s.threads[t] == Idle) && !InSomePool(s.shared, id)
    requires 0 <= id < |s.shared.inUse| && !s.shared.inUse[id]
    ensures !AllFindable(s)
  {
    assert !Findable(s, id);
  }
}
