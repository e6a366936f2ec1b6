/** Whether every free slab can still be found in some pool, or is in the hands of a thread,
    in interleavings whose shard pops take the newest entry. It is so in every such
    interleaving exactly if caching is off, there is only one slab, or only one thread. */
module InterleavedListing {
  import opened Bags
  import opened Interleaving
  import opened Layout
  import opened Wrappers
  import P = Pools

  // ---- Shard pops take the newest entry ----

  ghost predicate PopsNewest(g: Shared, pc: Pc, x: Choice) {
    pc.ShardGet? && x.shard < |g.shards| ==>
      g.shards[x.shard] != [] && g.shards[x.shard][|g.shards[x.shard]| - 1] == x.id
  }

  ghost predicate LifoTurn(s: State, turn: Turn) {
    turn.thread < |s.threads| ==> PopsNewest(s.shared, s.threads[turn.thread], turn.choice)
  }

  /** Every shard pop of the schedule takes the entry pushed last and not yet popped. */
  ghost predicate Lifo(cfg: Config, threadCount: nat, schedule: seq<Turn>)
    requires ValidConfig(cfg)
  {
    schedule == []
    || var n := |schedule| - 1;
       Lifo(cfg, threadCount, schedule[..n]) && LifoTurn(Run(cfg, threadCount, schedule[..n]), schedule[n])
  }

  // ---- Where an ID can be found ----

  ghost predicate Published(g: Shared, id: int) {
    exists c, i :: 0 <= c < |g.caches| && 0 <= i < g.caches[c].count <= |g.caches[c].slots| && g.caches[c].slots[i] == id
  }

  ghost predicate Sharded(g: Shared, id: int) {
    exists j :: 0 <= j < |g.shards| && id in g.shards[j]
  }

  ghost predicate InSomePool(g: Shared, id: int) {
    id in g.stack || Published(g, id) || Sharded(g, id)
  }

  /** The thread carries the ID, or owns the cache slot it is in and is about to read it. */
  ghost predicate InHand(g: Shared, pc: Pc, id: int) {
    match pc
    case CacheRead(_, c, index) => c < |g.caches| && 0 <= index < |g.caches[c].slots| && g.caches[c].slots[index] == id
    case RefillPut(_, _, i, _) => i == id
    case PushBack(_, i) => i == id
    case Claiming(_, i, _) => i == id
    case ReturnPut(_, i, _) => i == id
    case StackPush(i) => i == id
    case ShardPut(i) => i == id
    case _ => false
  }

  ghost predicate Findable(s: State, id: int) {
    InSomePool(s.shared, id) || exists t :: 0 <= t < |s.threads| && InHand(s.shared, s.threads[t], id)
  }

  ghost predicate AllFindable(s: State) {
    forall id :: 0 <= id < |s.shared.inUse| && !s.shared.inUse[id] ==> Findable(s, id)
  }

  // ---- Steps that lose nothing ----

  /** The store position of a thread: the cache and slot it is about to write, and the ID. */
  datatype Position = Position(c: nat, slot: int, id: int)

  ghost function Storing(pc: Pc): Option<Position> {
    match pc
    case RefillPut(_, c, id, Store(count)) => Some(Position(c, count, id))
    case ReturnPut(c, id, Store(count)) => Some(Position(c, count, id))
    case _ => None
  }

  ghost function Publishing(pc: Pc): Option<Position> {
    match pc
    case RefillPut(_, c, id, Publish(count)) => Some(Position(c, count, id))
    case ReturnPut(c, id, Publish(count)) => Some(Position(c, count, id))
    case _ => None
  }

  /** Another thread relies on the slot: it is about to read it or to publish it. */
  ghost predicate Relies(pc: Pc, c: nat, slot: int) {
    || (pc.CacheRead? && pc.c == c && pc.index == slot)
    || (Publishing(pc).Some? && Publishing(pc).value.c == c && Publishing(pc).value.slot == slot)
  }

  /** A store does not change a slot that is published or that another thread relies on, and
      a refill that found the cache full finds room on the stack, or its ID there. */
  ghost predicate Careful(cfg: Config, s: State, t: nat)
    requires t < |s.threads|
  {
    var g, pc := s.shared, s.threads[t];
    && (Storing(pc).Some? ==>
          var p := Storing(pc).value;
          && p.c < |g.caches| && 0 <= p.slot < |g.caches[p.c].slots|
          && (g.caches[p.c].slots[p.slot] == p.id
              || (g.caches[p.c].count <= p.slot
                  && forall q :: 0 <= q < |s.threads| && q != t ==> !Relies(s.threads[q], p.c, p.slot))))
    && (pc.PushBack? ==> |g.stack| < cfg.capacity || pc.id in g.stack)
  }

  /** What a thread is about to publish is what it stored. */
  ghost predicate Stored(g: Shared, pc: Pc) {
    Publishing(pc).Some? ==>
      var p := Publishing(pc).value;
      p.c < |g.caches| && 0 <= p.slot < |g.caches[p.c].slots| && g.caches[p.c].slots[p.slot] == p.id
  }

  ghost predicate AllStored(s: State) {
    forall t :: 0 <= t < |s.threads| ==> Stored(s.shared, s.threads[t])
  }

  // ---- One step, seen from one ID ----

  /** The caches after a step: unchanged, one count lowered, one slot stored, or one count
      raised over a slot already stored. */
  lemma CacheEffect(cfg: Config, g: Shared, pc: Pc, t: nat, x: Choice)
    requires ValidConfig(cfg) && GoodShared(cfg, g) && GoodPc(cfg, pc)
    ensures var (g1, pc1) := Act(cfg, g, pc, t, x);
      && |g1.caches| == |g.caches|
      && (pc.CacheCas? && g.caches[pc.c].count == pc.count ==>
            g1.caches == g.caches[pc.c := g.caches[pc.c].(count := pc.count - 1)]
            && pc1 == CacheRead(pc.fast, pc.c, pc.count - 1))
      && (Storing(pc).Some? ==>
            var p := Storing(pc).value;
            p.c < |g.caches| && 0 <= p.slot < P.CACHE_SIZE == |g.caches[p.c].slots|
            && g1.caches == g.caches[p.c := g.caches[p.c].(slots := g.caches[p.c].slots[p.slot := p.id])]
            && Publishing(pc1) == Some(p))
      && (Publishing(pc).Some? ==>
            var p := Publishing(pc).value;
            p.c < |g.caches| && 0 <= p.slot < P.CACHE_SIZE
            && g1.caches == if g.caches[p.c].count == p.slot then g.caches[p.c := g.caches[p.c].(count := p.slot + 1)]
                            else g.caches)
      && (!(pc.CacheCas? && g.caches[pc.c].count == pc.count) && Storing(pc).None? && Publishing(pc).None? ==>
            g1.caches == g.caches && Publishing(pc1).None?)
  {
    hide Act, GoodShared, GoodPc;
    if pc.CacheCas? {
      CasEffect(cfg, g, pc, t, x);
    } else if Storing(pc).Some? {
      StoreEffect(cfg, g, pc, t, x);
    } else if Publishing(pc).Some? {
      PublishEffect(cfg, g, pc, t, x);
    } else {
      NoCacheEffect(cfg, g, pc, t, x);
    }
  }

  lemma CasEffect(cfg: Config, g: Shared, pc: Pc, t: nat, x: Choice)
    requires ValidConfig(cfg) && GoodShared(cfg, g) && GoodPc(cfg, pc) && pc.CacheCas?
    ensures var (g1, pc1) := Act(cfg, g, pc, t, x);
      pc.c < |g.caches| && Publishing(pc1).None?
      && if g.caches[pc.c].count == pc.count then
           g1.caches == g.caches[pc.c := g.caches[pc.c].(count := pc.count - 1)]
           && pc1 == CacheRead(pc.fast, pc.c, pc.count - 1)
         else g1.caches == g.caches
  {
    hide GoodCache;
  }

  lemma StoreEffect(cfg: Config, g: Shared, pc: Pc, t: nat, x: Choice)
    requires ValidConfig(cfg) && GoodShared(cfg, g) && GoodPc(cfg, pc) && Storing(pc).Some?
    ensures var (g1, pc1), p := Act(cfg, g, pc, t, x), Storing(pc).value;
      && p.c < |g.caches| && 0 <= p.slot < P.CACHE_SIZE == |g.caches[p.c].slots|
      && g1.caches == g.caches[p.c := g.caches[p.c].(slots := g.caches[p.c].slots[p.slot := p.id])]
      && Publishing(pc1) == Some(p)
  {
    assert GoodCache(cfg, g.caches[Storing(pc).value.c]);
  }

  lemma PublishEffect(cfg: Config, g: Shared, pc: Pc, t: nat, x: Choice)
    requires ValidConfig(cfg) && GoodShared(cfg, g) && GoodPc(cfg, pc) && Publishing(pc).Some?
    ensures var (g1, pc1), p := Act(cfg, g, pc, t, x), Publishing(pc).value;
      && p.c < |g.caches| && 0 <= p.slot < P.CACHE_SIZE
      && g1.caches == if g.caches[p.c].count == p.slot then g.caches[p.c := g.caches[p.c].(count := p.slot + 1)]
                      else g.caches
  {
    assert GoodCache(cfg, g.caches[Publishing(pc).value.c]);
  }

  lemma NoCacheEffect(cfg: Config, g: Shared, pc: Pc, t: nat, x: Choice)
    requires ValidConfig(cfg) && GoodShared(cfg, g) && GoodPc(cfg, pc)
    requires !pc.CacheCas? && Storing(pc).None? && Publishing(pc).None?
    ensures var (g1, pc1) := Act(cfg, g, pc, t, x);
      g1.caches == g.caches && Publishing(pc1).None?
  {
    hide Taken, IndexAtPut, GoodCache, Increment;
  }

  lemma StackKept(cfg: Config, g: Shared, pc: Pc, t: nat, x: Choice, id: int)
    requires ValidConfig(cfg) && GoodShared(cfg, g) && GoodPc(cfg, pc) && id in g.stack
    ensures var (g1, pc1) := Act(cfg, g, pc, t, x);
      id in g1.stack || InHand(g1, pc1, id)
  {
    hide PutStep, GoodCache, GoodPut, IndexAtPut, Taken, Increment;
    if (pc.StackPop? || pc.RefillPop?) && g.stack != [] {
      assert g.stack == g.stack[..|g.stack| - 1] + [g.stack[|g.stack| - 1]];
    }
  }

  lemma ShardKept(cfg: Config, g: Shared, pc: Pc, t: nat, x: Choice, id: int)
    requires ValidConfig(cfg) && GoodShared(cfg, g) && GoodPc(cfg, pc) && Sharded(g, id) && PopsNewest(g, pc, x)
    ensures var (g1, pc1) := Act(cfg, g, pc, t, x);
      Sharded(g1, id) || InHand(g1, pc1, id)
  {
    var j :| 0 <= j < |g.shards| && id in g.shards[j];
    hide Act, GoodShared, GoodPc;
    if pc.ShardGet? {
      ShardYields(cfg, g, pc, t, x, j, id);
    } else {
      ShardGrows(cfg, g, pc, t, x, j);
    }
  }

  /** The newest entry of the shard is in hand, the others are still there. */
  lemma ShardYields(cfg: Config, g: Shared, pc: Pc, t: nat, x: Choice, j: nat, id: int)
    requires ValidConfig(cfg) && GoodShared(cfg, g) && GoodPc(cfg, pc) && pc.ShardGet? && PopsNewest(g, pc, x)
    requires j < |g.shards| && id in g.shards[j]
    ensures var (g1, pc1) := Act(cfg, g, pc, t, x);
      Sharded(g1, id) || InHand(g1, pc1, id)
  {
    assert P.InRange(g.shards[j], cfg.capacity);
    hide GoodCache, P.InRange;
    var g1 := Act(cfg, g, pc, t, x).0;
    if j == x.shard {
      LastOrBefore(g.shards[j], id);
    }
    if id != x.id || j != x.shard {
      assert id in g1.shards[j];
    }
  }

  lemma LastOrBefore(s: seq<int>, id: int)
    requires id in s
    ensures id == s[|s| - 1] || id in s[..|s| - 1]
  {
    assert s == s[..|s| - 1] + [s[|s| - 1]];
  }

  lemma ShardGrows(cfg: Config, g: Shared, pc: Pc, t: nat, x: Choice, j: nat)
    requires ValidConfig(cfg) && GoodShared(cfg, g) && GoodPc(cfg, pc) && !pc.ShardGet? && j < |g.shards|
    ensures var g1 := Act(cfg, g, pc, t, x).0;
      |g1.shards| == |g.shards| && g.shards[j] <= g1.shards[j]
  {
    hide PutStep, GoodCache, GoodPut, IndexAtPut, Increment, P.InRange;
  }

  lemma CacheKept(cfg: Config, s: State, t: nat, x: Choice, id: int)
    requires ValidConfig(cfg) && Good(cfg, s) && t < |s.threads| && Careful(cfg, s, t) && Published(s.shared, id)
    ensures var (g1, pc1) := Act(cfg, s.shared, s.threads[t], t, x);
      Published(g1, id) || InHand(g1, pc1, id)
  {
    var g, pc := s.shared, s.threads[t];
    assert GoodPc(cfg, pc);
    CacheEffect(cfg, g, pc, t, x);
    var g1 := Act(cfg, g, pc, t, x).0;
    var c, i :| 0 <= c < |g.caches| && 0 <= i < g.caches[c].count <= |g.caches[c].slots| && g.caches[c].slots[i] == id;
    hide Act, GoodThreads, GoodPc;
    assert GoodCache(cfg, g.caches[c]);
    hide GoodShared;
    if !(pc.CacheCas? && g.caches[pc.c].count == pc.count && pc.c == c && i == pc.count - 1) {
      assert g1.caches[c].slots[i] == id && i < g1.caches[c].count <= |g1.caches[c].slots|;
    }
  }

  lemma OtherHandKept(cfg: Config, s: State, t: nat, x: Choice, q: nat, id: int)
    requires ValidConfig(cfg) && Good(cfg, s) && t < |s.threads| && q < |s.threads| && q != t
    requires Careful(cfg, s, t) && InHand(s.shared, s.threads[q], id)
    ensures InHand(Act(cfg, s.shared, s.threads[t], t, x).0, s.threads[q], id)
  {
    var g, pc := s.shared, s.threads[t];
    assert GoodPc(cfg, pc);
    CacheEffect(cfg, g, pc, t, x);
    hide Act, GoodThreads, GoodPc, GoodShared;
  }

  lemma OwnHandKept(cfg: Config, s: State, t: nat, x: Choice, id: int)
    requires ValidConfig(cfg) && Good(cfg, s) && t < |s.threads| && Careful(cfg, s, t) && Stored(s.shared, s.threads[t])
    requires InHand(s.shared, s.threads[t], id)
    ensures var (g1, pc1) := Act(cfg, s.shared, s.threads[t], t, x);
      0 <= id < |g1.inUse| && !g1.inUse[id] ==> InSomePool(g1, id) || InHand(g1, pc1, id)
  {
    var g, pc := s.shared, s.threads[t];
    assert GoodPc(cfg, pc);
    hide Good, GoodShared, GoodPc, GoodThreads, Act;
    if Publishing(pc).Some? {
      PublishedNow(cfg, g, pc, t, x, id);
    } else if pc.ShardPut? {
      ShardedNow(cfg, g, pc, t, x, id);
    } else {
      StillInHand(cfg, g, pc, t, x, id);
    }
  }

  lemma PublishedNow(cfg: Config, g: Shared, pc: Pc, t: nat, x: Choice, id: int)
    requires ValidConfig(cfg) && GoodShared(cfg, g) && GoodPc(cfg, pc)
    requires Publishing(pc).Some? && Stored(g, pc) && InHand(g, pc, id)
    ensures var (g1, pc1) := Act(cfg, g, pc, t, x);
      Published(g1, id) || InHand(g1, pc1, id)
  {
    var p := Publishing(pc).value;
    assert GoodCache(cfg, g.caches[p.c]);
    hide GoodCache;
    var g1 := Act(cfg, g, pc, t, x).0;
    if g.caches[p.c].count == p.slot {
      assert g1.caches[p.c].slots[p.slot] == id && p.slot < g1.caches[p.c].count <= |g1.caches[p.c].slots|;
    }
  }

  lemma ShardedNow(cfg: Config, g: Shared, pc: Pc, t: nat, x: Choice, id: int)
    requires ValidConfig(cfg) && GoodShared(cfg, g) && GoodPc(cfg, pc) && pc == ShardPut(id)
    ensures Sharded(Act(cfg, g, pc, t, x).0, id)
  {
    hide GoodCache;
    var home := IndexAtPut(id, |g.shards|, cfg.alignedSize);
    assert id in Act(cfg, g, pc, t, x).0.shards[home];
  }

  lemma StillInHand(cfg: Config, g: Shared, pc: Pc, t: nat, x: Choice, id: int)
    requires ValidConfig(cfg) && GoodShared(cfg, g) && GoodPc(cfg, pc) && InHand(g, pc, id)
    requires Publishing(pc).None? && !pc.ShardPut?
    requires pc.PushBack? ==> |g.stack| < cfg.capacity || pc.id in g.stack
    ensures var (g1, pc1) := Act(cfg, g, pc, t, x);
      0 <= id < |g1.inUse| && !g1.inUse[id] ==> id in g1.stack || InHand(g1, pc1, id)
  {
    hide GoodCache, Published, IndexAtPut;
  }

  lemma JustFreed(cfg: Config, g: Shared, pc: Pc, t: nat, x: Choice, id: int)
    requires ValidConfig(cfg) && GoodShared(cfg, g) && GoodPc(cfg, pc) && 0 <= id < |g.inUse| && g.inUse[id]
    ensures var (g1, pc1) := Act(cfg, g, pc, t, x);
      |g1.inUse| == |g.inUse| && (!g1.inUse[id] ==> InHand(g1, pc1, id))
  {
    ActChanges(cfg, g, pc, t, x);
    hide PutStep, GoodCache, GoodPut, IndexAtPut, Taken, Increment;
  }

  lemma StoredKept(cfg: Config, s: State, t: nat, x: Choice, q: nat)
    requires ValidConfig(cfg) && Good(cfg, s) && t < |s.threads| && q < |s.threads|
    requires Careful(cfg, s, t) && Stored(s.shared, s.threads[q])
    ensures var (g1, pc1) := Act(cfg, s.shared, s.threads[t], t, x);
      Stored(g1, if q == t then pc1 else s.threads[q])
  {
    var g, pc := s.shared, s.threads[t];
    assert GoodPc(cfg, pc);
    CacheEffect(cfg, g, pc, t, x);
    if Publishing(pc).Some? {
      PublishEnds(cfg, g, pc, t, x);
    }
    hide Act, GoodThreads, GoodPc, GoodShared;
  }

  lemma PublishEnds(cfg: Config, g: Shared, pc: Pc, t: nat, x: Choice)
    requires ValidConfig(cfg) && GoodShared(cfg, g) && GoodPc(cfg, pc) && Publishing(pc).Some?
    ensures Publishing(Act(cfg, g, pc, t, x).1).None?
  {
    hide GoodShared;
  }

  /** A careful step of a thread keeps every free slab findable. */
  lemma StepKeeps(cfg: Config, s: State, turn: Turn)
    requires ValidConfig(cfg) && Good(cfg, s) && AllFindable(s) && AllStored(s) && LifoTurn(s, turn)
    requires turn.thread < |s.threads| ==> Careful(cfg, s, turn.thread)
    ensures AllFindable(Step(cfg, s, turn)) && AllStored(Step(cfg, s, turn))
  {
    hide Act, Careful, Stored, InHand, InSomePool, PopsNewest, GoodPc, GoodShared;
    if turn.thread < |s.threads| {
      var t, x := turn.thread, turn.choice;
      var s1 := Step(cfg, s, turn);
      assert GoodPc(cfg, s.threads[t]);
      forall id | 0 <= id < |s1.shared.inUse| && !s1.shared.inUse[id] ensures Findable(s1, id) {
        FindableAfter(cfg, s, t, x, id, s1);
      }
      forall q | 0 <= q < |s1.threads| ensures Stored(s1.shared, s1.threads[q]) {
        StoredKept(cfg, s, t, x, q);
      }
    }
  }

  lemma FindableAfter(cfg: Config, s: State, t: nat, x: Choice, id: int, s1: State)
    requires ValidConfig(cfg) && Good(cfg, s) && AllFindable(s) && AllStored(s)
    requires t < |s.threads| && PopsNewest(s.shared, s.threads[t], x) && Careful(cfg, s, t) && GoodPc(cfg, s.threads[t])
    requires var (g1, pc1) := Act(cfg, s.shared, s.threads[t], t, x); s1 == State(g1, s.threads[t := pc1])
    requires 0 <= id < |s1.shared.inUse| && !s1.shared.inUse[id]
    ensures Findable(s1, id)
  {
    var g, pc := s.shared, s.threads[t];
    var pc1 := s1.threads[t];
    SameLength(cfg, g, pc, t, x);
    hide Act, Careful, Stored, InHand, Published, Sharded, PopsNewest, GoodPc, GoodShared, Good;
    if g.inUse[id] {
      JustFreed(cfg, g, pc, t, x, id);
    } else if id in g.stack {
      StackKept(cfg, g, pc, t, x, id);
    } else if Published(g, id) {
      CacheKept(cfg, s, t, x, id);
    } else if Sharded(g, id) {
      ShardKept(cfg, g, pc, t, x, id);
    } else {
      var q :| 0 <= q < |s.threads| && InHand(g, s.threads[q], id);
      if q == t {
        OwnHandKept(cfg, s, t, x, id);
      } else {
        OtherHandKept(cfg, s, t, x, q, id);
        assert InHand(s1.shared, s1.threads[q], id);
      }
    }
    assert InHand(s1.shared, pc1, id) ==> Findable(s1, id);
  }

  lemma SameLength(cfg: Config, g: Shared, pc: Pc, t: nat, x: Choice)
    requires ValidConfig(cfg) && GoodShared(cfg, g) && GoodPc(cfg, pc)
    ensures |Act(cfg, g, pc, t, x).0.inUse| == |g.inUse|
  {
    ActChanges(cfg, g, pc, t, x);
    hide Act;
  }

  // ---- When every step is careful ----

  lemma UncachedIsCareful(cfg: Config, s: State, t: nat)
    requires Good(cfg, s) && t < |s.threads| && cfg.cacheCount == 0
    ensures Careful(cfg, s, t)
  {
    assert GoodPc(cfg, s.threads[t]);
    hide GoodShared, GoodThreads;
  }

  /** With a single slab every store writes what is there already. */
  lemma SingleSlabIsCareful(cfg: Config, s: State, t: nat)
    requires Good(cfg, s) && t < |s.threads| && cfg.capacity == 1
    ensures Careful(cfg, s, t)
  {
    var g, pc := s.shared, s.threads[t];
    assert GoodPc(cfg, pc);
    if Storing(pc).Some? {
      var p := Storing(pc).value;
      assert GoodCache(cfg, g.caches[p.c]) && 0 <= p.slot < P.CACHE_SIZE;
      assert 0 <= g.caches[p.c].slots[p.slot] < 1;
    }
    if |g.stack| > 0 {
      assert g.stack[0] == 0;
    }
    hide GoodThreads;
  }

  /** What the only thread knows about the cache it is using. */
  ghost predicate Solo(g: Shared, pc: Pc) {
    && (Storing(pc).Some? ==>
          var p := Storing(pc).value; p.c < |g.caches| && g.caches[p.c].count == p.slot)
    && (Publishing(pc).Some? ==>
          var p := Publishing(pc).value; p.c < |g.caches| && g.caches[p.c].count == p.slot)
    && (pc.RefillPop? || pc.RefillPut? ==> pc.c < |g.caches| && g.caches[pc.c].count == 0)
    && !pc.PushBack?
  }

  lemma SoloKept(cfg: Config, g: Shared, pc: Pc, t: nat, x: Choice)
    requires ValidConfig(cfg) && GoodShared(cfg, g) && GoodPc(cfg, pc) && Solo(g, pc)
    ensures var (g1, pc1) := Act(cfg, g, pc, t, x);
      Solo(g1, pc1)
  {
    hide Act, GoodShared, GoodPc, Solo;
    if pc.CacheCas? {
      SoloCas(cfg, g, pc, t, x);
    } else if Storing(pc).Some? {
      SoloStore(cfg, g, pc, t, x);
    } else if Publishing(pc).Some? {
      SoloPublish(cfg, g, pc, t, x);
    } else {
      SoloElse(cfg, g, pc, t, x);
    }
  }

  lemma SoloCas(cfg: Config, g: Shared, pc: Pc, t: nat, x: Choice)
    requires ValidConfig(cfg) && GoodShared(cfg, g) && GoodPc(cfg, pc) && pc.CacheCas?
    ensures var (g1, pc1) := Act(cfg, g, pc, t, x);
      Solo(g1, pc1)
  {
    hide GoodCache;
  }

  lemma SoloStore(cfg: Config, g: Shared, pc: Pc, t: nat, x: Choice)
    requires ValidConfig(cfg) && GoodShared(cfg, g) && GoodPc(cfg, pc) && Solo(g, pc) && Storing(pc).Some?
    ensures var (g1, pc1) := Act(cfg, g, pc, t, x);
      Solo(g1, pc1)
  {
    assert GoodCache(cfg, g.caches[Storing(pc).value.c]);
    hide GoodCache;
  }

  lemma SoloPublish(cfg: Config, g: Shared, pc: Pc, t: nat, x: Choice)
    requires ValidConfig(cfg) && GoodShared(cfg, g) && GoodPc(cfg, pc) && Solo(g, pc) && Publishing(pc).Some?
    ensures var (g1, pc1) := Act(cfg, g, pc, t, x);
      Solo(g1, pc1)
  {
    assert GoodCache(cfg, g.caches[Publishing(pc).value.c]);
    hide GoodCache;
  }

  /** Positions that come before a store: a count was just read, or an ID just taken. */
  lemma SoloElse(cfg: Config, g: Shared, pc: Pc, t: nat, x: Choice)
    requires ValidConfig(cfg) && GoodShared(cfg, g) && GoodPc(cfg, pc) && Solo(g, pc)
    requires !pc.CacheCas? && Storing(pc).None? && Publishing(pc).None?
    ensures var (g1, pc1) := Act(cfg, g, pc, t, x);
      Solo(g1, pc1)
  {
    hide Act, GoodShared, GoodPc, Solo;
    if pc.CacheLoad? || pc.RefillPop? || pc.RefillPut? || pc.ReturnPut? {
      SoloLoad(cfg, g, pc, t, x);
    } else {
      SoloAway(cfg, g, pc, t, x);
    }
  }

  lemma SoloLoad(cfg: Config, g: Shared, pc: Pc, t: nat, x: Choice)
    requires ValidConfig(cfg) && GoodShared(cfg, g) && GoodPc(cfg, pc) && Solo(g, pc)
    requires pc.CacheLoad? || pc.RefillPop? || pc.RefillPut? || pc.ReturnPut?
    requires Storing(pc).None? && Publishing(pc).None?
    ensures var (g1, pc1) := Act(cfg, g, pc, t, x);
      Solo(g1, pc1)
  {
    assert GoodCache(cfg, g.caches[pc.c]);
    hide GoodCache, P.InRange;
  }

  lemma SoloAway(cfg: Config, g: Shared, pc: Pc, t: nat, x: Choice)
    requires ValidConfig(cfg) && GoodShared(cfg, g) && GoodPc(cfg, pc)
    requires !pc.CacheLoad? && !pc.CacheCas? && !pc.RefillPop? && !pc.RefillPut? && !pc.ReturnPut?
    ensures var (g1, pc1) := Act(cfg, g, pc, t, x);
      Solo(g1, pc1)
  {
    hide GoodShared, GoodCache, P.InRange, Taken, IndexAtPut, Increment;
  }

  lemma SoloIsCareful(cfg: Config, s: State)
    requires Good(cfg, s) && |s.threads| == 1 && Solo(s.shared, s.threads[0])
    ensures Careful(cfg, s, 0)
  {
    var g, pc := s.shared, s.threads[0];
    assert GoodPc(cfg, pc);
    if Storing(pc).Some? {
      assert GoodCache(cfg, g.caches[Storing(pc).value.c]);
    }
    hide GoodThreads;
  }

  ghost predicate Harmless(cfg: Config, threadCount: nat) {
    cfg.cacheCount == 0 || cfg.capacity == 1 || threadCount <= 1
  }

  /** What every harmless run keeps. */
  ghost predicate Kept(s: State) {
    AllFindable(s) && AllStored(s) && (|s.threads| == 1 ==> Solo(s.shared, s.threads[0]))
  }

  lemma DistributedHolds(capacity: nat, shards: seq<seq<int>>, id: int)
    requires BagOf(shards) == FreeBag(Repeat(false, capacity)) && 0 <= id < capacity
    ensures exists j :: 0 <= j < |shards| && id in shards[j]
  {
    FreeBagCounts(Repeat(false, capacity), id);
    hide BagOf, FreeBag;
    var j := BagOfHolder(shards, id);
  }

  lemma StartIsKept(cfg: Config, threadCount: nat)
    requires ValidConfig(cfg)
    ensures Kept(Start(cfg, threadCount))
  {
    var s := Start(cfg, threadCount);
    P.DistributedBag(cfg.capacity, cfg.rows, cfg.alignedSize);
    hide P.Distributed, BagOf, FreeBag;
    forall id | 0 <= id < |s.shared.inUse| ensures Findable(s, id) {
      DistributedHolds(cfg.capacity, s.shared.shards, id);
      assert Sharded(s.shared, id);
    }
  }

  lemma HarmlessIsCareful(cfg: Config, s: State, t: nat)
    requires Good(cfg, s) && Kept(s) && Harmless(cfg, |s.threads|) && t < |s.threads|
    ensures Careful(cfg, s, t)
  {
    hide Careful, Good, AllFindable, AllStored, Solo;
    if cfg.cacheCount == 0 {
      UncachedIsCareful(cfg, s, t);
    } else if cfg.capacity == 1 {
      SingleSlabIsCareful(cfg, s, t);
    } else {
      SoloIsCareful(cfg, s);
    }
  }

  lemma HarmlessStep(cfg: Config, s: State, turn: Turn)
    requires ValidConfig(cfg) && Good(cfg, s) && Kept(s) && Harmless(cfg, |s.threads|) && LifoTurn(s, turn)
    ensures Kept(Step(cfg, s, turn))
  {
    hide Careful, Act, AllFindable, AllStored, Solo, LifoTurn, GoodShared, GoodPc;
    if turn.thread < |s.threads| {
      var t := turn.thread;
      assert GoodPc(cfg, s.threads[t]);
      HarmlessIsCareful(cfg, s, t);
      StepKeeps(cfg, s, turn);
      if |s.threads| == 1 {
        SoloKept(cfg, s.shared, s.threads[0], 0, turn.choice);
      }
    }
  }

  lemma {:induction false} HarmlessRun(cfg: Config, threadCount: nat, schedule: seq<Turn>)
    requires ValidConfig(cfg) && Harmless(cfg, threadCount) && Lifo(cfg, threadCount, schedule)
    ensures Kept(Run(cfg, threadCount, schedule))
  {
    hide Kept, LifoTurn, Good, Step, Start;
    if schedule == [] {
      StartIsKept(cfg, threadCount);
    } else {
      var n := |schedule| - 1;
      HarmlessRun(cfg, threadCount, schedule[..n]);
      HarmlessStep(cfg, Run(cfg, threadCount, schedule[..n]), schedule[n]);
    }
  }

  // ---- Panics ----

  ghost predicate Calm(s: State) {
    forall t :: 0 <= t < |s.threads| ==> !s.threads[t].Panicked?
  }

  lemma ActStaysCalm(cfg: Config, g: Shared, pc: Pc, t: nat, x: Choice)
    requires ValidConfig(cfg) && GoodShared(cfg, g) && GoodPc(cfg, pc) && PopsNewest(g, pc, x) && !pc.Panicked?
    ensures !Act(cfg, g, pc, t, x).1.Panicked?
  {
    if pc.ShardGet? && x.shard < |g.shards| {
      assert P.InRange(g.shards[x.shard], cfg.capacity);
    }
    hide GoodCache, P.InRange, IndexAtPut, Increment, Taken;
  }

  /** If every shard pop takes the newest entry, no thread ever panics. */
  lemma {:induction false} NobodyPanics(cfg: Config, threadCount: nat, schedule: seq<Turn>)
    requires ValidConfig(cfg) && Lifo(cfg, threadCount, schedule)
    ensures Calm(Run(cfg, threadCount, schedule))
  {
    if schedule != [] {
      var n := |schedule| - 1;
      NobodyPanics(cfg, threadCount, schedule[..n]);
      var s, turn := Run(cfg, threadCount, schedule[..n]), schedule[n];
      if turn.thread < |s.threads| {
        assert GoodPc(cfg, s.threads[turn.thread]);
        hide Act, GoodShared, GoodPc, PopsNewest;
        ActStaysCalm(cfg, s.shared, s.threads[turn.thread], turn.thread, turn.choice);
      }
    }
  }
}
