/** A thread that is not interrupted: step by step, in the interleaved model, it claims and
    frees exactly what the sequential functions say. */
module LoneThread {
  import opened Bags
  import opened Bits
  import opened Interleaving
  import opened Layout
  import opened Wrappers
  import C = Claims
  import P = Pools

  // ---- Steps of one thread ----

  ghost predicate Fine(cfg: Config, g: Shared, pc: Pc) {
    ValidConfig(cfg) && GoodShared(cfg, g) && GoodPc(cfg, pc)
  }

  ghost function Solo(cfg: Config, g: Shared, pc: Pc, t: nat, xs: seq<Choice>): (r: (Shared, Pc))
    requires Fine(cfg, g, pc)
    ensures Fine(cfg, r.0, r.1)
  {
    if xs == [] then (g, pc)
    else
      var (g1, pc1) := Solo(cfg, g, pc, t, xs[..|xs| - 1]);
      ActKeepsGood(cfg, g1, pc1, t, xs[|xs| - 1]);
      Act(cfg, g1, pc1, t, xs[|xs| - 1])
  }

  /** Some steps of the thread alone lead from one point to the other. */
  ghost predicate Leads(cfg: Config, g: Shared, pc: Pc, t: nat, g1: Shared, pc1: Pc) {
    Fine(cfg, g, pc) && exists xs :: Solo(cfg, g, pc, t, xs) == (g1, pc1)
  }

  lemma Here(cfg: Config, g: Shared, pc: Pc, t: nat)
    requires Fine(cfg, g, pc)
    ensures Leads(cfg, g, pc, t, g, pc)
  {
    assert Solo(cfg, g, pc, t, []) == (g, pc);
  }

  /** One more step. */
  lemma Then(cfg: Config, g: Shared, pc: Pc, t: nat, g1: Shared, pc1: Pc, x: Choice)
    requires Leads(cfg, g, pc, t, g1, pc1)
    ensures Fine(cfg, g1, pc1)
    ensures Leads(cfg, g, pc, t, Act(cfg, g1, pc1, t, x).0, Act(cfg, g1, pc1, t, x).1)
  {
    var xs :| Solo(cfg, g, pc, t, xs) == (g1, pc1);
    var more := xs + [x];
    assert more[..|xs|] == xs;
    hide Act, Fine;
    assert Solo(cfg, g, pc, t, more) == Act(cfg, g1, pc1, t, x);
  }

  lemma {:induction false} SoloOn(cfg: Config, g: Shared, pc: Pc, t: nat, xs: seq<Choice>, ys: seq<Choice>)
    requires Fine(cfg, g, pc)
    ensures var (g1, pc1) := Solo(cfg, g, pc, t, xs);
      Solo(cfg, g, pc, t, xs + ys) == Solo(cfg, g1, pc1, t, ys)
  {
    hide Act, Fine;
    if ys == [] {
      assert xs + ys == xs;
    } else {
      var n := |ys| - 1;
      SoloOn(cfg, g, pc, t, xs, ys[..n]);
      assert (xs + ys)[..|xs + ys| - 1] == xs + ys[..n];
    }
  }

  lemma AndThen(cfg: Config, g: Shared, pc: Pc, t: nat, g1: Shared, pc1: Pc, g2: Shared, pc2: Pc)
    requires Leads(cfg, g, pc, t, g1, pc1) && Leads(cfg, g1, pc1, t, g2, pc2)
    ensures Leads(cfg, g, pc, t, g2, pc2)
  {
    var xs :| Solo(cfg, g, pc, t, xs) == (g1, pc1);
    var ys :| Solo(cfg, g1, pc1, t, ys) == (g2, pc2);
    SoloOn(cfg, g, pc, t, xs, ys);
    hide Fine;
    assert Solo(cfg, g, pc, t, xs + ys) == (g2, pc2);
  }

  // ---- What the shared memory stands for ----

  ghost function ListOf(cache: Cache): seq<int>
    requires 0 <= cache.count <= |cache.slots|
  {
    cache.slots[..cache.count]
  }

  ghost function Lists(caches: seq<Cache>): (r: seq<seq<int>>)
    requires forall c :: 0 <= c < |caches| ==> 0 <= caches[c].count <= |caches[c].slots|
    ensures |r| == |caches| && forall c :: 0 <= c < |r| ==> r[c] == ListOf(caches[c])
  {
    seq(|caches|, c requires 0 <= c < |caches| => ListOf(caches[c]))
  }

  /** The pools of the sequential model: the published slots, the stack and the shards. */
  ghost function PoolsOf(cfg: Config, g: Shared): (p: P.Pools)
    requires ValidConfig(cfg) && GoodShared(cfg, g)
    ensures P.WellFormed(p)
  {
    assert forall c :: 0 <= c < |g.caches| ==> GoodCache(cfg, g.caches[c]);
    var p := P.Pools(g.inUse, Lists(g.caches), g.stack, g.shards);
    PoolsAreWellFormed(cfg, g, p);
    p
  }

  lemma PoolsAreWellFormed(cfg: Config, g: Shared, p: P.Pools)
    requires ValidConfig(cfg) && GoodShared(cfg, g)
    requires forall c :: 0 <= c < |g.caches| ==> GoodCache(cfg, g.caches[c])
    requires p == P.Pools(g.inUse, Lists(g.caches), g.stack, g.shards)
    ensures P.WellFormed(p)
  {
    WholeRows(cfg.rows);
    forall c | 0 <= c < |p.caches| ensures |p.caches[c]| <= P.CACHE_SIZE && P.InRange(p.caches[c], |p.inUse|) {
      assert GoodCache(cfg, g.caches[c]);
    }
  }

  /** What no step of the pools touches. */
  ghost predicate SameCounters(g: Shared, g1: Shared) {
    && g1.fastAllocations == g.fastAllocations && g1.allocations == g.allocations
    && g1.fastDeallocations == g.fastDeallocations
  }

  function Draw(cpu: nat): Choice {
    Choice(cpu, WishAllocate, false, 0, 0)
  }

  // ---- One get from a cache ----

  /** The thread is at a drawn cache with this count, after two loads. */
  lemma CacheLooks(cfg: Config, g: Shared, fast: bool, t: nat, cpu: nat, c: nat)
    requires Fine(cfg, g, CacheGet(fast)) && c == P.CacheIndex(cpu, cfg.cacheCount)
    ensures g.caches[c].count == 0 ==> Leads(cfg, g, CacheGet(fast), t, g, RefillPop(fast, c))
    ensures g.caches[c].count > 0 ==> Leads(cfg, g, CacheGet(fast), t, g, CacheCas(fast, c, g.caches[c].count))
  {
    var start, x := CacheGet(fast), Draw(cpu);
    assert GoodCache(cfg, g.caches[c]);
    hide P.CacheIndex, GoodCache, Solo, Leads;
    Here(cfg, g, start, t);
    Then(cfg, g, start, t, g, start, x);
    Then(cfg, g, start, t, g, CacheLoad(fast, c), x);
  }

  lemma CasMoves(cfg: Config, g: Shared, fast: bool, t: nat, c: nat, count: nat, last: nat, x: Choice)
    requires Fine(cfg, g, CacheCas(fast, c, count)) && g.caches[c].count == count == last + 1
    ensures Act(cfg, g, CacheCas(fast, c, count), t, x)
         == (g.(caches := g.caches[c := g.caches[c].(count := last)]), CacheRead(fast, c, last))
  {
    hide GoodShared;
  }

  lemma ReadMoves(cfg: Config, g: Shared, fast: bool, t: nat, c: nat, index: nat, x: Choice)
    requires Fine(cfg, g, CacheRead(fast, c, index))
    ensures index < |g.caches[c].slots|
    ensures Act(cfg, g, CacheRead(fast, c, index), t, x) == (g, Claiming(fast, g.caches[c].slots[index], Caches))
  {
    assert GoodCache(cfg, g.caches[c]);
    hide GoodShared;
  }

  lemma CacheHit(cfg: Config, g: Shared, fast: bool, t: nat, cpu: nat, c: nat, last: nat)
    requires Fine(cfg, g, CacheGet(fast)) && c == P.CacheIndex(cpu, cfg.cacheCount) && last + 1 == g.caches[c].count
    ensures last < |g.caches[c].slots|
    ensures var g1 := g.(caches := g.caches[c := g.caches[c].(count := last)]);
      Leads(cfg, g, CacheGet(fast), t, g1, Claiming(fast, g.caches[c].slots[last], Caches))
  {
    var start, x, count := CacheGet(fast), Draw(cpu), g.caches[c].count;
    var g1 := g.(caches := g.caches[c := g.caches[c].(count := last)]);
    CacheLooks(cfg, g, fast, t, cpu, c);
    hide P.CacheIndex, Fine, Act, Solo, Leads;
    Then(cfg, g, start, t, g, CacheCas(fast, c, count), x);
    CasMoves(cfg, g, fast, t, c, count, last, x);
    Then(cfg, g, start, t, g1, CacheRead(fast, c, last), x);
    ReadMoves(cfg, g1, fast, t, c, last, x);
  }

  lemma PutMoves(cfg: Config, g: Shared, fast: bool, t: nat, c: nat, id: int, at: Put, x: Choice)
    requires Fine(cfg, g, RefillPut(fast, c, id, at))
    ensures GoodCache(cfg, g.caches[c])
    ensures var (cache, result) := PutStep(g.caches[c], id, at);
      Act(cfg, g, RefillPut(fast, c, id, at), t, x)
        == (g.(caches := g.caches[c := cache]),
            match result
            case Going(next) => RefillPut(fast, c, id, next)
            case Published => Claiming(fast, id, Caches)
            case Full => PushBack(fast, id))
  {
  }

  /** putInternal on an empty cache stores into its first slot and publishes it. */
  lemma RefillStores(cfg: Config, g: Shared, pc: Pc, g1: Shared, fast: bool, t: nat, c: nat, id: int)
    requires Leads(cfg, g, pc, t, g1, RefillPut(fast, c, id, Load)) && c < |g1.caches| && g1.caches[c].count == 0
    ensures |g1.caches[c].slots| == 16
    ensures Leads(cfg, g, pc, t, g1.(caches := g1.caches[c := Cache(1, g1.caches[c].slots[0 := id])]),
                  Claiming(fast, id, Caches))
  {
    var x, slots := Draw(0), g1.caches[c].slots;
    hide Fine, Act, Solo, Leads;
    Then(cfg, g, pc, t, g1, RefillPut(fast, c, id, Load), x);
    PutMoves(cfg, g1, fast, t, c, id, Load, x);
    assert g1.caches[c := g1.caches[c]] == g1.caches;
    Then(cfg, g, pc, t, g1, RefillPut(fast, c, id, Store(0)), x);
    PutMoves(cfg, g1, fast, t, c, id, Store(0), x);
    var g2 := g1.(caches := g1.caches[c := Cache(0, slots[0 := id])]);
    Then(cfg, g, pc, t, g2, RefillPut(fast, c, id, Publish(0)), x);
    PutMoves(cfg, g2, fast, t, c, id, Publish(0), x);
    assert g2.caches[c := Cache(1, slots[0 := id])] == g1.caches[c := Cache(1, slots[0 := id])];
  }

  lemma CacheRefill(cfg: Config, g: Shared, fast: bool, t: nat, cpu: nat, c: nat, last: nat)
    requires Fine(cfg, g, CacheGet(fast)) && c == P.CacheIndex(cpu, cfg.cacheCount)
    requires g.caches[c].count == 0 && last + 1 == |g.stack|
    ensures |g.caches[c].slots| == 16
    ensures var id := g.stack[last];
      Leads(cfg, g, CacheGet(fast), t,
            g.(stack := g.stack[..last], caches := g.caches[c := Cache(1, g.caches[c].slots[0 := id])]),
            Claiming(fast, id, Caches))
  {
    var id, g1 := g.stack[last], g.(stack := g.stack[..last]);
    CacheLooks(cfg, g, fast, t, cpu, c);
    hide P.CacheIndex, GoodCache, GoodShared, Solo, Leads;
    Then(cfg, g, CacheGet(fast), t, g, RefillPop(fast, c), Draw(cpu));
    RefillStores(cfg, g, CacheGet(fast), g1, fast, t, c, id);
  }

  lemma CacheMiss(cfg: Config, g: Shared, fast: bool, t: nat, cpu: nat, c: nat)
    requires Fine(cfg, g, CacheGet(fast)) && c == P.CacheIndex(cpu, cfg.cacheCount)
    requires g.caches[c].count == 0 && g.stack == []
    ensures Leads(cfg, g, CacheGet(fast), t, g, StackPop(fast))
  {
    CacheLooks(cfg, g, fast, t, cpu, c);
    hide P.CacheIndex, GoodCache, GoodShared, Solo, Leads;
    Then(cfg, g, CacheGet(fast), t, g, RefillPop(fast, c), Draw(cpu));
  }

  // ---- Gets, as the sequential model has them ----

  lemma LeadsFine(cfg: Config, g: Shared, pc: Pc, t: nat, g1: Shared, pc1: Pc)
    requires Leads(cfg, g, pc, t, g1, pc1)
    ensures Fine(cfg, g, pc) && Fine(cfg, g1, pc1)
  {
    hide Fine;
  }

  lemma ListsSet(cfg: Config, g: Shared, c: nat, cache: Cache, g1: Shared)
    requires ValidConfig(cfg) && GoodShared(cfg, g) && GoodShared(cfg, g1)
    requires c < |g.caches| && g1.caches == g.caches[c := cache]
    ensures 0 <= cache.count <= |cache.slots|
    ensures PoolsOf(cfg, g1).caches == PoolsOf(cfg, g).caches[c := cache.slots[..cache.count]]
  {
    assert g1.caches[c] == cache && GoodCache(cfg, g1.caches[c]);
    hide GoodCache;
  }

  /** A get, with nobody else about, yields what the sequential get yields and leaves the pools
      as it leaves them. */
  ghost predicate Gets(cfg: Config, g: Shared, pc: Pc, fast: bool, t: nat, r: P.Taken, from: Source, none: Pc,
                       g1: Shared) {
    var pc1 := if r.slot.Some? then Claiming(fast, r.slot.value, from) else none;
    && Leads(cfg, g, pc, t, g1, pc1) && Fine(cfg, g1, pc1)
    && PoolsOf(cfg, g1) == r.pools && g1.log == g.log && SameCounters(g, g1)
  }

  ghost predicate GetsAlone(cfg: Config, g: Shared, fast: bool, t: nat, cpu: nat, g1: Shared)
    requires Fine(cfg, g, CacheGet(fast))
  {
    Gets(cfg, g, CacheGet(fast), fast, t, P.CacheGet(PoolsOf(cfg, g), cpu), Caches, StackPop(fast), g1)
  }

  lemma CacheGetCases(p: P.Pools, cpu: nat, c: nat, last: nat)
    requires P.WellFormed(p) && p.caches != [] && c == P.CacheIndex(cpu, |p.caches|)
    ensures last + 1 == |p.caches[c]| ==>
      P.CacheGet(p, cpu) == P.Taken(p.(caches := p.caches[c := p.caches[c][..last]]), Some(p.caches[c][last]))
    ensures p.caches[c] == [] && last + 1 == |p.stack| ==>
      P.CacheGet(p, cpu)
        == P.Taken(p.(caches := p.caches[c := [p.stack[last]]], stack := p.stack[..last]), Some(p.stack[last]))
    ensures p.caches[c] == [] && p.stack == [] ==> P.CacheGet(p, cpu) == P.Taken(p, None)
  {
    hide P.WellFormed, P.CacheIndex, P.Weight, P.Bag;
    if p.caches[c] == [] && last + 1 == |p.stack| {
      assert p.caches[c] + [p.stack[last]] == [p.stack[last]];
    }
  }

  lemma HitAlone(cfg: Config, g: Shared, fast: bool, t: nat, cpu: nat, c: nat, last: nat)
    requires Fine(cfg, g, CacheGet(fast)) && c == P.CacheIndex(cpu, cfg.cacheCount) && last + 1 == g.caches[c].count
    ensures GetsAlone(cfg, g, fast, t, cpu, g.(caches := g.caches[c := g.caches[c].(count := last)]))
  {
    var p, cache := PoolsOf(cfg, g), g.caches[c];
    assert GoodCache(cfg, cache) && p.caches[c] == cache.slots[..cache.count];
    var g1 := g.(caches := g.caches[c := cache.(count := last)]);
    CacheHit(cfg, g, fast, t, cpu, c, last);
    LeadsFine(cfg, g, CacheGet(fast), t, g1, Claiming(fast, cache.slots[last], Caches));
    ListsSet(cfg, g, c, cache.(count := last), g1);
    hide P.WellFormed, P.CacheIndex, P.CacheGet, Leads, GoodShared, GoodCache;
    CacheGetCases(p, cpu, c, last);
    assert p.caches[c][..last] == cache.slots[..last];
  }

  lemma RefillAlone(cfg: Config, g: Shared, fast: bool, t: nat, cpu: nat, c: nat, last: nat, id: int, filled: Cache)
    requires Fine(cfg, g, CacheGet(fast)) && c == P.CacheIndex(cpu, cfg.cacheCount)
    requires g.caches[c].count == 0 && last + 1 == |g.stack| && id == g.stack[last]
    requires |g.caches[c].slots| > 0 && filled == Cache(1, g.caches[c].slots[0 := id])
    ensures GetsAlone(cfg, g, fast, t, cpu, g.(stack := g.stack[..last], caches := g.caches[c := filled]))
  {
    var p := PoolsOf(cfg, g);
    assert p.caches[c] == [];
    CacheRefill(cfg, g, fast, t, cpu, c, last);
    var g1 := g.(stack := g.stack[..last], caches := g.caches[c := filled]);
    LeadsFine(cfg, g, CacheGet(fast), t, g1, Claiming(fast, id, Caches));
    ListsSet(cfg, g, c, filled, g1);
    hide P.WellFormed, P.CacheIndex, P.CacheGet, Leads, GoodShared, GoodCache;
    CacheGetCases(p, cpu, c, last);
    assert filled.slots[..1] == [id];
  }

  lemma MissAlone(cfg: Config, g: Shared, fast: bool, t: nat, cpu: nat, c: nat)
    requires Fine(cfg, g, CacheGet(fast)) && c == P.CacheIndex(cpu, cfg.cacheCount)
    requires g.caches[c].count == 0 && g.stack == []
    ensures GetsAlone(cfg, g, fast, t, cpu, g)
  {
    var p := PoolsOf(cfg, g);
    assert p.caches[c] == [];
    CacheMiss(cfg, g, fast, t, cpu, c);
    LeadsFine(cfg, g, CacheGet(fast), t, g, StackPop(fast));
    hide P.WellFormed, P.CacheIndex, P.CacheGet, Leads, GoodShared, GoodCache;
    CacheGetCases(p, cpu, c, 0);
  }

  lemma CacheGetAlone(cfg: Config, g: Shared, fast: bool, t: nat, cpu: nat) returns (g1: Shared)
    requires Fine(cfg, g, CacheGet(fast))
    ensures GetsAlone(cfg, g, fast, t, cpu, g1)
  {
    var c := P.CacheIndex(cpu, cfg.cacheCount);
    var cache := g.caches[c];
    assert GoodCache(cfg, cache);
    hide GetsAlone, P.CacheIndex, GoodCache;
    if cache.count > 0 {
      var last: nat := cache.count - 1;
      HitAlone(cfg, g, fast, t, cpu, c, last);
      g1 := g.(caches := g.caches[c := cache.(count := last)]);
    } else if g.stack != [] {
      var last: nat := |g.stack| - 1;
      var id := g.stack[last];
      var filled := Cache(1, cache.slots[0 := id]);
      RefillAlone(cfg, g, fast, t, cpu, c, last, id, filled);
      g1 := g.(stack := g.stack[..last], caches := g.caches[c := filled]);
    } else {
      MissAlone(cfg, g, fast, t, cpu, c);
      g1 := g;
    }
  }

  // ---- Claims, as the sequential model has them ----

  /** Where a thread goes back to after losing a claim. */
  function Back(fast: bool, from: Source): Pc {
    match from
    case Caches => CacheGet(fast)
    case Stack => StackPop(fast)
    case Shards => ShardGet(fast)
  }

  function Marked(g: Shared, id: int, t: nat): Shared
    requires 0 <= id < |g.inUse|
  {
    g.(inUse := g.inUse[id := true], log := g.log + [Claimed(id, t)])
  }

  /** With an ID in hand, the thread claims it if its flag is clear and goes back otherwise. */
  lemma Claims(cfg: Config, g: Shared, pc: Pc, t: nat, fast: bool, g1: Shared, id: int, from: Source)
    requires Leads(cfg, g, pc, t, g1, Claiming(fast, id, from))
    ensures Fine(cfg, g1, Claiming(fast, id, from))
    ensures g1.inUse[id] ==> Leads(cfg, g, pc, t, g1, Back(fast, from))
    ensures !g1.inUse[id] ==>
      && Leads(cfg, g, pc, t, Marked(g1, id, t), RecordAlloc(fast, id))
      && Fine(cfg, Marked(g1, id, t), RecordAlloc(fast, id))
      && PoolsOf(cfg, Marked(g1, id, t)) == P.SetUsed(PoolsOf(cfg, g1), id)
  {
    Then(cfg, g, pc, t, g1, Claiming(fast, id, from), Draw(0));
    hide P.WellFormed, Solo, Leads, GoodCache;
  }

  /** The thread claims what the sequential claim returns, or ends up at pc1 without one. */
  ghost predicate ClaimsAlone(cfg: Config, g: Shared, pc: Pc, fast: bool, t: nat, r: P.Claim, pc1: Pc, g1: Shared) {
    var end := if r.slot.Some? then RecordAlloc(fast, r.slot.value) else pc1;
    && Leads(cfg, g, pc, t, g1, end) && Fine(cfg, g1, end)
    && PoolsOf(cfg, g1) == r.pools && SameCounters(g, g1)
    && g1.log == if r.slot.Some? then g.log + [Claimed(r.slot.value, t)] else g.log
  }

  /** Nothing was there to take. */
  lemma ClaimsNothing(cfg: Config, g: Shared, pc: Pc, fast: bool, t: nat, got: P.Taken, from: Source, none: Pc,
                      g1: Shared, k: nat)
    requires Gets(cfg, g, pc, fast, t, got, from, none, g1) && got.slot.None?
    ensures ClaimsAlone(cfg, g, pc, fast, t, P.Claim(got.pools, None, k), none, g1)
  {
    hide Leads, GoodShared, GoodPc;
  }

  /** What was taken is free. */
  lemma ClaimsNow(cfg: Config, g: Shared, pc: Pc, fast: bool, t: nat, got: P.Taken, from: Source, none: Pc,
                  g1: Shared, k: nat)
    requires Gets(cfg, g, pc, fast, t, got, from, none, g1) && got.slot.Some? && P.WellFormed(got.pools)
    requires 0 <= got.slot.value < |got.pools.inUse| && !got.pools.inUse[got.slot.value]
    ensures |g1.inUse| == |got.pools.inUse|
    ensures ClaimsAlone(cfg, g, pc, fast, t, P.Claim(P.SetUsed(got.pools, got.slot.value), got.slot, k), none,
                        Marked(g1, got.slot.value, t))
  {
    hide Leads, GoodShared, GoodPc, P.WellFormed;
    Claims(cfg, g, pc, t, fast, g1, got.slot.value, from);
  }

  /** What was taken is in use: the thread goes on where it was. */
  lemma ClaimsLater(cfg: Config, g: Shared, fast: bool, t: nat, got: P.Taken, from: Source, none: Pc,
                    g1: Shared, r: P.Claim, g2: Shared)
    requires Gets(cfg, g, Back(fast, from), fast, t, got, from, none, g1) && got.slot.Some?
    requires 0 <= got.slot.value < |got.pools.inUse| && got.pools.inUse[got.slot.value]
    requires ClaimsAlone(cfg, g1, Back(fast, from), fast, t, r, none, g2)
    ensures ClaimsAlone(cfg, g, Back(fast, from), fast, t, r, none, g2)
  {
    hide Leads, GoodShared, GoodPc, P.WellFormed;
    Claims(cfg, g, Back(fast, from), t, fast, g1, got.slot.value, from);
    AndThen(cfg, g, Back(fast, from), t, g1, Back(fast, from), g2,
            if r.slot.Some? then RecordAlloc(fast, r.slot.value) else none);
  }

  /** The thread is well placed wherever it goes back to. */
  lemma BackIsFine(cfg: Config, g: Shared, pc: Pc, fast: bool, t: nat, got: P.Taken, from: Source, none: Pc, g1: Shared)
    requires Gets(cfg, g, pc, fast, t, got, from, none, g1) && got.slot.Some?
    ensures Fine(cfg, g1, Back(fast, from)) && PoolsOf(cfg, g1) == got.pools
  {
    hide Leads, GoodShared, P.WellFormed;
  }

  lemma {:induction false} CachesAlone(cfg: Config, g: Shared, fast: bool, t: nat, cpu: nat -> nat, k: nat)
    returns (g1: Shared)
    requires Fine(cfg, g, CacheGet(fast))
    ensures ClaimsAlone(cfg, g, CacheGet(fast), fast, t, P.ClaimFromCaches(PoolsOf(cfg, g), cpu, k), StackPop(fast), g1)
    decreases P.Weight(PoolsOf(cfg, g))
  {
    var got := P.CacheGet(PoolsOf(cfg, g), cpu(k));
    g1 := CacheGetAlone(cfg, g, fast, t, cpu(k));
    hide P.CacheGet, P.WellFormed, P.Weight, P.Bag, P.GoodClaim, Gets, ClaimsAlone, Fine, GoodShared;
    if got.slot.None? {
      ClaimsNothing(cfg, g, CacheGet(fast), fast, t, got, Caches, StackPop(fast), g1, k + 1);
    } else if got.pools.inUse[got.slot.value] {
      BackIsFine(cfg, g, CacheGet(fast), fast, t, got, Caches, StackPop(fast), g1);
      var g2 := CachesAlone(cfg, g1, fast, t, cpu, k + 1);
      ClaimsLater(cfg, g, fast, t, got, Caches, StackPop(fast), g1, P.ClaimFromCaches(got.pools, cpu, k + 1), g2);
      g1 := g2;
    } else {
      ClaimsNow(cfg, g, CacheGet(fast), fast, t, got, Caches, StackPop(fast), g1, k + 1);
      g1 := Marked(g1, got.slot.value, t);
    }
  }

  lemma StackGetAlone(cfg: Config, g: Shared, fast: bool, t: nat) returns (g1: Shared)
    requires Fine(cfg, g, StackPop(fast))
    ensures Gets(cfg, g, StackPop(fast), fast, t, P.StackGet(PoolsOf(cfg, g)), Stack, ShardGet(fast), g1)
  {
    var start := StackPop(fast);
    Here(cfg, g, start, t);
    Then(cfg, g, start, t, g, start, Draw(0));
    g1 := Act(cfg, g, start, t, Draw(0)).0;
    LeadsFine(cfg, g, start, t, g1, Act(cfg, g, start, t, Draw(0)).1);
    hide P.WellFormed, Solo, Leads, GoodCache, P.Bag;
  }

  lemma {:induction false} StackAlone(cfg: Config, g: Shared, fast: bool, t: nat) returns (g1: Shared)
    requires Fine(cfg, g, StackPop(fast))
    ensures ClaimsAlone(cfg, g, StackPop(fast), fast, t, P.ClaimFromStack(PoolsOf(cfg, g)), ShardGet(fast), g1)
    decreases |PoolsOf(cfg, g).stack|
  {
    var got := P.StackGet(PoolsOf(cfg, g));
    g1 := StackGetAlone(cfg, g, fast, t);
    hide P.StackGet, P.WellFormed, P.Weight, P.Bag, P.GoodClaim, Gets, ClaimsAlone, Fine, GoodShared;
    if got.slot.None? {
      ClaimsNothing(cfg, g, StackPop(fast), fast, t, got, Stack, ShardGet(fast), g1, 0);
    } else if got.pools.inUse[got.slot.value] {
      BackIsFine(cfg, g, StackPop(fast), fast, t, got, Stack, ShardGet(fast), g1);
      var g2 := StackAlone(cfg, g1, fast, t);
      ClaimsLater(cfg, g, fast, t, got, Stack, ShardGet(fast), g1, P.ClaimFromStack(got.pools), g2);
      g1 := g2;
    } else {
      ClaimsNow(cfg, g, StackPop(fast), fast, t, got, Stack, ShardGet(fast), g1, 0);
      g1 := Marked(g1, got.slot.value, t);
    }
  }

  lemma ShardMoves(cfg: Config, g: Shared, fast: bool, t: nat, x: Choice, last: nat)
    requires Fine(cfg, g, ShardGet(fast))
    ensures x.shard >= |g.shards| ==> Act(cfg, g, ShardGet(fast), t, x) == (g, Allocated(None))
    ensures x.shard < |g.shards| && last + 1 == |g.shards[x.shard]| && x.id == g.shards[x.shard][last] ==>
      Act(cfg, g, ShardGet(fast), t, x)
        == (g.(shards := g.shards[x.shard := g.shards[x.shard][..last]]), Claiming(fast, x.id, Shards))
  {
    hide GoodCache;
  }

  lemma ShardHit(cfg: Config, g: Shared, fast: bool, t: nat, draw: nat, j: nat, last: nat, id: int) returns (g1: Shared)
    requires Fine(cfg, g, ShardGet(fast))
    requires P.FindShard(g.shards, draw, 0) == Some(j) && j < |g.shards|
    requires last + 1 == |g.shards[j]| && id == g.shards[j][last]
    ensures Gets(cfg, g, ShardGet(fast), fast, t, P.ShardGet(PoolsOf(cfg, g), draw), Shards, Allocated(None), g1)
  {
    hide P.FindShard, P.WellFormed, BagOf, P.Bag, Solo, Leads, GoodShared, GoodPc, GoodCache, Act;
    var x := Choice(0, WishAllocate, false, j, id);
    Here(cfg, g, ShardGet(fast), t);
    Then(cfg, g, ShardGet(fast), t, g, ShardGet(fast), x);
    ShardMoves(cfg, g, fast, t, x, last);
    g1 := g.(shards := g.shards[j := g.shards[j][..last]]);
    LeadsFine(cfg, g, ShardGet(fast), t, g1, Claiming(fast, id, Shards));
  }

  /** The shard the search finds yields its newest ID. */
  lemma ShardGetAlone(cfg: Config, g: Shared, fast: bool, t: nat, draw: nat) returns (g1: Shared)
    requires Fine(cfg, g, ShardGet(fast))
    ensures Gets(cfg, g, ShardGet(fast), fast, t, P.ShardGet(PoolsOf(cfg, g), draw), Shards, Allocated(None), g1)
  {
    var found := P.FindShard(PoolsOf(cfg, g).shards, draw, 0);
    hide P.FindShard, P.WellFormed, BagOf, P.Bag, Solo, Leads, GoodShared, GoodCache, Act;
    if found.Some? {
      var j: nat := found.value;
      var last: nat := |g.shards[j]| - 1;
      g1 := ShardHit(cfg, g, fast, t, draw, j, last, g.shards[j][last]);
    } else {
      var start, x := ShardGet(fast), Choice(0, WishAllocate, false, |g.shards|, 0);
      Here(cfg, g, start, t);
      Then(cfg, g, start, t, g, start, x);
      ShardMoves(cfg, g, fast, t, x, 0);
      g1 := g;
      LeadsFine(cfg, g, start, t, g1, Allocated(None));
    }
  }

  lemma {:induction false} ShardsAlone(cfg: Config, g: Shared, fast: bool, t: nat, draw: nat -> nat, k: nat)
    returns (g1: Shared)
    requires Fine(cfg, g, ShardGet(fast))
    ensures ClaimsAlone(cfg, g, ShardGet(fast), fast, t, P.ClaimFromShards(PoolsOf(cfg, g), draw, k), Allocated(None), g1)
    decreases |BagOf(PoolsOf(cfg, g).shards)|
  {
    hide P.ShardGet, P.WellFormed, P.Bag, BagOf, P.GoodClaim, IsPow2, Gets, ClaimsAlone, GoodShared, GoodPc;
    var p, none := PoolsOf(cfg, g), Allocated(None);
    var got, next := P.ShardGet(p, draw(k)), k + 1;
    g1 := ShardGetAlone(cfg, g, fast, t, draw(k));
    hide Fine;
    if got.slot.None? {
      ClaimsNothing(cfg, g, ShardGet(fast), fast, t, got, Shards, none, g1, next);
    } else if got.pools.inUse[got.slot.value] {
      BackIsFine(cfg, g, ShardGet(fast), fast, t, got, Shards, none, g1);
      var g2 := ShardsAlone(cfg, g1, fast, t, draw, next);
      ClaimsLater(cfg, g, fast, t, got, Shards, none, g1, P.ClaimFromShards(got.pools, draw, next), g2);
      g1 := g2;
    } else {
      ClaimsNow(cfg, g, ShardGet(fast), fast, t, got, Shards, none, g1, next);
      g1 := Marked(g1, got.slot.value, t);
    }
  }

  // ---- Whole allocations ----

  /** One claim after another that found nothing. */
  lemma ClaimsOn(cfg: Config, g: Shared, pc: Pc, fast: bool, t: nat, r1: P.Claim, pc1: Pc, g1: Shared,
                 r2: P.Claim, pc2: Pc, g2: Shared)
    requires ClaimsAlone(cfg, g, pc, fast, t, r1, pc1, g1) && r1.slot.None?
    requires ClaimsAlone(cfg, g1, pc1, fast, t, r2, pc2, g2)
    ensures ClaimsAlone(cfg, g, pc, fast, t, r2, pc2, g2)
  {
    hide Leads, GoodShared, GoodPc, P.WellFormed;
    AndThen(cfg, g, pc, t, g1, pc1, g2, if r2.slot.Some? then RecordAlloc(fast, r2.slot.value) else pc2);
  }

  lemma SharedAlone(cfg: Config, g: Shared, fast: bool, t: nat, start: nat -> nat) returns (g1: Shared)
    requires Fine(cfg, g, StackPop(fast))
    ensures ClaimsAlone(cfg, g, StackPop(fast), fast, t, C.AcquireShared(PoolsOf(cfg, g), start), Allocated(None), g1)
  {
    hide P.WellFormed, P.Bag, P.GoodClaim, P.Exact, P.ClaimFromStack, P.ClaimFromShards, P.Sized, IsPow2;
    hide GoodShared, Leads;
    var s := P.ClaimFromStack(PoolsOf(cfg, g));
    g1 := StackAlone(cfg, g, fast, t);
    if s.slot.None? {
      var g2 := ShardsAlone(cfg, g1, fast, t, start, 0);
      var h := P.ClaimFromShards(s.pools, start, 0);
      ClaimsOn(cfg, g, StackPop(fast), fast, t, s, ShardGet(fast), g1, h, Allocated(None), g2);
      g1 := g2;
    }
  }

  /** The first step of an allocation that is let through. */
  lemma AllocationStarts(cfg: Config, g: Shared, fast: bool, t: nat)
    requires Fine(cfg, g, Idle)
    ensures var pc1 := if cfg.cacheCount == 0 then StackPop(fast) else CacheGet(fast);
      Leads(cfg, g, Idle, t, g, pc1) && Fine(cfg, g, pc1)
  {
    Here(cfg, g, Idle, t);
    hide Leads, Solo, GoodShared;
    Then(cfg, g, Idle, t, g, Idle, Choice(0, if fast then WishAllocateFast else WishAllocate, false, 0, 0));
  }

  lemma AcquireAlone(cfg: Config, g: Shared, fast: bool, t: nat, cpu: nat -> nat, start: nat -> nat) returns (g1: Shared)
    requires Fine(cfg, g, Idle)
    ensures ClaimsAlone(cfg, g, Idle, fast, t, C.Acquire(PoolsOf(cfg, g), cpu, start), Allocated(None), g1)
  {
    assert |g.caches| == cfg.cacheCount;
    hide P.WellFormed, P.Bag, P.GoodClaim, P.Exact, C.AcquireShared, P.Sized, IsPow2, GoodShared, Leads;
    AllocationStarts(cfg, g, fast, t);
    var p := PoolsOf(cfg, g);
    var c := P.ClaimFromCaches(p, cpu, 0);
    if cfg.cacheCount == 0 {
      assert c == P.Claim(p, None, 0);
      g1 := SharedAlone(cfg, g, fast, t, start);
    } else {
      g1 := CachesAlone(cfg, g, fast, t, cpu, 0);
      if c.slot.None? {
        var g2 := SharedAlone(cfg, g1, fast, t, start);
        var r := C.AcquireShared(c.pools, start);
        ClaimsOn(cfg, g, CacheGet(fast), fast, t, c, StackPop(fast), g1, r, Allocated(None), g2);
        g1 := g2;
      }
    }
    StartsThen(cfg, g, fast, t, C.Acquire(p, cpu, start), g1);
  }

  lemma StartsThen(cfg: Config, g: Shared, fast: bool, t: nat, r: P.Claim, g1: Shared)
    requires Fine(cfg, g, Idle)
    requires var pc1 := if cfg.cacheCount == 0 then StackPop(fast) else CacheGet(fast);
      ClaimsAlone(cfg, g, pc1, fast, t, r, Allocated(None), g1)
    ensures ClaimsAlone(cfg, g, Idle, fast, t, r, Allocated(None), g1)
  {
    hide Leads, GoodShared, GoodPc, P.WellFormed;
    AllocationStarts(cfg, g, fast, t);
    AndThen(cfg, g, Idle, t, g, if cfg.cacheCount == 0 then StackPop(fast) else CacheGet(fast), g1,
            if r.slot.Some? then RecordAlloc(fast, r.slot.value) else Allocated(None));
  }

  /** The counters after one more success on this CPU. */
  ghost predicate Counts(g: Shared, g1: Shared, fast: bool, at: nat, success: bool)
    requires |g.fastAllocations| == |g.allocations| && |g.allocations| > 0
  {
    var i := P.CacheIndex(at, |g.allocations|);
    && g1.fastDeallocations == g.fastDeallocations
    && g1.fastAllocations
         == (if success && fast then g.fastAllocations[i := g.fastAllocations[i] + 1] else g.fastAllocations)
    && g1.allocations == (if success && !fast then g.allocations[i := g.allocations[i] + 1] else g.allocations)
  }

  lemma RecordMoves(cfg: Config, g: Shared, fast: bool, t: nat, id: int, at: nat, g1: Shared)
    requires Fine(cfg, g, RecordAlloc(fast, id))
    requires g1 == Act(cfg, g, RecordAlloc(fast, id), t, Draw(at)).0
    ensures Act(cfg, g, RecordAlloc(fast, id), t, Draw(at)).1 == Allocated(Some(id))
    ensures Fine(cfg, g1, Allocated(Some(id))) && PoolsOf(cfg, g1) == PoolsOf(cfg, g)
    ensures g1.log == g.log && Counts(g, g1, fast, at, true)
  {
    hide GoodCache, P.WellFormed, P.CacheIndex;
  }

  lemma CountsOn(g: Shared, g1: Shared, g2: Shared, fast: bool, at: nat)
    requires |g.fastAllocations| == |g.allocations| && |g.allocations| > 0
    requires SameCounters(g, g1) && Counts(g1, g2, fast, at, true)
    ensures Counts(g, g2, fast, at, true)
  {
    hide P.CacheIndex;
  }

  /** AllocateFast and Allocate, let through and not interrupted: for any draws the thread gets
      to the answer of the sequential call, with the pools that call leaves; it has logged
      the claim and counted it. */
  lemma AllocateAlone(cfg: Config, g: Shared, fast: bool, t: nat, cpu: nat -> nat, start: nat -> nat, at: nat)
    returns (g1: Shared)
    requires Fine(cfg, g, Idle)
    ensures var r := C.Acquire(PoolsOf(cfg, g), cpu, start);
      && Leads(cfg, g, Idle, t, g1, Allocated(r.slot)) && Fine(cfg, g1, Allocated(r.slot))
      && PoolsOf(cfg, g1) == r.pools
      && g1.log == (if r.slot.Some? then g.log + [Claimed(r.slot.value, t)] else g.log)
      && Counts(g, g1, fast, at, r.slot.Some?)
  {
    assert |g.fastAllocations| == |g.allocations| && |g.allocations| > 0;
    hide C.Acquire, P.WellFormed, P.Bag, P.GoodClaim, P.Exact, P.Sized, C.EmptyHanded, GoodShared, GoodPc, Leads, Act;
    var r := C.Acquire(PoolsOf(cfg, g), cpu, start);
    g1 := AcquireAlone(cfg, g, fast, t, cpu, start);
    if r.slot.Some? {
      var pc := RecordAlloc(fast, r.slot.value);
      Then(cfg, g, Idle, t, g1, pc, Draw(at));
      var g2 := Act(cfg, g1, pc, t, Draw(at)).0;
      RecordMoves(cfg, g1, fast, t, r.slot.value, at, g2);
      CountsOn(g, g1, g2, fast, at);
      g1 := g2;
    }
  }

  /** A refused call answers at once and touches nothing. */
  lemma RefusedAlone(cfg: Config, g: Shared, t: nat, x: Choice)
    requires Fine(cfg, g, Idle) && x.refused && !x.wish.WishDeallocateFast?
    ensures Act(cfg, g, Idle, t, x) == (g, Allocated(None))
  {
  }

  // ---- Whole frees ----

  lemma ReturnMoves(cfg: Config, g: Shared, t: nat, c: nat, id: int, at: Put, x: Choice)
    requires Fine(cfg, g, ReturnPut(c, id, at))
    ensures GoodCache(cfg, g.caches[c])
    ensures var (cache, result) := PutStep(g.caches[c], id, at);
      Act(cfg, g, ReturnPut(c, id, at), t, x)
        == (g.(caches := g.caches[c := cache]),
            match result
            case Going(next) => ReturnPut(c, id, next)
            case Published => RecordFree(id)
            case Full => StackPush(id))
  {
  }

  /** putInternal on a cache with room, not interrupted. */
  lemma ReturnStores(cfg: Config, g: Shared, pc: Pc, t: nat, g1: Shared, c: nat, id: int, n: nat,
                     stored: Cache, put: Cache)
    requires Leads(cfg, g, pc, t, g1, ReturnPut(c, id, Load)) && c < |g1.caches|
    requires g1.caches[c].count == n < 16 && |g1.caches[c].slots| == 16
    requires stored == Cache(n, g1.caches[c].slots[n := id]) && put == stored.(count := n + 1)
    ensures Leads(cfg, g, pc, t, g1.(caches := g1.caches[c := put]), RecordFree(id))
  {
    hide Fine, Act, Solo, Leads;
    var x, g2 := Draw(0), g1.(caches := g1.caches[c := stored]);
    assert g1.caches[c := g1.caches[c]] == g1.caches && g2.caches[c := put] == g1.caches[c := put];
    Then(cfg, g, pc, t, g1, ReturnPut(c, id, Load), x);
    ReturnMoves(cfg, g1, t, c, id, Load, x);
    Then(cfg, g, pc, t, g1, ReturnPut(c, id, Store(n)), x);
    ReturnMoves(cfg, g1, t, c, id, Store(n), x);
    Then(cfg, g, pc, t, g2, ReturnPut(c, id, Publish(n)), x);
    ReturnMoves(cfg, g2, t, c, id, Publish(n), x);
  }

  /** The thread has put the ID where the sequential release puts it. */
  ghost predicate PutsAlone(cfg: Config, g: Shared, pc: Pc, t: nat, g1: Shared, id: int, draw: nat)
    requires Fine(cfg, g, pc) && InUseRange(cfg, id)
  {
    var p := PoolsOf(cfg, g);
    var b := C.PutBack(p.caches, p.stack, p.shards, |p.inUse|, id, draw, cfg.alignedSize);
    && Leads(cfg, g, pc, t, g1, RecordFree(id)) && Fine(cfg, g1, RecordFree(id))
    && PoolsOf(cfg, g1) == P.Pools(p.inUse, b.0, b.1, b.2)
    && g1.log == g.log && SameCounters(g, g1)
  }

  lemma PutsInCache(cfg: Config, g: Shared, t: nat, c: nat, id: int, draw: nat, n: nat) returns (g1: Shared)
    requires Fine(cfg, g, ReturnPut(c, id, Load)) && c == P.CacheIndex(draw, cfg.cacheCount) && g.caches[c].count == n < 16
    ensures PutsAlone(cfg, g, ReturnPut(c, id, Load), t, g1, id, draw)
  {
    hide P.CacheIndex, P.WellFormed, Solo, Leads, Act, IndexAtPut;
    var start, p := ReturnPut(c, id, Load), PoolsOf(cfg, g);
    assert p.caches[c] == g.caches[c].slots[..n];
    Here(cfg, g, start, t);
    assert GoodCache(cfg, g.caches[c]);
    var stored := Cache(n, g.caches[c].slots[n := id]);
    var put := stored.(count := n + 1);
    ReturnStores(cfg, g, start, t, g, c, id, n, stored, put);
    g1 := g.(caches := g.caches[c := put]);
    LeadsFine(cfg, g, start, t, g1, RecordFree(id));
    ListsSet(cfg, g, c, put, g1);
    hide GoodShared, GoodCache;
    assert p.caches[c] + [id] == put.slots[..n + 1];
    C.PutBackCases(p.caches, p.stack, p.shards, |p.inUse|, id, draw, cfg.alignedSize);
    hide C.PutBack;
  }

  lemma PushMoves(cfg: Config, g: Shared, t: nat, id: int, x: Choice)
    requires Fine(cfg, g, StackPush(id)) || Fine(cfg, g, ShardPut(id))
    ensures Fine(cfg, g, StackPush(id)) && Fine(cfg, g, ShardPut(id))
    ensures Act(cfg, g, StackPush(id), t, x)
         == if |g.stack| < cfg.capacity then (g.(stack := g.stack + [id]), RecordFree(id)) else (g, ShardPut(id))
    ensures var home := IndexAtPut(id, |g.shards|, cfg.alignedSize);
      && home < |g.shards|
      && Act(cfg, g, ShardPut(id), t, x) == (g.(shards := g.shards[home := g.shards[home] + [id]]), RecordFree(id))
  {
    WholeRows(cfg.rows);
    hide GoodCache, IndexAtPut;
  }

  /** With no cache or a full one, the ID goes to the stack, or to its home shard. */
  lemma PutsElsewhere(cfg: Config, g: Shared, pc: Pc, t: nat, id: int, draw: nat) returns (g1: Shared)
    requires Leads(cfg, g, pc, t, g, StackPush(id)) && Fine(cfg, g, StackPush(id)) && Fine(cfg, g, pc)
    requires cfg.cacheCount > 0 ==> g.caches[P.CacheIndex(draw, cfg.cacheCount)].count == 16
    ensures PutsAlone(cfg, g, pc, t, g1, id, draw)
  {
    hide P.CacheIndex, P.WellFormed, Solo, Leads, Act, IndexAtPut;
    var p, x := PoolsOf(cfg, g), Draw(0);
    Then(cfg, g, pc, t, g, StackPush(id), x);
    PushMoves(cfg, g, t, id, x);
    if |g.stack| < cfg.capacity {
      g1 := g.(stack := g.stack + [id]);
    } else {
      Then(cfg, g, pc, t, g, ShardPut(id), x);
      var home := IndexAtPut(id, |g.shards|, cfg.alignedSize);
      g1 := g.(shards := g.shards[home := g.shards[home] + [id]]);
    }
    LeadsFine(cfg, g, pc, t, g1, RecordFree(id));
    C.PutBackCases(p.caches, p.stack, p.shards, |p.inUse|, id, draw, cfg.alignedSize);
    hide C.PutBack, GoodCache;
  }

  lemma PutsBack(cfg: Config, g: Shared, pc: Pc, t: nat, id: int, draw: nat) returns (g1: Shared)
    requires Fine(cfg, g, pc) && InUseRange(cfg, id)
    requires pc == if cfg.cacheCount == 0 then StackPush(id) else ReturnPut(P.CacheIndex(draw, cfg.cacheCount), id, Load)
    ensures PutsAlone(cfg, g, pc, t, g1, id, draw)
  {
    hide P.CacheIndex, PutsAlone, Solo, Leads, Act;
    Here(cfg, g, pc, t);
    if cfg.cacheCount == 0 {
      g1 := PutsElsewhere(cfg, g, pc, t, id, draw);
    } else {
      var c := pc.c;
      ReturnMoves(cfg, g, t, c, id, Load, Draw(0));
      if g.caches[c].count < 16 {
        g1 := PutsInCache(cfg, g, t, c, id, draw, g.caches[c].count);
      } else {
        assert g.caches[c := g.caches[c]] == g.caches;
        Then(cfg, g, pc, t, g, pc, Draw(0));
        g1 := PutsElsewhere(cfg, g, pc, t, id, draw);
      }
    }
  }

  function Cleared(g: Shared, id: int, t: nat): Shared
    requires 0 <= id < |g.inUse|
  {
    g.(inUse := g.inUse[id := false], log := g.log + [Released(id, t)])
  }

  lemma FreeStarts(cfg: Config, g: Shared, t: nat, id: int, draw: nat)
    requires Fine(cfg, g, Idle)
    ensures !(InUseRange(cfg, id) && g.inUse[id]) ==> Leads(cfg, g, Idle, t, g, Freed(false))
    ensures InUseRange(cfg, id) && g.inUse[id] ==>
      var pc1 := if cfg.cacheCount == 0 then StackPush(id) else ReturnPut(P.CacheIndex(draw, cfg.cacheCount), id, Load);
      && Leads(cfg, g, Idle, t, Cleared(g, id, t), pc1) && Fine(cfg, Cleared(g, id, t), pc1)
      && PoolsOf(cfg, Cleared(g, id, t)) == PoolsOf(cfg, g).(inUse := g.inUse[id := false])
  {
    hide P.CacheIndex, P.WellFormed, GoodCache, Solo, Leads;
    Here(cfg, g, Idle, t);
    Then(cfg, g, Idle, t, g, Idle, Choice(0, WishDeallocateFast, false, 0, id));
    if InUseRange(cfg, id) {
      Then(cfg, g, Idle, t, g, FreeCas(id), Draw(draw));
    }
  }

  lemma PutsRelease(cfg: Config, g: Shared, pc: Pc, t: nat, g1: Shared, g2: Shared, id: int, draw: nat)
    requires ValidConfig(cfg) && GoodShared(cfg, g) && InUseRange(cfg, id)
    requires Fine(cfg, g1, pc) && PutsAlone(cfg, g1, pc, t, g2, id, draw)
    requires PoolsOf(cfg, g1) == PoolsOf(cfg, g).(inUse := g.inUse[id := false])
    ensures Leads(cfg, g1, pc, t, g2, RecordFree(id)) && Fine(cfg, g2, RecordFree(id))
    ensures PoolsOf(cfg, g2) == C.Release(PoolsOf(cfg, g), id, draw, cfg.alignedSize)
    ensures g2.log == g1.log && SameCounters(g1, g2)
  {
    hide P.WellFormed, P.Bag, C.PutBack, Leads, GoodCache;
  }

  lemma RecordFreeMoves(cfg: Config, g: Shared, t: nat, id: int, at: nat, g1: Shared)
    requires Fine(cfg, g, RecordFree(id))
    requires g1 == Act(cfg, g, RecordFree(id), t, Draw(at)).0
    ensures Act(cfg, g, RecordFree(id), t, Draw(at)).1 == Freed(true)
    ensures Fine(cfg, g1, Freed(true)) && PoolsOf(cfg, g1) == PoolsOf(cfg, g) && g1.log == g.log
    ensures CountsFree(g, g1, at)
  {
    hide GoodCache, P.WellFormed, P.CacheIndex;
  }

  /** The counters after one more deallocation on this CPU. */
  ghost predicate CountsFree(g: Shared, g1: Shared, at: nat)
    requires |g.fastDeallocations| > 0
  {
    var i := P.CacheIndex(at, |g.fastDeallocations|);
    && g1.fastAllocations == g.fastAllocations && g1.allocations == g.allocations
    && g1.fastDeallocations == g.fastDeallocations[i := g.fastDeallocations[i] + 1]
  }

  /** Up to the record: the flag is cleared and the ID put back. */
  lemma ReleaseAlone(cfg: Config, g: Shared, t: nat, id: int, draw: nat) returns (g1: Shared)
    requires Fine(cfg, g, Idle) && 0 <= id < cfg.capacity && g.inUse[id]
    ensures Leads(cfg, g, Idle, t, g1, RecordFree(id)) && Fine(cfg, g1, RecordFree(id))
    ensures PoolsOf(cfg, g1) == C.Release(PoolsOf(cfg, g), id, draw, cfg.alignedSize)
    ensures g1.log == g.log + [Released(id, t)] && SameCounters(g, g1)
  {
    assert |g.inUse| == cfg.capacity;
    FreeStarts(cfg, g, t, id, draw);
    hide GoodShared, GoodPc, P.WellFormed, P.Bag, C.Release, PutsAlone, P.CacheIndex, Leads, Act;
    var pc := if cfg.cacheCount == 0 then StackPush(id) else ReturnPut(P.CacheIndex(draw, cfg.cacheCount), id, Load);
    g1 := PutsBack(cfg, Cleared(g, id, t), pc, t, id, draw);
    PutsRelease(cfg, g, pc, t, Cleared(g, id, t), g1, id, draw);
    AndThen(cfg, g, Idle, t, Cleared(g, id, t), pc, g1, RecordFree(id));
  }

  lemma CountsFreeOn(g: Shared, g1: Shared, g2: Shared, at: nat)
    requires |g.fastDeallocations| > 0 && SameCounters(g, g1) && CountsFree(g1, g2, at)
    ensures CountsFree(g, g2, at)
  {
    hide P.CacheIndex;
  }

  /** DeallocateFast, not interrupted: out of range or not in use it is refused and touches
      nothing; otherwise the pools are those of the sequential release, and the thread has
      logged the free and counted it. */
  lemma DeallocateFastAlone(cfg: Config, g: Shared, t: nat, id: int, draw: nat, at: nat) returns (g1: Shared)
    requires Fine(cfg, g, Idle)
    ensures !(0 <= id < cfg.capacity && g.inUse[id]) ==> g1 == g && Leads(cfg, g, Idle, t, g, Freed(false))
    ensures 0 <= id < cfg.capacity && g.inUse[id] ==>
      && Leads(cfg, g, Idle, t, g1, Freed(true)) && Fine(cfg, g1, Freed(true))
      && PoolsOf(cfg, g1) == C.Release(PoolsOf(cfg, g), id, draw, cfg.alignedSize)
      && g1.log == g.log + [Released(id, t)] && CountsFree(g, g1, at)
  {
    assert |g.inUse| == cfg.capacity && |g.fastDeallocations| > 0;
    hide GoodShared, GoodPc, P.WellFormed, P.Bag, C.Release, CountsFree, SameCounters, Leads, Act;
    g1 := g;
    if InUseRange(cfg, id) && g.inUse[id] {
      var g2 := ReleaseAlone(cfg, g, t, id, draw);
      Then(cfg, g, Idle, t, g2, RecordFree(id), Draw(at));
      g1 := Act(cfg, g2, RecordFree(id), t, Draw(at)).0;
      RecordFreeMoves(cfg, g2, t, id, at, g1);
      CountsFreeOn(g, g2, g1, at);
    } else {
      FreeStarts(cfg, g, t, id, draw);
    }
  }
}
