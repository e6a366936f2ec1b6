/** Interleavings with caching off. Every free slab is in exactly one place: on the stack, in a
    shard, or in the hand of a thread. So the first compare-and-swap always claims, the stack
    never refuses, and nothing is ever pushed to a shard after construction. */
module UncachedInterleaving {
  import opened B = Bags
  import opened Interleaving
  import opened InterleavedListing
  import P = Pools

  // ---- Where a slab can be ----

  ghost predicate Carries(pc: Pc, id: int) {
    (pc.Claiming? || pc.StackPush? || pc.ShardPut?) && pc.id == id
  }

  ghost function Carried(pc: Pc, id: int): nat {
    if Carries(pc, id) then 1 else 0
  }

  /** How many threads carry the slab. */
  ghost function Hands(threads: seq<Pc>, id: int): nat {
    if threads == [] then 0 else Carried(threads[0], id) + Hands(threads[1..], id)
  }

  lemma {:induction false} HandsSet(threads: seq<Pc>, t: nat, pc: Pc, id: int)
    requires t < |threads|
    ensures Hands(threads[t := pc], id) + Carried(threads[t], id) == Hands(threads, id) + Carried(pc, id)
  {
    var u, rest := threads[t := pc], threads[1..];
    hide Carried;
    if t == 0 {
      assert u[1..] == rest;
    } else {
      HandsSet(rest, t - 1, pc, id);
      assert u[1..] == rest[t - 1 := pc];
    }
  }

  lemma {:induction false} InHands(threads: seq<Pc>, t: nat, id: int)
    requires t < |threads|
    ensures Carried(threads[t], id) <= Hands(threads, id)
  {
    hide Carried;
    if t > 0 {
      InHands(threads[1..], t - 1, id);
    }
  }

  lemma {:induction false} EmptyHands(threads: seq<Pc>, id: int)
    requires forall t :: 0 <= t < |threads| ==> threads[t].Idle?
    ensures Hands(threads, id) == 0
  {
    if threads != [] {
      EmptyHands(threads[1..], id);
    }
  }

  /** How often the stack and the shards list the slab. */
  ghost function Pooled(g: Shared, id: int): nat {
    multiset(g.stack)[id] + BagOf(g.shards)[id]
  }

  ghost function Free(u: seq<bool>, id: int): nat {
    if 0 <= id < |u| && !u[id] then 1 else 0
  }

  // ---- One step ----

  /** A free slab is in exactly one place, anything else in none. */
  ghost predicate Placed(s: State, id: int) {
    Free(s.shared.inUse, id) == Pooled(s.shared, id) + Hands(s.threads, id)
  }

  /** This is so of every slab, and no thread is about to push to a shard. */
  ghost predicate Exactly(s: State) {
    && (forall id: int :: Placed(s, id))
    && forall t :: 0 <= t < |s.threads| ==> !s.threads[t].ShardPut?
  }

  /** A thread that carries a slab will claim it, or find room on the stack. */
  ghost predicate Ready(cfg: Config, g: Shared, pc: Pc) {
    && (pc.Claiming? ==> 0 <= pc.id < |g.inUse| && !g.inUse[pc.id])
    && (pc.StackPush? ==> |g.stack| < cfg.capacity)
    && !pc.ShardPut?
  }

  lemma ExactlyMeansReady(cfg: Config, s: State, t: nat)
    requires Good(cfg, s) && Exactly(s) && t < |s.threads|
    ensures Ready(cfg, s.shared, s.threads[t])
  {
    var g, pc := s.shared, s.threads[t];
    assert |g.inUse| == cfg.capacity;
    hide GoodShared, GoodThreads, BagOf, Hands;
    if pc.Claiming? || pc.StackPush? {
      InHands(s.threads, t, pc.id);
      assert Placed(s, pc.id);
      if pc.StackPush? {
        StackHasRoom(s, pc.id);
      }
    }
  }

  /** A carried slab is free and not on the stack, and all that is there is free. */
  lemma StackHasRoom(s: State, id: int)
    requires Exactly(s) && Hands(s.threads, id) > 0
    ensures |s.shared.stack| < |s.shared.inUse|
  {
    var g := s.shared;
    hide BagOf, Hands;
    assert Placed(s, id);
    forall x: int ensures (multiset(g.stack) + multiset{id})[x] <= FreeBag(g.inUse)[x] {
      assert Placed(s, x);
      FreeBagCounts(g.inUse, x);
    }
    SubBag(multiset(g.stack) + multiset{id}, FreeBag(g.inUse));
    FreeCountBound(g.inUse);
  }

  /** What a step does to one slab: freed, it gets a place; claimed, it loses its place;
      otherwise it moves at most from one place to another. */
  ghost predicate Moves(g: Shared, pc: Pc, r: (Shared, Pc), id: int) {
    && Free(r.0.inUse, id) + Pooled(g, id) + Carried(pc, id) == Free(g.inUse, id) + Pooled(r.0, id) + Carried(r.1, id)
    && !r.1.ShardPut?
  }

  lemma StackPopMoves(cfg: Config, g: Shared, pc: Pc, t: nat, x: Choice, id: int)
    requires ValidConfig(cfg) && GoodShared(cfg, g) && GoodPc(cfg, pc) && pc.StackPop?
    ensures Moves(g, pc, Act(cfg, g, pc, t, x), id)
  {
    hide GoodCache, BagOf, P.InRange;
    if g.stack != [] {
      B.StackPop(g.stack);
    }
  }

  lemma ShardGetMoves(cfg: Config, g: Shared, pc: Pc, t: nat, x: Choice, id: int)
    requires ValidConfig(cfg) && GoodShared(cfg, g) && GoodPc(cfg, pc) && pc.ShardGet? && PopsNewest(g, pc, x)
    ensures Moves(g, pc, Act(cfg, g, pc, t, x), id)
  {
    hide GoodCache, BagOf;
    if x.shard < |g.shards| {
      assert P.InRange(g.shards[x.shard], cfg.capacity);
      BagOfPop(g.shards, x.shard);
    }
    hide P.InRange;
  }

  lemma FlagMoves(cfg: Config, g: Shared, pc: Pc, t: nat, x: Choice, id: int)
    requires ValidConfig(cfg) && GoodShared(cfg, g) && GoodPc(cfg, pc) && cfg.cacheCount == 0 && Ready(cfg, g, pc)
    requires pc.Claiming? || pc.FreeCas?
    ensures Moves(g, pc, Act(cfg, g, pc, t, x), id)
  {
    hide GoodCache, BagOf, P.InRange;
  }

  lemma OthersMove(cfg: Config, g: Shared, pc: Pc, t: nat, x: Choice, id: int)
    requires ValidConfig(cfg) && GoodShared(cfg, g) && GoodPc(cfg, pc) && cfg.cacheCount == 0 && Ready(cfg, g, pc)
    requires !pc.StackPop? && !pc.ShardGet? && !pc.Claiming? && !pc.FreeCas?
    ensures Moves(g, pc, Act(cfg, g, pc, t, x), id)
  {
    hide GoodCache, BagOf, P.InRange, Increment, Free;
  }

  lemma ActMoves(cfg: Config, g: Shared, pc: Pc, t: nat, x: Choice, id: int)
    requires ValidConfig(cfg) && GoodShared(cfg, g) && GoodPc(cfg, pc) && cfg.cacheCount == 0
    requires Ready(cfg, g, pc) && PopsNewest(g, pc, x)
    ensures Moves(g, pc, Act(cfg, g, pc, t, x), id)
  {
    hide Act, Moves, Ready, PopsNewest, GoodShared, GoodPc;
    match pc
    case StackPop(_) => StackPopMoves(cfg, g, pc, t, x, id);
    case ShardGet(_) => ShardGetMoves(cfg, g, pc, t, x, id);
    case Claiming(_, _, _) => FlagMoves(cfg, g, pc, t, x, id);
    case FreeCas(_) => FlagMoves(cfg, g, pc, t, x, id);
    case _ => OthersMove(cfg, g, pc, t, x, id);
  }

  lemma StepIsExact(cfg: Config, s: State, turn: Turn)
    requires ValidConfig(cfg) && Good(cfg, s) && cfg.cacheCount == 0 && Exactly(s) && LifoTurn(s, turn)
    ensures Exactly(Step(cfg, s, turn))
  {
    if turn.thread < |s.threads| {
      var t, x := turn.thread, turn.choice;
      var g, pc := s.shared, s.threads[t];
      assert GoodPc(cfg, pc);
      ExactlyMeansReady(cfg, s, t);
      hide Act, Ready, GoodShared, GoodPc, Free, Pooled, Hands, Carried, PopsNewest;
      var s1 := Step(cfg, s, turn);
      forall id: int ensures Placed(s1, id) {
        assert Placed(s, id);
        ActMoves(cfg, g, pc, t, x, id);
        HandsSet(s.threads, t, s1.threads[t], id);
      }
      ActMoves(cfg, g, pc, t, x, 0);
    }
  }

  // ---- Every interleaving ----

  /** Some turn of the schedule pushed to a shard. */
  ghost predicate EverPushed(cfg: Config, n: nat, schedule: seq<Turn>)
    requires ValidConfig(cfg)
  {
    schedule != []
    && var k := |schedule| - 1;
       var s := Run(cfg, n, schedule[..k]);
       || EverPushed(cfg, n, schedule[..k])
       || (schedule[k].thread < |s.threads| && s.threads[schedule[k].thread].ShardPut?)
  }

  /** As long as nothing was pushed to a shard, every shard pop takes the newest entry: the
      head of a list that only shrinks never comes back. */
  ghost predicate LifoUntilPushed(cfg: Config, n: nat, schedule: seq<Turn>)
    requires ValidConfig(cfg)
  {
    schedule == []
    || var k := |schedule| - 1;
       && LifoUntilPushed(cfg, n, schedule[..k])
       && (EverPushed(cfg, n, schedule[..k]) || LifoTurn(Run(cfg, n, schedule[..k]), schedule[k]))
  }

  lemma StartIsExact(cfg: Config, n: nat)
    requires ValidConfig(cfg)
    ensures Exactly(Start(cfg, n))
  {
    P.DistributedBag(cfg.capacity, cfg.rows, cfg.alignedSize);
    var s := Start(cfg, n);
    hide P.Distributed, BagOf, FreeBag;
    forall id: int ensures Placed(s, id) {
      FreeBagCounts(s.shared.inUse, id);
      EmptyHands(s.threads, id);
    }
  }

  lemma {:induction false} RunIsExact(cfg: Config, n: nat, schedule: seq<Turn>)
    requires ValidConfig(cfg) && cfg.cacheCount == 0 && LifoUntilPushed(cfg, n, schedule)
    ensures Exactly(Run(cfg, n, schedule)) && Lifo(cfg, n, schedule) && !EverPushed(cfg, n, schedule)
  {
    hide LifoTurn, Good, Step, Start, Placed;
    if schedule == [] {
      StartIsExact(cfg, n);
    } else {
      var k := |schedule| - 1;
      RunIsExact(cfg, n, schedule[..k]);
      StepIsExact(cfg, Run(cfg, n, schedule[..k]), schedule[k]);
    }
  }

  /** In every interleaving without caches every free slab is in exactly one place and a slab
      in use in none, every thread that carries a slab is about to claim it or finds room on
      the stack, and every shard pop takes the newest entry: nothing is pushed to a shard. */
  lemma UncachedIsExact(cfg: Config, n: nat, schedule: seq<Turn>)
    requires ValidConfig(cfg) && cfg.cacheCount == 0 && LifoUntilPushed(cfg, n, schedule)
    ensures var s := Run(cfg, n, schedule);
      && (forall id: int :: Placed(s, id))
      && (forall t :: 0 <= t < n ==> Ready(cfg, s.shared, s.threads[t]))
    ensures Lifo(cfg, n, schedule) && !EverPushed(cfg, n, schedule)
  {
    RunIsExact(cfg, n, schedule);
    var s := Run(cfg, n, schedule);
    hide Run, Lifo, EverPushed, Good, Ready, Placed;
    forall t | 0 <= t < n ensures Ready(cfg, s.shared, s.threads[t]) {
      ExactlyMeansReady(cfg, s, t);
    }
  }
}
