/** The three free pools as values: per-CPU caches, the free stack and the coloured
    shards, beside the in-use flags that alone decide who owns a slab. The pools may
    hold duplicates and slabs already in use. The CPU number and the random shard
    start are drawn anew on every step, so they are passed as sequences of draws. */
module Pools {
  import opened Bags
  import opened Bits
  import opened Layout
  import opened Wrappers

  const CACHE_SIZE: nat := 16

  /** No caches at all stands for per-CPU caching switched off. */
  datatype Pools = Pools(inUse: seq<bool>, caches: seq<seq<int>>, stack: seq<int>, shards: seq<seq<int>>)

  predicate InRange(s: seq<int>, n: nat) {
    forall i :: 0 <= i < |s| ==> 0 <= s[i] < n
  }

  predicate WellFormed(p: Pools) {
    && 0 < |p.inUse| <= MAX_INT32
    && |p.stack| <= |p.inUse| && InRange(p.stack, |p.inUse|)
    && (forall c :: 0 <= c < |p.caches| ==> |p.caches[c]| <= CACHE_SIZE && InRange(p.caches[c], |p.inUse|))
    && COLOR_COUNT <= |p.shards| && |p.shards| % COLOR_COUNT == 0
    && (forall j :: 0 <= j < |p.shards| ==> InRange(p.shards[j], |p.inUse|))
  }

  /** The row and cache counts are powers of two, as the constructor makes them. */
  ghost predicate Sized(p: Pools) {
    && IsPow2(|p.shards| / COLOR_COUNT)
    && (p.caches != [] ==> IsPow2(|p.caches|))
  }

  ghost function Bag(p: Pools): multiset<int> {
    BagOf(p.caches) + multiset(p.stack) + BagOf(p.shards)
  }

  /** Every free slab is listed in some pool. */
  ghost predicate Covers(p: Pools) {
    FreeBag(p.inUse) <= Bag(p)
  }

  /** Every free slab is listed exactly once, and no slab in use is listed. */
  ghost predicate Exact(p: Pools) {
    FreeBag(p.inUse) == Bag(p)
  }

  ghost function Weight(p: Pools): nat {
    2 * |p.stack| + |BagOf(p.caches)|
  }

  // ---- The constructor's pools ----

  /** The shards after pushing slabs 0..n-1 in order. */
  function Distributed(n: nat, rows: nat, alignedSize: nat): (r: seq<seq<int>>)
    requires n <= MAX_INT32 && rows > 0
    ensures |r| == rows * COLOR_COUNT
    ensures forall j :: 0 <= j < |r| ==> InRange(r[j], n)
  {
    WholeRows(rows);
    if n == 0 then Repeat([], rows * COLOR_COUNT)
    else
      var before := Distributed(n - 1, rows, alignedSize);
      var home := IndexAtPut(n - 1, |before|, alignedSize);
      before[home := before[home] + [n - 1]]
  }

  function Fresh(capacity: nat, cacheCount: nat, rows: nat, alignedSize: nat): (p: Pools)
    requires 0 < capacity <= MAX_INT32 && rows > 0
    ensures WellFormed(p)
  {
    Pools(Repeat(false, capacity), Repeat([], cacheCount), [], Distributed(capacity, rows, alignedSize))
  }

  lemma {:induction false} DistributedBag(n: nat, rows: nat, alignedSize: nat)
    requires n <= MAX_INT32 && rows > 0
    ensures BagOf(Distributed(n, rows, alignedSize)) == FreeBag(Repeat(false, n))
  {
    hide BagOf, FreeBag, Distributed, Repeat;
    if n == 0 {
      NothingDistributed(rows, alignedSize);
    } else {
      DistributedBag(n - 1, rows, alignedSize);
      DistributedAdds(n, n - 1, rows, alignedSize);
      AllFree(n);
    }
  }

  lemma NothingDistributed(rows: nat, alignedSize: nat)
    requires rows > 0
    ensures BagOf(Distributed(0, rows, alignedSize)) == FreeBag(Repeat(false, 0))
  {
    BagOfEmptyLists(Distributed(0, rows, alignedSize));
  }

  lemma DistributedAdds(n: nat, last: nat, rows: nat, alignedSize: nat)
    requires last < n == last + 1 <= MAX_INT32 && rows > 0
    ensures BagOf(Distributed(n, rows, alignedSize)) == BagOf(Distributed(last, rows, alignedSize)) + multiset{last}
  {
    hide BagOf, IndexAtPut;
    WholeRows(rows);
    var before := Distributed(last, rows, alignedSize);
    BagOfPush(before, IndexAtPut(last, |before|, alignedSize), last);
  }

  lemma AllFree(n: nat)
    requires n > 0
    ensures FreeBag(Repeat(false, n)) == FreeBag(Repeat(false, n - 1)) + multiset{n - 1}
  {
    assert Repeat(false, n)[..n - 1] == Repeat(false, n - 1);
  }

  lemma {:induction false} AllFreeCount(n: nat)
    ensures FreeCount(Repeat(false, n)) == n
  {
    if n > 0 {
      AllFreeCount(n - 1);
      AllFree(n);
    }
  }

  /** A new allocator lists every slab exactly once, with or without caches. */
  lemma FreshIsExact(capacity: nat, cacheCount: nat, rows: nat, alignedSize: nat)
    requires 0 < capacity <= MAX_INT32 && rows > 0
    ensures Exact(Fresh(capacity, cacheCount, rows, alignedSize))
  {
    var p := Fresh(capacity, cacheCount, rows, alignedSize);
    DistributedBag(capacity, rows, alignedSize);
    BagOfEmptyLists(p.caches);
    assert p.inUse == Repeat(false, capacity);
  }

  /** In each shard of a new allocator the IDs ascend, and each is in its home shard. */
  ghost predicate Ascending(shards: seq<seq<int>>, n: nat, alignedSize: nat)
    requires n <= MAX_INT32 && COLOR_COUNT <= |shards| && |shards| % COLOR_COUNT == 0
  {
    && (forall j, i, k :: 0 <= j < |shards| && 0 <= i < k < |shards[j]| ==> shards[j][i] < shards[j][k])
    && (forall j, i :: 0 <= j < |shards| && 0 <= i < |shards[j]| ==>
          0 <= shards[j][i] < n && IndexAtPut(shards[j][i], |shards|, alignedSize) == j)
  }

  lemma {:induction false} NewShardsAscend(n: nat, rows: nat, alignedSize: nat)
    requires n <= MAX_INT32 && rows > 0
    ensures |Distributed(n, rows, alignedSize)| == rows * COLOR_COUNT
    ensures COLOR_COUNT <= rows * COLOR_COUNT && rows * COLOR_COUNT % COLOR_COUNT == 0
    ensures Ascending(Distributed(n, rows, alignedSize), n, alignedSize)
  {
    hide IndexAtPut;
    WholeRows(rows);
    if n > 0 {
      NewShardsAscend(n - 1, rows, alignedSize);
    }
  }

  // ---- Taking an ID from a pool ----

  datatype Taken = Taken(pools: Pools, slot: Option<int>)

  function CacheIndex(draw: nat, count: nat): (c: nat)
    requires count > 0
    ensures c < count
  {
    And(draw, count - 1)
  }

  /** perCPUCacheArray.get on the caches and the stack: pop from the drawn cache; if it is
      empty, pop the stack, return that ID and leave it in the cache as well. */
  function CacheStep(caches: seq<seq<int>>, stack: seq<int>, draw: nat): (r: (seq<seq<int>>, seq<int>, Option<int>))
    requires caches != []
    ensures |r.0| == |caches|
  {
    var c := CacheIndex(draw, |caches|);
    var cache := caches[c];
    if cache != [] then (caches[c := cache[..|cache| - 1]], stack, Some(cache[|cache| - 1]))
    else if stack == [] then (caches, stack, None)
    else
      var id := stack[|stack| - 1];
      (caches[c := cache + [id]], stack[..|stack| - 1], Some(id))
  }

  lemma PopFacts(p: Pools, c: nat)
    requires WellFormed(p) && c < |p.caches| && p.caches[c] != []
    ensures var cache := p.caches[c];
      var q := p.(caches := p.caches[c := cache[..|cache| - 1]]);
      && WellFormed(q) && 0 <= cache[|cache| - 1] < |p.inUse|
      && Weight(q) + 1 == Weight(p) && Bag(p) == Bag(q) + multiset{cache[|cache| - 1]}
  {
    var cache := p.caches[c];
    CacheSet(p, c, cache[..|cache| - 1]);
    hide WellFormed, BagOf;
    BagOfPop(p.caches, c);
  }

  lemma CacheSet(p: Pools, c: nat, t: seq<int>)
    requires WellFormed(p) && c < |p.caches| && |t| <= CACHE_SIZE && InRange(t, |p.inUse|)
    ensures WellFormed(p.(caches := p.caches[c := t]))
  {
  }

  lemma RefillFacts(p: Pools, c: nat)
    requires WellFormed(p) && c < |p.caches| && p.caches[c] == [] && p.stack != []
    ensures var n := |p.stack| - 1;
      var q := p.(caches := p.caches[c := p.caches[c] + [p.stack[n]]], stack := p.stack[..n]);
      && WellFormed(q) && 0 <= p.stack[n] < |p.inUse| && Weight(q) + 1 == Weight(p) && Bag(p) == Bag(q)
  {
    var n := |p.stack| - 1;
    var q := p.(caches := p.caches[c := p.caches[c] + [p.stack[n]]], stack := p.stack[..n]);
    assert WellFormed(q);
    hide WellFormed;
    StackPop(p.stack);
    BagOfPush(p.caches, c, p.stack[n]);
  }

  /** With caches an exact listing does not survive a refill: the ID handed out stays in the
      cache, so once it is claimed a slab in use is listed. */
  lemma RefillKeepsACopy(p: Pools, draw: nat)
    requires WellFormed(p) && p.caches != [] && p.stack != [] && p.caches[CacheIndex(draw, |p.caches|)] == []
    ensures var g := CacheGet(p, draw);
      && g.slot == Some(p.stack[|p.stack| - 1])
      && g.pools.caches[CacheIndex(draw, |p.caches|)] == [g.slot.value]
      && !Exact(SetUsed(g.pools, g.slot.value))
  {
    var c, g := CacheIndex(draw, |p.caches|), CacheGet(p, draw);
    var q := SetUsed(g.pools, g.slot.value);
    BagOfMember(q.caches, c, g.slot.value);
    FreeBagCounts(q.inUse, g.slot.value);
    assert g.slot.value in Bag(q);
  }

  /** The measure of the claim loops goes down by one on every success, although a refill
      leaves the ID it hands out in the cache. */
  function CacheGet(p: Pools, draw: nat): (r: Taken)
    requires WellFormed(p) && p.caches != []
    ensures WellFormed(r.pools) && r.pools.inUse == p.inUse && |r.pools.caches| == |p.caches|
    ensures r.pools.shards == p.shards
    ensures r.slot.Some? ==> 0 <= r.slot.value < |p.inUse|
    ensures r.slot.Some? ==> Weight(r.pools) + 1 == Weight(p)
    ensures r.slot.Some? ==> Bag(r.pools) <= Bag(p) <= Bag(r.pools) + multiset{r.slot.value}
  {
    var r := CacheStep(p.caches, p.stack, draw);
    CacheStepFacts(p, draw);
    Taken(p.(caches := r.0, stack := r.1), r.2)
  }

  lemma CacheStepFacts(p: Pools, draw: nat)
    requires WellFormed(p) && p.caches != []
    ensures var r := CacheStep(p.caches, p.stack, draw);
      var q := p.(caches := r.0, stack := r.1);
      && WellFormed(q)
      && (r.2.None? ==> q == p)
      && (r.2.Some? ==> 0 <= r.2.value < |p.inUse| && Weight(q) + 1 == Weight(p)
                        && Bag(q) <= Bag(p) <= Bag(q) + multiset{r.2.value})
  {
    hide WellFormed, Weight, Bag, CacheIndex;
    var c := CacheIndex(draw, |p.caches|);
    if p.caches[c] != [] {
      PopFacts(p, c);
    } else if p.stack != [] {
      RefillFacts(p, c);
    }
  }

  /** indexedFreeStack.pop */
  function StackGet(p: Pools): (r: Taken)
    requires WellFormed(p)
    ensures WellFormed(r.pools) && r.pools.inUse == p.inUse && r.pools.caches == p.caches && r.pools.shards == p.shards
    ensures r.slot.Some? ==> 0 <= r.slot.value < |p.inUse| && |r.pools.stack| < |p.stack|
    ensures r.slot.Some? ==> Bag(p) == Bag(r.pools) + multiset{r.slot.value}
  {
    if p.stack == [] then Taken(p, None)
    else
      StackPop(p.stack);
      Taken(p.(stack := p.stack[..|p.stack| - 1]), Some(p.stack[|p.stack| - 1]))
  }

  // ---- The search over coloured shards ----

  function ShardAt(shards: seq<seq<int>>, start: nat, attempt: nat, color: nat): (j: nat)
    requires COLOR_COUNT <= |shards| && |shards| % COLOR_COUNT == 0 && color < COLOR_COUNT
    ensures j < |shards| && j % COLOR_COUNT == color
  {
    And(start + attempt, |shards| / COLOR_COUNT - 1) * COLOR_COUNT + color
  }

  /** All attempts with one colour, from the given attempt on. */
  function ProbeRows(shards: seq<seq<int>>, start: nat, color: nat, attempt: nat): (r: Option<nat>)
    requires COLOR_COUNT <= |shards| && |shards| % COLOR_COUNT == 0 && color < COLOR_COUNT
    ensures r.Some? ==> r.value < |shards| && shards[r.value] != []
    decreases |shards| - attempt
  {
    if attempt >= |shards| then None
    else
      var j := ShardAt(shards, start, attempt, color);
      if shards[j] != [] then Some(j) else ProbeRows(shards, start, color, attempt + 1)
  }

  function ProbeColor(lastColor: nat, attempt: nat): (color: nat)
    ensures color < COLOR_COUNT
  {
    (lastColor + 1 + attempt) % COLOR_COUNT
  }

  function ProbeColors(shards: seq<seq<int>>, start: nat, lastColor: nat, attempt: nat): (r: Option<nat>)
    requires COLOR_COUNT <= |shards| && |shards| % COLOR_COUNT == 0
    ensures r.Some? ==> r.value < |shards| && shards[r.value] != []
    decreases COLOR_COUNT - attempt
  {
    if attempt >= COLOR_COUNT then None
    else
      var r := ProbeRows(shards, start, ProbeColor(lastColor, attempt), 0);
      if r.Some? then r else ProbeColors(shards, start, lastColor, attempt + 1)
  }

  /** The last resort: the first row of the array by position. */
  function ProbeAny(shards: seq<seq<int>>, start: nat, attempt: nat): (r: Option<nat>)
    requires COLOR_COUNT <= |shards| && |shards| % COLOR_COUNT == 0
    ensures r.Some? ==> r.value < |shards| && shards[r.value] != []
    decreases |shards| - attempt
  {
    if attempt >= |shards| then None
    else
      var j := And(start + attempt, |shards| / COLOR_COUNT - 1);
      if shards[j] != [] then Some(j) else ProbeAny(shards, start, attempt + 1)
  }

  /** coloredShardedFreeList.get: which shard it pops from. */
  function FindShard(shards: seq<seq<int>>, draw: nat, lastColor: nat): (r: Option<nat>)
    requires COLOR_COUNT <= |shards| && |shards| % COLOR_COUNT == 0
    ensures r.Some? ==> r.value < |shards| && shards[r.value] != []
  {
    var start := And(draw, |shards| / COLOR_COUNT - 1);
    var r := ProbeColors(shards, start, lastColor, 0);
    if r.Some? then r else ProbeAny(shards, start, 0)
  }

  lemma {:induction false} RowsMiss(shards: seq<seq<int>>, start: nat, color: nat, from: nat, attempt: nat)
    requires COLOR_COUNT <= |shards| && |shards| % COLOR_COUNT == 0 && color < COLOR_COUNT
    requires from <= attempt < |shards| && ProbeRows(shards, start, color, from).None?
    ensures shards[ShardAt(shards, start, attempt, color)] == []
    decreases attempt - from
  {
    if from < attempt {
      RowsMiss(shards, start, color, from + 1, attempt);
    }
  }

  lemma {:induction false} ColorsMiss(shards: seq<seq<int>>, start: nat, lastColor: nat, from: nat, attempt: nat)
    requires COLOR_COUNT <= |shards| && |shards| % COLOR_COUNT == 0
    requires from <= attempt < COLOR_COUNT && ProbeColors(shards, start, lastColor, from).None?
    ensures ProbeRows(shards, start, ProbeColor(lastColor, attempt), 0).None?
    decreases attempt - from
  {
    if from < attempt {
      ColorsMiss(shards, start, lastColor, from + 1, attempt);
    }
  }

  /** Some attempt below the row count reaches any given row, whatever the start. */
  lemma RowReached(start: nat, row: nat, rows: nat) returns (attempt: nat)
    requires IsPow2(rows) && row < rows
    ensures attempt < rows && And(start + attempt, rows - 1) == row
  {
    var k: nat :| rows == Pow2(k);
    attempt := ModDistance(start, row, rows);
    AndMask(start + attempt, k);
  }

  lemma ModDistance(start: nat, row: nat, rows: nat) returns (attempt: nat)
    requires row < rows
    ensures attempt < rows && (start + attempt) % rows == row
  {
    var q, r := start / rows, start % rows;
    assert start == rows * q + r;
    if row >= r {
      attempt := row - r;
      ModIsUnique(start + attempt, rows, q, row);
    } else {
      attempt := row + rows - r;
      assert rows * (q + 1) == rows * q + rows;
      ModIsUnique(start + attempt, rows, q + 1, row);
    }
  }

  lemma ColorReached(lastColor: nat, color: nat) returns (attempt: nat)
    requires color < COLOR_COUNT
    ensures attempt < COLOR_COUNT && ProbeColor(lastColor, attempt) == color
  {
    var r := (lastColor + 1) % COLOR_COUNT;
    attempt := if color >= r then color - r else color + COLOR_COUNT - r;
    ModAdd(lastColor + 1, attempt, COLOR_COUNT);
  }

  lemma ColoredPassesReachAll(shards: seq<seq<int>>, start: nat, lastColor: nat)
    requires COLOR_COUNT <= |shards| && |shards| % COLOR_COUNT == 0 && IsPow2(|shards| / COLOR_COUNT)
    requires ProbeColors(shards, start, lastColor, 0).None?
    ensures forall j :: 0 <= j < |shards| ==> shards[j] == []
  {
    hide ProbeColors;
    forall j | 0 <= j < |shards| ensures shards[j] == [] {
      ColoredPassesReach(shards, start, lastColor, j / COLOR_COUNT, j % COLOR_COUNT, j);
    }
  }

  lemma ColoredPassesReach(shards: seq<seq<int>>, start: nat, lastColor: nat, row: nat, color: nat, j: nat)
    requires COLOR_COUNT <= |shards| && |shards| % COLOR_COUNT == 0 && IsPow2(|shards| / COLOR_COUNT)
    requires ProbeColors(shards, start, lastColor, 0).None?
    requires color < COLOR_COUNT && j == row * COLOR_COUNT + color < |shards|
    ensures shards[j] == []
  {
    hide ProbeColors, ProbeColor, ProbeRows, IsPow2, And;
    var ca := ColorReached(lastColor, color);
    ColorsMiss(shards, start, lastColor, 0, ca);
    var a := RowReached(start, row, |shards| / COLOR_COUNT);
    RowsMiss(shards, start, color, 0, a);
  }

  /** The search fails if and only if every shard is empty, for every random start and
      every last colour; and its last resort never finds anything the coloured passes
      missed. */
  lemma SearchIsComplete(shards: seq<seq<int>>, draw: nat, lastColor: nat)
    requires COLOR_COUNT <= |shards| && |shards| % COLOR_COUNT == 0 && IsPow2(|shards| / COLOR_COUNT)
    ensures FindShard(shards, draw, lastColor).None? <==> forall j :: 0 <= j < |shards| ==> shards[j] == []
    ensures FindShard(shards, draw, lastColor)
         == ProbeColors(shards, And(draw, |shards| / COLOR_COUNT - 1), lastColor, 0)
  {
    var start := And(draw, |shards| / COLOR_COUNT - 1);
    if ProbeColors(shards, start, lastColor, 0).None? {
      ColoredPassesReachAll(shards, start, lastColor);
    }
  }

  lemma ShardPopKeeps(p: Pools, j: nat, last: nat, id: int, shards: seq<seq<int>>)
    requires WellFormed(p) && j < |p.shards| && last + 1 == |p.shards[j]|
    requires id == p.shards[j][last] && shards == p.shards[j := p.shards[j][..last]]
    ensures WellFormed(p.(shards := shards)) && 0 <= id < |p.inUse|
    ensures BagOf(p.shards) == BagOf(shards) + multiset{id} && Bag(p) == Bag(p.(shards := shards)) + multiset{id}
  {
    hide BagOf;
    BagOfPop(p.shards, j);
  }

  function ShardGet(p: Pools, draw: nat): (r: Taken)
    requires WellFormed(p)
    ensures WellFormed(r.pools) && r.pools.inUse == p.inUse && r.pools.caches == p.caches && r.pools.stack == p.stack
    ensures |r.pools.shards| == |p.shards|
    ensures r.slot.Some? ==> 0 <= r.slot.value < |p.inUse| && |BagOf(r.pools.shards)| < |BagOf(p.shards)|
    ensures r.slot.Some? ==> Bag(p) == Bag(r.pools) + multiset{r.slot.value}
    ensures r.slot.None? ==> r.pools == p
  {
    var found := FindShard(p.shards, draw, 0);
    if found.None? then Taken(p, None)
    else
      var j := found.value;
      var items := p.shards[j];
      var last := |items| - 1;
      ShardPopKeeps(p, j, last, items[last], p.shards[j := items[..last]]);
      Taken(p.(shards := p.shards[j := items[..last]]), Some(items[last]))
  }

  // ---- Claiming: take IDs until the flag of one can be set ----

  datatype Claim = Claim(pools: Pools, slot: Option<int>, drawn: nat)

  function SetUsed(p: Pools, id: int): (r: Pools)
    requires WellFormed(p) && 0 <= id < |p.inUse|
    ensures WellFormed(r)
  {
    p.(inUse := p.inUse[id := true])
  }

  function ClaimFromCaches(p: Pools, draw: nat -> nat, k: nat): (r: Claim)
    requires WellFormed(p)
    ensures WellFormed(r.pools) && r.pools.shards == p.shards && |r.pools.caches| == |p.caches|
    ensures GoodClaim(p, r)
    ensures r.drawn <= k + Weight(p) + 1
    ensures r.slot.None? && p.caches != [] ==>
      r.pools.stack == [] && exists c :: 0 <= c < |p.caches| && r.pools.caches[c] == []
    decreases Weight(p)
  {
    if p.caches == [] then Claim(p, None, k)
    else
      var g := CacheGet(p, draw(k));
      if g.slot.None? then
        assert g.pools.caches[CacheIndex(draw(k), |p.caches|)] == [];
        Claim(g.pools, None, k + 1)
      else
        TakenKeepsCover(p, g);
        if !g.pools.inUse[g.slot.value] then Claim(SetUsed(g.pools, g.slot.value), g.slot, k + 1)
        else ClaimFromCaches(g.pools, draw, k + 1)
  }

  function ClaimFromStack(p: Pools): (r: Claim)
    requires WellFormed(p)
    ensures WellFormed(r.pools) && r.pools.caches == p.caches && r.pools.shards == p.shards
    ensures GoodClaim(p, r)
    ensures Exact(p) ==> Exact(r.pools)
    ensures r.slot.None? ==> r.pools.stack == []
    decreases |p.stack|
  {
    var g := StackGet(p);
    if g.slot.None? then Claim(g.pools, None, 0)
    else
      TakenKeepsCover(p, g);
      TakenKeepsExact(p, g);
      if !g.pools.inUse[g.slot.value] then Claim(SetUsed(g.pools, g.slot.value), g.slot, 0)
      else ClaimFromStack(g.pools)
  }

  function ClaimFromShards(p: Pools, draw: nat -> nat, k: nat): (r: Claim)
    requires WellFormed(p)
    ensures WellFormed(r.pools) && r.pools.caches == p.caches && r.pools.stack == p.stack
    ensures |r.pools.shards| == |p.shards|
    ensures GoodClaim(p, r)
    ensures Exact(p) ==> Exact(r.pools)
    ensures r.slot.None? && IsPow2(|p.shards| / COLOR_COUNT) ==>
      forall j :: 0 <= j < |r.pools.shards| ==> r.pools.shards[j] == []
    decreases |BagOf(p.shards)|
  {
    var g := ShardGet(p, draw(k));
    if g.slot.None? then
      assert IsPow2(|p.shards| / COLOR_COUNT) ==> forall j :: 0 <= j < |p.shards| ==> p.shards[j] == [] by {
        if IsPow2(|p.shards| / COLOR_COUNT) { SearchIsComplete(p.shards, draw(k), 0); }
      }
      Claim(g.pools, None, k + 1)
    else
      TakenKeepsCover(p, g);
      TakenKeepsExact(p, g);
      if !g.pools.inUse[g.slot.value] then Claim(SetUsed(g.pools, g.slot.value), g.slot, k + 1)
      else ClaimFromShards(g.pools, draw, k + 1)
  }

  /** What any claim loop achieves: it sets exactly one flag that was clear, or none, and
      never loses sight of a free slab. */
  ghost predicate GoodClaim(p: Pools, r: Claim) {
    && (r.slot.Some? ==> 0 <= r.slot.value < |p.inUse| && !p.inUse[r.slot.value]
                         && r.pools.inUse == p.inUse[r.slot.value := true])
    && (r.slot.None? ==> r.pools.inUse == p.inUse)
    && (Covers(p) ==> Covers(r.pools))
    && Bag(r.pools) <= Bag(p)
  }

  lemma TakenKeepsCover(p: Pools, g: Taken)
    requires g.slot.Some? && 0 <= g.slot.value < |p.inUse| && g.pools.inUse == p.inUse
    requires Bag(g.pools) <= Bag(p) <= Bag(g.pools) + multiset{g.slot.value}
    ensures p.inUse[g.slot.value] && Covers(p) ==> Covers(g.pools)
    ensures !p.inUse[g.slot.value] && Covers(p) ==> Covers(g.pools.(inUse := p.inUse[g.slot.value := true]))
    ensures Bag(g.pools.(inUse := p.inUse[g.slot.value := true])) == Bag(g.pools)
  {
    var id := g.slot.value;
    if !p.inUse[id] {
      FreeBagSet(p.inUse, id, true);
    } else {
      FreeBagCounts(p.inUse, id);
    }
  }

  /** With an exact listing the ID just taken is free, so setting its flag succeeds. */
  lemma TakenKeepsExact(p: Pools, g: Taken)
    requires g.slot.Some? && 0 <= g.slot.value < |p.inUse| && g.pools.inUse == p.inUse
    requires Bag(p) == Bag(g.pools) + multiset{g.slot.value}
    ensures Exact(p) ==> !p.inUse[g.slot.value]
    ensures Exact(p) ==> Exact(g.pools.(inUse := p.inUse[g.slot.value := true]))
  {
    var id := g.slot.value;
    if Exact(p) {
      FreeBagCounts(p.inUse, id);
      assert Bag(p)[id] >= 1;
      FreeBagSet(p.inUse, id, true);
      Cancel(FreeBag(p.inUse[id := true]), Bag(g.pools), multiset{id});
      assert Bag(g.pools.(inUse := p.inUse[id := true])) == Bag(g.pools);
    }
  }
}
