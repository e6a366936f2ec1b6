/** In which order a claim looks at the pools: the newest entry of the drawn cache, then the
    stack from the top, then the shards in the order of the probes; and that a claim right
    after a free undoes it. */
module SearchOrder {
  import opened Bags
  import opened Bits
  import opened Claims
  import opened Layout
  import opened Pools
  import opened Wrappers

  // ---- One get from each pool ----

  /** The mask picks the remainder, as the number of caches is a power of two. */
  lemma CacheIndexIsRemainder(draw: nat, count: nat)
    requires IsPow2(count)
    ensures count > 0 && CacheIndex(draw, count) == draw % count
  {
    var k: nat :| count == Pow2(k);
    AndMask(draw, k);
  }

  /** The newest ID of the drawn cache; of an empty cache the newest of the stack, which
      stays in the cache; or nothing. */
  lemma CacheGives(p: Pools, draw: nat, c: nat, last: nat)
    requires WellFormed(p) && p.caches != [] && IsPow2(|p.caches|) && c == draw % |p.caches|
    ensures last + 1 == |p.caches[c]| ==>
      CacheGet(p, draw) == Taken(p.(caches := p.caches[c := p.caches[c][..last]]), Some(p.caches[c][last]))
    ensures p.caches[c] == [] && last + 1 == |p.stack| ==>
      CacheGet(p, draw)
        == Taken(p.(caches := p.caches[c := [p.stack[last]]], stack := p.stack[..last]), Some(p.stack[last]))
    ensures p.caches[c] == [] && p.stack == [] ==> CacheGet(p, draw) == Taken(p, None)
  {
    CacheIndexIsRemainder(draw, |p.caches|);
    hide WellFormed, IsPow2, CacheIndex, Weight, Bag;
    if p.caches[c] == [] && last + 1 == |p.stack| {
      assert p.caches[c] + [p.stack[last]] == [p.stack[last]];
    }
  }

  lemma StackGives(p: Pools, last: nat)
    requires WellFormed(p)
    ensures last + 1 == |p.stack| ==> StackGet(p) == Taken(p.(stack := p.stack[..last]), Some(p.stack[last]))
    ensures p.stack == [] ==> StackGet(p) == Taken(p, None)
  {
    hide WellFormed, Bag;
  }

  /** A shard gives its newest ID. */
  lemma ShardGives(p: Pools, draw: nat, j: nat, last: nat)
    requires WellFormed(p)
    requires FindShard(p.shards, draw, 0) == Some(j) && last + 1 == |p.shards[j]|
    ensures ShardGet(p, draw) == Taken(p.(shards := p.shards[j := p.shards[j][..last]]), Some(p.shards[j][last]))
  {
    hide FindShard, Bag, BagOf;
  }

  // ---- The stack ----

  /** The stack loop claims the topmost free entry and drops what is above it. */
  lemma {:induction false} StackClaimIsTopmost(p: Pools, i: nat)
    requires WellFormed(p) && i < |p.stack| && !p.inUse[p.stack[i]]
    requires forall k :: i < k < |p.stack| ==> p.inUse[p.stack[k]]
    ensures var c := ClaimFromStack(p);
      c.slot == Some(p.stack[i]) && c.pools == p.(stack := p.stack[..i], inUse := p.inUse[p.stack[i] := true])
    decreases |p.stack|
  {
    hide Bag, Covers, Exact, GoodClaim, StackGet;
    var last: nat := |p.stack| - 1;
    StackGives(p, last);
    if i < last {
      var g := StackGet(p);
      StackClaimIsTopmost(g.pools, i);
      assert p.stack[..last][..i] == p.stack[..i];
    }
  }

  // ---- The order of the pools ----

  /** The newest ID of the first drawn cache is claimed if it is free, and nothing else is
      looked at. */
  lemma CacheComesFirst(p: Pools, cpu: nat -> nat, start: nat -> nat, c: nat, last: nat)
    requires WellFormed(p) && p.caches != [] && IsPow2(|p.caches|) && c == cpu(0) % |p.caches|
    requires last + 1 == |p.caches[c]| && !p.inUse[p.caches[c][last]]
    ensures var r, id := Acquire(p, cpu, start), p.caches[c][last];
      r.slot == Some(id) && r.pools == p.(caches := p.caches[c := p.caches[c][..last]], inUse := p.inUse[id := true])
  {
    CacheGives(p, cpu(0), c, last);
    hide CacheGet, Bag, Covers, Exact, AcquireShared, IsPow2;
  }

  /** Without caches the topmost free entry of the stack is claimed, if there is one. */
  lemma StackComesBeforeShards(p: Pools, cpu: nat -> nat, start: nat -> nat, i: nat)
    requires WellFormed(p) && p.caches == [] && i < |p.stack| && !p.inUse[p.stack[i]]
    requires forall k :: i < k < |p.stack| ==> p.inUse[p.stack[k]]
    ensures var r := Acquire(p, cpu, start);
      r.slot == Some(p.stack[i]) && r.pools == p.(stack := p.stack[..i], inUse := p.inUse[p.stack[i] := true])
  {
    StackClaimIsTopmost(p, i);
    hide ClaimFromStack, ClaimFromShards, Bag, Covers, Exact;
  }

  /** Neither a single allocation nor a batch touches a shard before the stack is empty. */
  lemma ShardsComeLast(p: Pools, n: nat, cpu: nat -> nat, start: nat -> nat)
    requires WellFormed(p)
    ensures Acquire(p, cpu, start).pools.shards != p.shards ==> Acquire(p, cpu, start).pools.stack == []
    ensures AcquireBatch(p, n, cpu, start).pools.shards != p.shards ==> AcquireBatch(p, n, cpu, start).pools.stack == []
  {
    hide BatchFromCaches, BatchFromStack, BatchFromShards, ClaimFromCaches, ClaimFromStack, ClaimFromShards;
    hide Covers, Exact, GoodClaim, GoodBatch, SameSizes, WellFormed;
    var b1 := BatchFromCaches(p, n, cpu, 0);
    BatchIsShort(p, n, b1);
    var left: nat := n - |b1.ids|;
    var b2 := BatchFromStack(b1.pools, left);
    BatchIsShort(b1.pools, left, b2);
    if |b2.ids| == left {
      NothingFromShards(b2.pools, start, 0);
    }
  }

  lemma BatchIsShort(p: Pools, n: nat, b: Batch)
    requires GoodBatch(p, n, b)
    ensures |b.ids| <= n && WellFormed(b.pools)
  {
  }

  lemma NothingFromShards(p: Pools, start: nat -> nat, k: nat)
    requires WellFormed(p)
    ensures BatchFromShards(p, 0, start, k).pools == p
  {
  }

  // ---- A claim undoes a free ----

  /** A slab freed into a cache with room is claimed by the next allocation on that CPU, and
      then the pools are what they were. */
  lemma ClaimUndoesCachedFree(p: Pools, id: int, draw: nat, cpu: nat -> nat, start: nat -> nat, alignedSize: nat, c: nat)
    requires WellFormed(p) && 0 <= id < |p.inUse| && p.inUse[id]
    requires p.caches != [] && IsPow2(|p.caches|) && draw % |p.caches| == cpu(0) % |p.caches| == c && |p.caches[c]| < 16
    ensures Acquire(Release(p, id, draw, alignedSize), cpu, start).slot == Some(id)
    ensures Acquire(Release(p, id, draw, alignedSize), cpu, start).pools == p
  {
    hide IsPow2, Acquire, IndexAtPut, CacheIndex, Bag, WellFormed;
    var q := Release(p, id, draw, alignedSize);
    CachedFree(p, id, draw, alignedSize, c);
    hide Release;
    var n := |p.caches[c]|;
    CacheComesFirst(q, cpu, start, c, n);
    assert q.caches[c][..n] == p.caches[c];
    assert q.caches[c := p.caches[c]] == p.caches && q.inUse[id := true] == p.inUse;
  }

  lemma CachedFree(p: Pools, id: int, draw: nat, alignedSize: nat, c: nat)
    requires WellFormed(p) && 0 <= id < |p.inUse|
    requires p.caches != [] && IsPow2(|p.caches|) && draw % |p.caches| == c && |p.caches[c]| < 16
    ensures Release(p, id, draw, alignedSize)
         == p.(inUse := p.inUse[id := false], caches := p.caches[c := p.caches[c] + [id]])
  {
    hide IsPow2, IndexAtPut, CacheIndex, Bag;
    CacheIndexIsRemainder(draw, |p.caches|);
  }

  /** Without caches the same holds of the stack. */
  lemma ClaimUndoesStackedFree(p: Pools, id: int, draw: nat, cpu: nat -> nat, start: nat -> nat, alignedSize: nat)
    requires WellFormed(p) && 0 <= id < |p.inUse| && p.inUse[id] && p.caches == [] && |p.stack| < |p.inUse|
    ensures Acquire(Release(p, id, draw, alignedSize), cpu, start).slot == Some(id)
    ensures Acquire(Release(p, id, draw, alignedSize), cpu, start).pools == p
  {
    PutBackCases(p.caches, p.stack, p.shards, |p.inUse|, id, draw, alignedSize);
    var q, last := Release(p, id, draw, alignedSize), |p.stack|;
    assert q == p.(inUse := p.inUse[id := false], stack := p.stack + [id]);
    hide Release, PutBack, Acquire, IndexAtPut;
    StackComesBeforeShards(q, cpu, start, last);
    assert q.stack[..last] == p.stack && q.inUse[id := true] == p.inUse;
  }

  // ---- The probes ----

  /** The shard of a probe: row draw + ra, wrapped, and colour lastColor + 1 + ca, wrapped. */
  function Probe(count: nat, draw: nat, lastColor: nat, ca: nat, ra: nat): (j: nat)
    requires count >= 16
  {
    (draw + ra) % (count / 16) * 16 + (lastColor + 1 + ca) % 16
  }

  /** The probe finds something. */
  ghost predicate Hits(shards: seq<seq<int>>, draw: nat, lastColor: nat, ca: nat, ra: nat)
    requires |shards| >= 16
  {
    var j := Probe(|shards|, draw, lastColor, ca, ra);
    j < |shards| && shards[j] != []
  }

  ghost predicate Rows(shards: seq<seq<int>>) {
    16 <= |shards| && |shards| % 16 == 0 && IsPow2(|shards| / 16)
  }

  /** The probing loops look at the shard of the probe. */
  lemma ShardAtIsProbe(shards: seq<seq<int>>, draw: nat, start: nat, lastColor: nat, ca: nat, ra: nat)
    requires Rows(shards) && start == And(draw, |shards| / 16 - 1)
    ensures ShardAt(shards, start, ra, ProbeColor(lastColor, ca)) == Probe(|shards|, draw, lastColor, ca, ra)
    ensures Hits(shards, draw, lastColor, ca, ra) <==> shards[ShardAt(shards, start, ra, ProbeColor(lastColor, ca))] != []
  {
    var rows := |shards| / 16;
    var k: nat :| rows == Pow2(k);
    hide IsPow2, Pow2, And;
    AndMask(draw, k);
    AndMask(draw % rows + ra, k);
    ModAdd(draw, ra, rows);
  }

  /** The row loop finds its first hit, and nothing if there is none. */
  lemma {:induction false} RowsFind(shards: seq<seq<int>>, draw: nat, start: nat, lastColor: nat,
                                    ca: nat, ra: nat, from: nat)
    requires Rows(shards) && start == And(draw, |shards| / 16 - 1) && from <= ra <= |shards|
    requires forall r: nat :: from <= r < ra ==> !Hits(shards, draw, lastColor, ca, r)
    requires ra == |shards| || Hits(shards, draw, lastColor, ca, ra)
    ensures ProbeRows(shards, start, ProbeColor(lastColor, ca), from)
         == if ra == |shards| then None else Some(Probe(|shards|, draw, lastColor, ca, ra))
    decreases ra - from
  {
    hide And, ProbeColor, ShardAt, Hits, Probe, Rows;
    if from < |shards| {
      ShardAtIsProbe(shards, draw, start, lastColor, ca, from);
    }
    if from < ra {
      RowsFind(shards, draw, start, lastColor, ca, ra, from + 1);
    }
  }

  lemma {:induction false} ColorsFind(shards: seq<seq<int>>, draw: nat, start: nat, lastColor: nat,
                                      ca: nat, ra: nat, from: nat)
    requires Rows(shards) && start == And(draw, |shards| / 16 - 1) && from <= ca < 16 && ra < |shards|
    requires forall c: nat, r: nat :: from <= c < ca || (c == ca && r < ra) ==> !Hits(shards, draw, lastColor, c, r)
    requires Hits(shards, draw, lastColor, ca, ra)
    ensures ProbeColors(shards, start, lastColor, from) == Some(Probe(|shards|, draw, lastColor, ca, ra))
    decreases ca - from
  {
    hide And, ProbeColor, ProbeRows, Hits, Probe, Rows;
    if from < ca {
      RowsFind(shards, draw, start, lastColor, from, |shards|, 0);
      ColorsFind(shards, draw, start, lastColor, ca, ra, from + 1);
    } else {
      RowsFind(shards, draw, start, lastColor, ca, ra, 0);
    }
  }

  /** A search of the shards pops from the first probe that finds something: colour by colour
      from the one after lastColor, in each colour row by row from the random start. */
  lemma SearchFindsFirstHit(shards: seq<seq<int>>, draw: nat, lastColor: nat, ca: nat, ra: nat)
    requires Rows(shards) && ca < 16 && ra < |shards|
    requires forall c: nat, r: nat :: c < ca || (c == ca && r < ra) ==> !Hits(shards, draw, lastColor, c, r)
    requires Hits(shards, draw, lastColor, ca, ra)
    ensures FindShard(shards, draw, lastColor) == Some(Probe(|shards|, draw, lastColor, ca, ra))
  {
    hide And, ProbeColors, Hits, Probe;
    ColorsFind(shards, draw, And(draw, |shards| / 16 - 1), lastColor, ca, ra, 0);
  }
}
