/** The three free structures as objects updated in place. In a sequential run a
    compare-and-swap never fails, so each retry loop runs once. */
module FreeStructures {
  import opened Bits
  import opened Layout
  import opened Pools
  import opened Wrappers

  /** Preallocated LIFO stack. */
  class IndexedFreeStack {
    const slab: array<int>
    var count: nat

    ghost predicate Valid()
      reads this, slab
    {
      count <= slab.Length
    }

    ghost function Contents(): seq<int>
      requires Valid()
      reads this, slab
    {
      slab[..count]
    }

    constructor (capacity: nat)
      ensures Valid() && Contents() == [] && fresh(slab) && slab.Length == capacity
    {
      slab := new int[capacity];
      count := 0;
    }

    method Push(id: int) returns (ok: bool)
      requires Valid()
      modifies this, slab
      ensures Valid()
      ensures ok <==> |old(Contents())| < slab.Length
      ensures Contents() == if ok then old(Contents()) + [id] else old(Contents())
    {
      if count >= slab.Length {
        return false;
      }
      slab[count] := id;
      count := count + 1;
      return true;
    }

    method Pop() returns (slot: Option<int>)
      requires Valid()
      modifies this
      ensures Valid()
      ensures old(Contents()) == [] ==> slot == None && Contents() == []
      ensures old(Contents()) != [] ==>
        slot.Some? && old(Contents()) == Contents() + [slot.value]
    {
      if count == 0 {
        return None;
      }
      count := count - 1;
      return Some(slab[count]);
    }

    method Clear()
      requires Valid()
      modifies this
      ensures Valid() && Contents() == []
    {
      count := 0;
    }
  }

  /** All per-CPU caches: sixteen slots and a count each. */
  class PerCpuCaches {
    const slots: array2<int>
    const counts: array<int>
    ghost var Contents: seq<seq<int>>

    ghost predicate Valid()
      reads this, slots, counts
    {
      && slots.Length0 == counts.Length == |Contents| && slots.Length1 == CACHE_SIZE
      && (forall c :: 0 <= c < counts.Length ==> 0 <= counts[c] == |Contents[c]| <= CACHE_SIZE)
      && (forall c, i :: 0 <= c < counts.Length && 0 <= i < counts[c] ==> slots[c, i] == Contents[c][i])
    }

    constructor (cacheCount: nat)
      ensures Valid() && Contents == Repeat([], cacheCount) && fresh(slots) && fresh(counts)
    {
      slots := new int[cacheCount, CACHE_SIZE]((i, j) => 0);
      counts := new int[cacheCount](i => 0);
      Contents := Repeat([], cacheCount);
    }

    method PutInternal(c: nat, id: int) returns (ok: bool)
      requires Valid() && c < |Contents|
      modifies this, slots, counts
      ensures Valid()
      ensures ok <==> |old(Contents)[c]| < 16
      ensures Contents == if ok then old(Contents)[c := old(Contents)[c] + [id]] else old(Contents)
    {
      var count := counts[c];
      if count >= CACHE_SIZE {
        return false;
      }
      slots[c, count] := id;
      counts[c] := count + 1;
      Contents := Contents[c := Contents[c] + [id]];
      return true;
    }

    method Put(id: int, draw: nat) returns (ok: bool)
      requires Valid() && |Contents| > 0
      modifies this, slots, counts
      ensures Valid()
      ensures ok <==> |old(Contents)[CacheIndex(draw, |old(Contents)|)]| < 16
      ensures var c := CacheIndex(draw, |old(Contents)|);
        Contents == if ok then old(Contents)[c := old(Contents)[c] + [id]] else old(Contents)
    {
      ok := PutInternal(CacheIndex(draw, counts.Length), id);
    }

    /** Pop from the drawn cache, or refill it with one ID from the stack and hand out that
        same ID. */
    method Get(stack: IndexedFreeStack, draw: nat) returns (slot: Option<int>)
      requires Valid() && stack.Valid() && |Contents| > 0 && stack.slab != counts
      modifies this, slots, counts, stack
      ensures Valid() && stack.Valid()
      ensures (Contents, stack.Contents(), slot) == CacheStep(old(Contents), old(stack.Contents()), draw)
    {
      var c := CacheIndex(draw, counts.Length);
      var count := counts[c];
      if count > 0 {
        counts[c] := count - 1;
        Contents := Contents[c := Contents[c][..count - 1]];
        return Some(slots[c, count - 1]);
      }
      slot := stack.Pop();
      if slot.Some? {
        assert old(stack.Contents())[|old(stack.Contents())| - 1] == slot.value;
        var cached := PutInternal(c, slot.value);
        // The cache was empty, so there was room.
        if !cached {
          assert false;
        }
      }
    }

    method Clear()
      requires Valid()
      modifies this, counts
      ensures Valid() && Contents == Repeat([], |old(Contents)|)
    {
      for i := 0 to counts.Length
        invariant |Contents| == |old(Contents)| && Valid()
        invariant forall c :: 0 <= c < i ==> Contents[c] == []
      {
        counts[i] := 0;
        Contents := Contents[i := []];
      }
    }
  }

  /** A shard: its items with the top last, and its separately kept count. */
  datatype ColoredShard = ColoredShard(items: seq<int>, count: int)

  class ColoredShardedFreeList {
    const shards: array<ColoredShard>
    ghost var Contents: seq<seq<int>>

    ghost predicate Valid()
      reads this, shards
    {
      && COLOR_COUNT <= shards.Length == |Contents| && shards.Length % COLOR_COUNT == 0
      && (forall j :: 0 <= j < shards.Length ==> shards[j].items == Contents[j] && shards[j].count == |Contents[j]|)
    }

    constructor (capacity: nat, rows: nat, alignedSize: nat)
      requires capacity <= MAX_INT32 && rows > 0 && alignedSize % 32 == 0
      ensures Valid() && fresh(shards) && Contents == Distributed(capacity, rows, alignedSize)
    {
      shards := new ColoredShard[rows * COLOR_COUNT](_ => ColoredShard([], 0));
      Contents := Distributed(0, rows, alignedSize);
      new;
      for i := 0 to capacity
        invariant Valid() && Contents == Distributed(i, rows, alignedSize)
      {
        ColorIsZero(i, alignedSize);
        PlacementsAgreeExactlyWhen(i, rows, alignedSize);
        Push(IndexAtNew(i, rows, alignedSize), i);
      }
    }

    method Push(j: nat, id: int)
      requires Valid() && j < |Contents|
      modifies this, shards
      ensures Valid() && Contents == old(Contents)[j := old(Contents)[j] + [id]]
    {
      shards[j] := ColoredShard(shards[j].items + [id], shards[j].count + 1);
      Contents := Contents[j := Contents[j] + [id]];
    }

    method TryPop(j: nat) returns (slot: Option<int>)
      requires Valid() && j < |Contents|
      modifies this, shards
      ensures Valid()
      ensures old(Contents)[j] == [] ==> slot == None && Contents == old(Contents)
      ensures old(Contents)[j] != [] ==> Popped(old(Contents), j, slot, Contents)
    {
      if shards[j].count <= 0 {
        return None;
      }
      var n := |shards[j].items|;
      slot := Some(shards[j].items[n - 1]);
      shards[j] := ColoredShard(shards[j].items[..n - 1], shards[j].count - 1);
      Contents := Contents[j := Contents[j][..n - 1]];
    }

    /** What popping according to a probe result means. */
    ghost predicate PopsAt(before: seq<seq<int>>, found: Option<nat>, slot: Option<int>)
      reads this
    {
      if found.None? then slot == None && Contents == before
      else Popped(before, found.value, slot, Contents)
    }

    /** The inner loop of Get: all rows of one colour. */
    method TryColor(start: nat, color: nat) returns (slot: Option<int>)
      requires Valid() && color < COLOR_COUNT
      modifies this, shards
      ensures Valid() && PopsAt(old(Contents), ProbeRows(old(Contents), start, color, 0), slot)
    {
      for attempt := 0 to shards.Length
        invariant Valid() && Contents == old(Contents)
        invariant ProbeRows(Contents, start, color, 0) == ProbeRows(Contents, start, color, attempt)
      {
        var j := And(start + attempt, shards.Length / COLOR_COUNT - 1) * COLOR_COUNT + color;
        assert j == ShardAt(Contents, start, attempt, color);
        slot := TryPop(j);
        if slot.Some? {
          return;
        }
      }
      return None;
    }

    /** The last loop of Get: the first row of the array by position. */
    method TryAny(start: nat) returns (slot: Option<int>)
      requires Valid()
      modifies this, shards
      ensures Valid() && PopsAt(old(Contents), ProbeAny(old(Contents), start, 0), slot)
    {
      for attempt := 0 to shards.Length
        invariant Valid() && Contents == old(Contents)
        invariant ProbeAny(Contents, start, 0) == ProbeAny(Contents, start, attempt)
      {
        slot := TryPop(And(start + attempt, shards.Length / COLOR_COUNT - 1));
        if slot.Some? {
          return;
        }
      }
      return None;
    }

    /** Pop from the first non-empty shard in probing order. */
    method Get(draw: nat, lastColor: nat) returns (slot: Option<int>)
      requires Valid()
      modifies this, shards
      ensures Valid() && PopsAt(old(Contents), FindShard(old(Contents), draw, lastColor), slot)
    {
      hide ProbeRows, ProbeAny, And, ProbeColor;
      var start := And(draw, shards.Length / COLOR_COUNT - 1);
      for colorAttempt := 0 to COLOR_COUNT
        invariant Valid() && Contents == old(Contents)
        invariant ProbeColors(Contents, start, lastColor, 0) == ProbeColors(Contents, start, lastColor, colorAttempt)
      {
        slot := TryColor(start, ProbeColor(lastColor, colorAttempt));
        if slot.Some? {
          return;
        }
      }
      slot := TryAny(start);
    }

    method Put(id: int, alignedSize: nat)
      requires Valid() && 0 <= id <= MAX_INT32
      modifies this, shards
      ensures Valid()
      ensures var home := IndexAtPut(id, |old(Contents)|, alignedSize);
        Contents == old(Contents)[home := old(Contents)[home] + [id]]
    {
      Push(IndexAtPut(id, shards.Length, alignedSize), id);
    }

    /** The part of the allocator's Reset that concerns the shards. */
    method Redistribute(capacity: nat, alignedSize: nat)
      requires Valid() && capacity <= MAX_INT32
      modifies this, shards
      ensures Valid() && Contents == Distributed(capacity, |old(Contents)| / COLOR_COUNT, alignedSize)
    {
      ghost var rows := shards.Length / COLOR_COUNT;
      for j := 0 to shards.Length
        invariant Valid() && |Contents| == |old(Contents)|
        invariant forall k :: 0 <= k < j ==> Contents[k] == []
      {
        shards[j] := ColoredShard([], 0);
        Contents := Contents[j := []];
      }
      assert Contents == Distributed(0, rows, alignedSize);
      for i := 0 to capacity
        invariant Valid() && Contents == Distributed(i, rows, alignedSize)
      {
        PlacementsAgreeExactlyWhen(i, rows, alignedSize);
        Push(IndexAtReset(i, shards.Length, alignedSize), i);
      }
    }
  }

  ghost predicate Popped(before: seq<seq<int>>, j: nat, slot: Option<int>, after: seq<seq<int>>) {
    && j < |before| && before[j] != []
    && slot == Some(before[j][|before[j]| - 1])
    && after == before[j := before[j][..|before[j]| - 1]]
  }
}
