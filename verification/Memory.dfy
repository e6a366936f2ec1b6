/** The byte pool: windows of slabs, clearing and writing. */
module Memory {
  import opened Layout
  import opened Wrappers

  newtype byte = x: int | 0 <= x < 256

  /** Where slabs lie in the pool. */
  datatype Geometry = Geometry(capacity: nat, slabSize: nat, alignedSize: nat)

  ghost predicate Sound(g: Geometry) {
    0 < g.slabSize <= g.alignedSize
  }

  function Offset(g: Geometry, id: nat): nat {
    id * g.alignedSize
  }

  ghost predicate Fits(g: Geometry, m: seq<byte>) {
    Sound(g) && |m| == g.alignedSize * g.capacity
  }

  lemma OffsetInside(g: Geometry, m: seq<byte>, id: nat)
    requires Fits(g, m) && id < g.capacity
    ensures Offset(g, id) + g.slabSize <= |m|
  {
    WindowInside(id, g.alignedSize, g.slabSize, g.capacity);
  }

  /** getSlabBytes */
  ghost function Window(g: Geometry, m: seq<byte>, id: nat): (w: seq<byte>)
    requires Fits(g, m) && id < g.capacity
    ensures |w| == g.slabSize
  {
    OffsetInside(g, m, id);
    m[Offset(g, id)..Offset(g, id) + g.slabSize]
  }

  ghost predicate AllZero(w: seq<byte>) {
    forall i :: 0 <= i < |w| ==> w[i] == 0
  }

  ghost function Cleared(m: seq<byte>, lo: nat, n: nat): (r: seq<byte>)
    requires lo + n <= |m|
    ensures |r| == |m|
  {
    m[..lo] + Repeat(0, n) + m[lo + n..]
  }

  /** zeroSlabMemory's clearing of a slice: slabs over 1024 bytes go in chunks of 64, smaller
      ones byte by byte; both clear exactly the slice. */
  method ClearSlice(pool: array<byte>, lo: nat, n: nat)
    requires lo + n <= pool.Length
    modifies pool
    ensures pool[..] == Cleared(old(pool[..]), lo, n)
  {
    if n > 1024 {
      var i := 0;
      while i < n
        invariant ClearedSoFar(old(pool[..]), pool[..], lo, if i < n then i else n)
        decreases n - i
      {
        var end := if i + 64 > n then n else i + 64;
        for j := i to end
          invariant ClearedSoFar(old(pool[..]), pool[..], lo, j)
        {
          pool[lo + j] := 0;
        }
        i := i + 64;
      }
    } else {
      for i := 0 to n
        invariant ClearedSoFar(old(pool[..]), pool[..], lo, i)
      {
        pool[lo + i] := 0;
      }
    }
  }

  ghost predicate ClearedSoFar(was: seq<byte>, now: seq<byte>, lo: nat, n: nat) {
    |now| == |was| && forall k :: 0 <= k < |now| ==> now[k] == if lo <= k < lo + n then 0 else was[k]
  }

  /** zeroSlabMemory */
  ghost function Zero(g: Geometry, m: seq<byte>, id: nat): (r: seq<byte>)
    requires Fits(g, m) && id < g.capacity
    ensures Fits(g, r)
  {
    OffsetInside(g, m, id);
    Cleared(m, Offset(g, id), g.slabSize)
  }

  ghost function ZeroIf(secure: bool, g: Geometry, m: seq<byte>, id: nat): (r: seq<byte>)
    requires Fits(g, m) && id < g.capacity
    ensures Fits(g, r)
  {
    if secure then Zero(g, m, id) else m
  }

  /** Clearing slabs 0..n-1. */
  ghost function ZeroFirst(g: Geometry, m: seq<byte>, n: nat): (r: seq<byte>)
    requires Fits(g, m) && n <= g.capacity
    ensures Fits(g, r)
  {
    if n == 0 then m else Zero(g, ZeroFirst(g, m, n - 1), n - 1)
  }

  /** A caller stores one byte through the slice of a slab. */
  ghost function Store(g: Geometry, m: seq<byte>, id: nat, i: nat, v: byte): (r: seq<byte>)
    requires Fits(g, m) && id < g.capacity && i < g.slabSize
    ensures Fits(g, r)
  {
    OffsetInside(g, m, id);
    m[Offset(g, id) + i := v]
  }

  lemma ClearedParts(m: seq<byte>, lo: nat, n: nat, a: nat, len: nat)
    requires lo + n <= |m| && a + len <= |m|
    ensures a == lo && len == n ==> AllZero(Cleared(m, lo, n)[a..a + len])
    ensures a + len <= lo || lo + n <= a ==> Cleared(m, lo, n)[a..a + len] == m[a..a + len]
  {
  }

  /** Clearing a slab changes no byte outside its window. */
  lemma ZeroSparesTheRest(g: Geometry, m: seq<byte>, id: nat, k: nat)
    requires Fits(g, m) && id < g.capacity && k < |m| && (k < id * g.alignedSize || id * g.alignedSize + g.slabSize <= k)
    ensures Zero(g, m, id)[k] == m[k]
  {
    OffsetInside(g, m, id);
  }

  /** Clearing a slab clears its window and no other. */
  lemma ZeroIsLocal(g: Geometry, m: seq<byte>, id: nat, other: nat)
    requires Fits(g, m) && id < g.capacity && other < g.capacity
    ensures AllZero(Window(g, Zero(g, m, id), id))
    ensures other != id ==> Window(g, Zero(g, m, id), other) == Window(g, m, other)
  {
    OffsetInside(g, m, id);
    OffsetInside(g, m, other);
    if other < id {
      WindowsDisjoint(other, id, g.alignedSize);
    } else if id < other {
      WindowsDisjoint(id, other, g.alignedSize);
    }
    ClearedParts(m, Offset(g, id), g.slabSize, Offset(g, id), g.slabSize);
    ClearedParts(m, Offset(g, id), g.slabSize, Offset(g, other), g.slabSize);
    hide Cleared, AllZero;
  }

  /** Storing through one slab changes that byte of its window and no other window. */
  lemma StoreIsLocal(g: Geometry, m: seq<byte>, id: nat, i: nat, v: byte, other: nat)
    requires Fits(g, m) && id < g.capacity && i < g.slabSize && other < g.capacity
    ensures Window(g, Store(g, m, id, i, v), id) == Window(g, m, id)[i := v]
    ensures other != id ==> Window(g, Store(g, m, id, i, v), other) == Window(g, m, other)
  {
    OffsetInside(g, m, id);
    OffsetInside(g, m, other);
    if other < id {
      WindowsDisjoint(other, id, g.alignedSize);
    } else if id < other {
      WindowsDisjoint(id, other, g.alignedSize);
    }
  }

  lemma {:induction false} ZeroFirstClears(g: Geometry, m: seq<byte>, n: nat, id: nat)
    requires Fits(g, m) && id < n <= g.capacity
    ensures AllZero(Window(g, ZeroFirst(g, m, n), id))
  {
    ZeroIsLocal(g, ZeroFirst(g, m, n - 1), n - 1, id);
    if id < n - 1 {
      ZeroFirstClears(g, m, n - 1, id);
    }
  }

  lemma WindowOfZeros(g: Geometry, m: seq<byte>, id: nat)
    requires Fits(g, m) && id < g.capacity && AllZero(m)
    ensures AllZero(Window(g, m, id))
  {
    OffsetInside(g, m, id);
  }
}
