/** The handle allocator object over the slab allocator object. */
module HandleObject {
  import opened Bits
  import opened SlabbyObject
  import opened Wrappers
  import opened HandleAnswers
  import A = Allocator
  import H = Handles
  import M = Memory

  /** A handle: a packed generation and slab, and the allocator that issued it, if any. */
  datatype Handle = Handle(id: nat, allocator: HandleAllocator?) {
    function ID(): int {
      H.SlabOf(id)
    }

    function Generation(): nat {
      H.GenerationOf(id)
    }

    predicate IsValid() {
      id != 0 && allocator != null
    }
  }

  class HandleAllocator {
    const slab: Slabby
    const generations: array<nat>
    var stats: H.Stats

    ghost function Footprint(): set<object>
      reads this
    {
      {this, generations, slab.refPool} + slab.Footprint()
    }

    /** No object is part of both levels, and no reference was ever given back. */
    ghost predicate Parts()
      reads this, Footprint()
    {
      var me: object, counters: object, pool: object := this, generations, slab.refPool;
      && me !in slab.Footprint() && counters !in slab.Footprint() && pool !in slab.Footprint()
      && slab.Valid() && slab.refPool.items == {}
    }

    ghost function State(): H.State
      requires Parts()
      reads this, Footprint()
    {
      H.State(slab.State(), generations[..], stats)
    }

    ghost predicate Valid()
      reads this, Footprint()
    {
      Parts() && H.Shaped(slab.config, State())
    }

    constructor (config: A.Config, secure: bool)
      requires A.ValidConfig(config) && !config.fallback
      ensures Valid() && fresh(Footprint()) && slab.config == config
      ensures State() == H.New(config, secure)
    {
      hide A.Shaped, A.New, A.ValidConfig, Slabby.Valid;
      slab := new Slabby(config, secure);
      var counters := NewArray<nat>(config.geometry.capacity, 0);
      generations := counters;
      stats := H.Stats(0, 0, 0, 0);
    }

    /** AllocateFast of the slab allocator leaves the handle level alone. */
    method ClaimFast(o: A.Outside) returns (r: Result<int, A.Error>)
      requires Parts() && H.Shaped(slab.config, State())
      modifies slab.Footprint()
      ensures Parts()
      ensures var (s, got) := A.AllocateFast(slab.config, old(slab.State()), o);
        State() == old(State()).(slab := s) && r == got
      ensures r.Success? ==> 0 <= r.value < generations.Length
    {
      H.SizesMatch(slab.config, State());
      hide A.AllocateFast, A.Shaped, Slabby.Valid;
      A.AllocateFastClaims(slab.config, slab.State(), o);
      r := slab.AllocateFast(o);
    }

    /** Allocate of the slab allocator leaves the handle level alone. */
    method ClaimRef(o: A.Outside) returns (r: Result<SlabRef, A.Error>)
      requires Parts()
      modifies slab.Footprint(), slab.refPool
      ensures Parts()
      ensures var (s, got) := A.Allocate(slab.config, old(slab.State()), o);
        && State() == old(State()).(slab := s)
        && (got.Failure? ==> r == Failure(got.error))
        && (got.Success? ==> r.Success? && r.value.Backing() == got.value)
    {
      hide A.Allocate, A.Shaped, Slabby.Valid;
      r := slab.Allocate(o, null);
    }

    /** The same, reduced to the reference's slab. */
    method ClaimSlow(o: A.Outside) returns (r: Result<int, A.Error>)
      requires Parts() && H.Shaped(slab.config, State())
      modifies slab.Footprint(), slab.refPool
      ensures Parts()
      ensures var (s, got) := A.Allocate(slab.config, old(slab.State()), o);
        && State() == old(State()).(slab := s)
        && r == (match got case Success(b) => Success(b.id) case Failure(e) => Failure(e))
      ensures r.Success? ==> 0 <= r.value < generations.Length
    {
      H.SizesMatch(slab.config, State());
      A.AllocateClaims(slab.config, slab.State(), o);
      hide A.Allocate, A.Shaped, H.Shaped, Parts;
      var ref := ClaimRef(o);
      if ref.Failure? {
        return Failure(ref.error);
      }
      return Success(ref.value.slabID);
    }

    /** Add one to the generation of a slab, wrapping at 2^32. */
    method BumpGeneration(id: int) returns (generation: nat)
      requires Parts() && 0 <= id < generations.Length
      modifies generations
      ensures Parts() && State() == old(State()).(generations := H.Bump(old(State()).generations, id))
      ensures generation == State().generations[id]
    {
      hide Slabby.Valid;
      generations[id] := (generations[id] + 1) % TWO_32;
      generation := generations[id];
    }

    method Record(s: H.Stats)
      requires Parts()
      modifies this
      ensures Parts() && State() == old(State()).(stats := s)
    {
      hide Slabby.Valid;
      stats := s;
    }

    /** The handle, or the error, that stands for the outcome of the specification. */
    ghost predicate Answers(r: Result<Handle, H.Error>, got: Result<nat, H.Error>) {
      match got
      case Success(id) => r == Success(Handle(id, this))
      case Failure(e) => r == Failure(e)
    }

    lemma Settled(s: H.State)
      requires Parts() && State() == s && H.Shaped(slab.config, s)
      ensures Valid()
    {
    }

    /** A handle for slab id was handed out, leaving state s1. */
    ghost predicate Issued(s: H.State, claimed: A.State, id: int, counted: nat, s1: H.State, h: Option<Handle>) {
      && 0 <= id < |s.generations|
      && var r := H.HandOut(s, claimed, id, counted);
         s1 == r.0 && h == Some(Handle(r.1.value, this))
    }

    lemma IssuedNow(s: H.State, id: int, counted: nat, count: nat, s1: H.State, h: Option<Handle>)
      requires 0 <= id < |s.generations| && count == s.stats.allocations + counted
      requires s1 == H.State(s.slab, H.Bump(s.generations, id), s.stats.(allocations := count))
      requires h == Some(Handle(H.Pack(s1.generations[id], id), this))
      ensures Issued(s, s.slab, id, counted, s1, h)
    {
    }

    /** The fast path: claim, bump, count. */
    method FastHandle(o: A.Outside) returns (h: Option<Handle>)
      requires Parts() && H.Shaped(slab.config, State())
      modifies Footprint()
      ensures Parts()
      ensures var (s, got) := A.AllocateFast(slab.config, old(slab.State()), o);
        && (got.Success? ==> Issued(old(State()), s, got.value, 1, State(), h))
        && (got.Failure? ==> State() == old(State()).(slab := s) && h == None)
    {
      H.SizesMatch(slab.config, State());
      hide A.AllocateFast, A.Shaped, H.Shaped, Slabby.Valid;
      var fast := ClaimFast(o);
      if fast.Failure? {
        return None;
      }
      hide Valid;
      hide Issued;
      ghost var s0 := State();
      var generation := BumpGeneration(fast.value);
      var count := stats.allocations + 1;
      Record(stats.(allocations := count));
      h := Some(Handle(H.Pack(generation, fast.value), this));
      IssuedNow(s0, fast.value, 1, count, State(), h);
    }

    /** The slow path: not counted. */
    method SlowHandle(o: A.Outside) returns (r: Result<Handle, A.Error>)
      requires Parts() && H.Shaped(slab.config, State())
      modifies Footprint()
      ensures Parts()
      ensures var (s, got) := A.Allocate(slab.config, old(slab.State()), o);
        && (got.Success? ==> r.Success? && Issued(old(State()), s, got.value.id, 0, State(), Some(r.value)))
        && (got.Failure? ==> State() == old(State()).(slab := s) && r == Failure(got.error))
    {
      H.SizesMatch(slab.config, State());
      hide A.Allocate, A.Shaped, H.Shaped, Slabby.Valid;
      var slow := ClaimSlow(o);
      if slow.Failure? {
        return Failure(slow.error);
      }
      hide Valid;
      var generation := BumpGeneration(slow.value);
      return Success(Handle(H.Pack(generation, slow.value), this));
    }

    method AllocateHandle(o1: A.Outside, o2: A.Outside) returns (r: Result<Handle, H.Error>)
      requires Valid()
      modifies Footprint()
      ensures Valid()
      ensures var (s, got) := H.AllocateHandle(slab.config, old(State()), o1, o2);
        State() == s && Answers(r, got)
      ensures r.Success? && H.EvenWhenFree(old(State())) ==> r.value.IsValid()
    {
      ghost var s := H.AllocateHandle(slab.config, State(), o1, o2).0;
      H.SizesMatch(slab.config, State());
      if H.EvenWhenFree(State()) {
        H.NewHandleIsOdd(slab.config, State(), o1, o2);
      }
      H.AllocateHandleUnfolds(slab.config, State(), o1, o2);
      hide A.AllocateFast, A.Allocate, H.AllocateHandle, Slabby.Valid, A.Shaped;
      var fast := FastHandle(o1);
      if fast.Some? {
        Settled(s);
        return Success(fast.value);
      }
      var slow := SlowHandle(o2);
      hide H.Shaped;
      Settled(s);
      if slow.Failure? {
        return Failure(H.SlabError(slow.error));
      }
      return Success(slow.value);
    }

    /** DeallocateFast of the slab allocator leaves the handle level alone. */
    method Release(id: int, draw: nat) returns (error: Option<A.Error>)
      requires Parts()
      modifies slab.Footprint()
      ensures Parts()
      ensures var (s, e) := A.DeallocateFast(slab.config, old(slab.State()), id, draw);
        State() == old(State()).(slab := s) && error == e
    {
      hide A.DeallocateFast, A.Shaped, Slabby.Valid;
      error := slab.DeallocateFast(id, draw);
    }

    /** The part of FreeHandle after the generation matched. */
    method Invalidate(id: int, draw: nat) returns (error: Option<A.Error>)
      requires Parts() && 0 <= id < generations.Length
      modifies Footprint()
      ensures Parts()
      ensures var s := old(State());
        var (s1, e) := A.DeallocateFast(slab.config, s.slab, id, draw);
        var n := if e.None? then s.stats.deallocations + 1 else s.stats.deallocations;
        error == e && State() == H.State(s1, H.Bump(s.generations, id), s.stats.(deallocations := n))
    {
      hide A.DeallocateFast, A.Shaped, H.Shaped, Slabby.Valid, H.Bump;
      var _ := BumpGeneration(id);
      error := Release(id, draw);
      if error.None? {
        var count := stats.deallocations + 1;
        Record(stats.(deallocations := count));
      }
    }

    /** The handle is one of this allocator, its generation is the stored one, and its slab is
        in use. */
    ghost predicate Frees(h: Handle)
      requires Valid()
      reads this, Footprint()
    {
      && h.allocator == this && 0 <= h.ID() < generations.Length == slab.inUse.Length
      && h.Generation() == generations[h.ID()] && slab.inUse[h.ID()]
    }

    lemma FreesExactly(h: Handle, draw: nat)
      requires Valid()
      ensures var e := H.FreeHandle(slab.config, State(), h.id, h.allocator == this, draw).1;
        && (e == Some(H.InvalidHandle) <==> h.allocator != this || !(0 <= h.ID() < slab.config.geometry.capacity))
        && (e == None <==> Frees(h))
    {
      FreeHandleAnswers(slab.config, State(), h.id, h.allocator == this, draw);
      H.SizesMatch(slab.config, State());
      hide A.Shaped, H.Shaped, H.FreeHandle, H.SlabOf, H.GenerationOf;
    }

    method FreeHandle(h: Handle, draw: nat) returns (error: Option<H.Error>)
      requires Valid()
      modifies Footprint()
      ensures Valid()
      ensures (State(), error) == H.FreeHandle(slab.config, old(State()), h.id, h.allocator == this, draw)
      ensures error == Some(H.InvalidHandle) <==> h.allocator != this || !(0 <= h.ID() < slab.config.geometry.capacity)
      ensures error == None <==> old(Frees(h))
    {
      FreesExactly(h, draw);
      ghost var s := H.FreeHandle(slab.config, State(), h.id, h.allocator == this, draw).0;
      H.SizesMatch(slab.config, State());
      H.FreeHandleUnfolds(slab.config, State(), h.id, draw);
      hide A.DeallocateFast, A.Shaped, H.Shaped, Slabby.Valid, H.SlabOf, H.GenerationOf, H.FreeHandle, H.Bump;
      var id := h.ID();
      if h.allocator != this || id < 0 || id >= slab.config.geometry.capacity {
        return Some(H.InvalidHandle);
      }
      hide Valid;
      if h.Generation() != generations[id] {
        var count := stats.genMismatches + 1;
        Record(stats.(genMismatches := count));
        Settled(s);
        return Some(H.StaleHandle);
      }
      var failure := Invalidate(id, draw);
      Settled(s);
      return if failure.Some? then Some(H.SlabError(failure.value)) else None;
    }

    /** A handle of this allocator, not the zero handle's nil or another one, and of one of its
        slabs. */
    predicate Owns(h: Handle) {
      h.allocator == this && 0 <= h.ID() < slab.config.geometry.capacity
    }

    /** The bytes of the slab a handle names, if it is one of this allocator and its generation
        is the stored one; a stale access is counted. */
    method GetBytes(h: Handle) returns (r: Result<seq<M.byte>, H.Error>)
      requires Valid()
      modifies this
      ensures Valid() && generations.Length == slab.config.geometry.capacity
      ensures r == Failure(H.InvalidHandle) <==> h.allocator != this || !(0 <= h.ID() < slab.config.geometry.capacity)
      ensures r == Failure(H.StaleHandle) <==> Owns(h) && h.Generation() != generations[h.ID()]
      ensures r.Success? <==> Owns(h) && h.Generation() == generations[h.ID()]
      ensures r.Success? ==> r.value == M.Window(slab.config.geometry, slab.State().memory, h.ID())
      ensures State() == old(State()).(stats := stats)
      ensures stats.staleAccesses == old(stats.staleAccesses) + if r == Failure(H.StaleHandle) then 1 else 0
      ensures stats == old(stats).(staleAccesses := stats.staleAccesses)
      ensures var (s, got) := H.GetBytes(slab.config, old(State()), h.id, h.allocator == this);
        && State() == s
        && (got.Failure? ==> r == Failure(got.error))
        && (got.Success? ==>
              A.IsSlab(slab.config, got.value)
              && r == Success(M.Window(slab.config.geometry, slab.State().memory, got.value)))
    {
      H.SizesMatch(slab.config, State());
      hide A.Shaped, Slabby.Parts, M.Window;
      var id := h.ID();
      if h.allocator != this || id < 0 || id >= slab.config.geometry.capacity {
        return Failure(H.InvalidHandle);
      }
      if h.Generation() != generations[id] {
        stats := stats.(staleAccesses := stats.staleAccesses + 1);
        return Failure(H.StaleHandle);
      }
      var bytes := SlabBytes(id);
      return Success(bytes);
    }

    /** The window of a slab in the byte pool. */
    method SlabBytes(id: nat) returns (bytes: seq<M.byte>)
      requires Parts() && A.IsSlab(slab.config, id)
      ensures bytes == M.Window(slab.config.geometry, slab.State().memory, id)
    {
      var from := id * slab.config.geometry.alignedSize;
      M.OffsetInside(slab.config.geometry, slab.memoryPool[..], id);
      return slab.memoryPool[from..from + slab.config.geometry.slabSize];
    }
  }

  /** After every run, every issued handle is valid, with the odd generation of its
      allocation and the slab it was issued for. */
  lemma IssuedIsValid(cfg: A.Config, secure: bool, ops: seq<H.Op>, k: nat, allocator: HandleAllocator)
    requires A.ValidConfig(cfg) && !cfg.fallback && k < |H.Run(cfg, secure, ops).issued|
    ensures var issue := H.Run(cfg, secure, ops).issued[k];
      var h := Handle(issue.id, allocator);
      h.IsValid() && h.ID() == issue.slab && h.Generation() % 2 == 1
  {
    hide H.Run, H.Good, H.SlabOf, H.GenerationOf, A.ValidConfig;
    H.EveryRunGood(cfg, secure, ops);
    H.IssueUnpacks(H.Run(cfg, secure, ops), k);
  }
}
