/** What each call through a handle answers, whoever made the handle, and what it leaves
    behind, said of the state before it. */
module HandleAnswers {
  import opened Bits
  import opened Answers
  import opened Handles
  import opened Wrappers
  import A = Allocator

  /** The handle was made by this allocator and names one of its slabs. */
  ghost predicate Mine(cfg: A.Config, id: nat, mine: bool) {
    mine && 0 <= SlabOf(id) < cfg.geometry.capacity
  }

  /** Its generation is the one stored for that slab. */
  ghost predicate Current(cfg: A.Config, s: State, id: nat, mine: bool)
    requires Shaped(cfg, s)
  {
    Mine(cfg, id, mine) && GenerationOf(id) == s.generations[SlabOf(id)]
  }

  /** The generation of one slab is one more, as a uint32. */
  ghost function Moved(generations: seq<nat>, slab: int): (r: seq<nat>)
    requires 0 <= slab < |generations|
  {
    generations[slab := if generations[slab] == 0xFFFF_FFFF then 0 else generations[slab] + 1]
  }

  lemma GetBytesAnswers(cfg: A.Config, s: State, id: nat, mine: bool)
    requires Shaped(cfg, s)
    ensures var (s1, r) := GetBytes(cfg, s, id, mine);
      && (r == Failure(InvalidHandle) <==> !Mine(cfg, id, mine))
      && (r == Failure(StaleHandle) <==> Mine(cfg, id, mine) && !Current(cfg, s, id, mine))
      && (forall slab :: r == Success(slab) <==> Current(cfg, s, id, mine) && slab == SlabOf(id))
      && s1 == s.(stats := s1.stats)
      && s1.stats == s.stats.(staleAccesses := s.stats.staleAccesses + if r == Failure(StaleHandle) then 1 else 0)
  {
    hide A.Shaped, SlabOf, GenerationOf;
  }

  /** A foreign handle, a handle of no slab and a stale one leave slab and generation alone; a
      current one moves the generation on, and its slab is given back if it is in use. */
  lemma FreeHandleAnswers(cfg: A.Config, s: State, id: nat, mine: bool, draw: nat)
    requires Shaped(cfg, s)
    ensures var (s1, e) := FreeHandle(cfg, s, id, mine, draw);
      var current := Current(cfg, s, id, mine);
      && (e == Some(InvalidHandle) <==> !Mine(cfg, id, mine))
      && (e == Some(StaleHandle) <==> Mine(cfg, id, mine) && !current)
      && (e == Some(SlabError(A.DoubleDeallocation)) <==> current && !s.slab.pools.inUse[SlabOf(id)])
      && (e == None <==> current && s.slab.pools.inUse[SlabOf(id)])
      && s1.generations == (if current then Moved(s.generations, SlabOf(id)) else s.generations)
      && (if e == None then GivenBack(cfg, s.slab, SlabOf(id), s1.slab) else s1.slab == s.slab)
      && s1.stats == s.stats.(deallocations := s.stats.deallocations + (if e == None then 1 else 0),
                              genMismatches := s.stats.genMismatches + (if e == Some(StaleHandle) then 1 else 0))
  {
    SizesMatch(cfg, s);
    FreeHandleUnfolds(cfg, s, id, draw);
    hide Shaped, A.Shaped, A.DeallocateFast, SlabOf, GenerationOf, GivenBack, FreeHandle, Bump, Moved;
    if Current(cfg, s, id, mine) {
      DeallocateFastAnswers(cfg, s.slab, SlabOf(id), draw);
      BumpMoves(s.generations, SlabOf(id));
    }
  }

  lemma BumpMoves(generations: seq<nat>, slab: int)
    requires 0 <= slab < |generations| && generations[slab] < TWO_32
    ensures Bump(generations, slab) == Moved(generations, slab)
  {
    var g := generations[slab];
    if g + 1 < TWO_32 {
      ModIsUnique(g + 1, TWO_32, 0, g + 1);
    } else {
      ModIsUnique(g + 1, TWO_32, 1, 0);
    }
  }

  /** A handle is made of a slab that was free and its next generation; a failure is the one of
      the plain allocation, and moves no generation. */
  lemma AllocateHandleAnswers(cfg: A.Config, s: State, o1: A.Outside, o2: A.Outside)
    requires Shaped(cfg, s)
    ensures var (s1, r) := AllocateHandle(cfg, s, o1, o2);
      var (fastState, fast) := A.AllocateFast(cfg, s.slab, o1);
      var slow := A.Allocate(cfg, fastState, o2).1;
      && (forall e :: r == Failure(e) <==> fast.Failure? && slow.Failure? && e == SlabError(slow.error))
      && (r.Success? ==>
            var slab := SlabOf(r.value);
            && 0 <= slab < |s.generations| && !s.slab.pools.inUse[slab]
            && s1.slab.pools.inUse == s.slab.pools.inUse[slab := true]
            && s1.generations == Moved(s.generations, slab)
            && GenerationOf(r.value) == s1.generations[slab])
      && (r.Failure? ==> s1.generations == s.generations && s1.slab.pools.inUse == s.slab.pools.inUse)
      && s1.stats == s.stats.(allocations := s.stats.allocations + if fast.Success? then 1 else 0)
  {
    SizesMatch(cfg, s);
    AllocateHandleUnfolds(cfg, s, o1, o2);
    A.AllocateFastClaims(cfg, s.slab, o1);
    A.AllocateClaims(cfg, A.AllocateFast(cfg, s.slab, o1).0, o2);
    hide A.Shaped, A.AllocateFast, A.Allocate, SlabOf, GenerationOf, Pack, AllocateHandle, Shaped;
    var (s1, r) := AllocateHandle(cfg, s, o1, o2);
    if A.AllocateFast(cfg, s.slab, o1).1.Success? {
      HandedOut(s, s1.slab, A.AllocateFast(cfg, s.slab, o1).1.value, 1);
    } else if r.Success? {
      HandedOut(s, s1.slab, A.Allocate(cfg, A.AllocateFast(cfg, s.slab, o1).0, o2).1.value.id, 0);
    }
  }

  lemma HandedOut(s: State, slab: A.State, id: int, counted: nat)
    requires 0 <= id < |s.generations| <= MAX_INT32 && forall i :: 0 <= i < |s.generations| ==> s.generations[i] < TWO_32
    ensures var (s1, r) := HandOut(s, slab, id, counted);
      && r.Success? && SlabOf(r.value) == id && GenerationOf(r.value) == s1.generations[id]
      && s1.generations == Moved(s.generations, id)
      && s1.slab == slab && s1.stats == s.stats.(allocations := s.stats.allocations + counted)
  {
    BumpMoves(s.generations, id);
    hide Pack, SlabOf, GenerationOf;
    PackUnpacks(Bump(s.generations, id)[id], id);
  }
}
