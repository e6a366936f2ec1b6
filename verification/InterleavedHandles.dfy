/** Any number of threads allocating and freeing through handles, over the interleaved slab
    allocator: the claim, each generation load and increment and each slab step are separate
    steps. Each issued handle is presented to FreeHandle at most once, and the slab
    allocator is used through handles only. */
module InterleavedHandles {
  import opened Bits
  import opened Layout
  import opened Wrappers
  import H = Handles
  import I = Interleaving

  // ---- Threads and shared memory ----

  datatype Pc =
    | Idle
    | InAllocate(fast: bool)   // inside AllocateFast, or inside Allocate after it failed
    | BumpNew(slab: int)       // slab claimed, generation not yet incremented
    | CheckFree(h: nat)        // about to compare the generation
    | BumpOld(h: nat)          // it matched, not yet incremented
    | InFree(h: nat)           // inside DeallocateFast

  datatype Thread = Thread(at: Pc, slab: I.Pc)

  /** Who is responsible for a slab in use: the thread that claimed it, the handle issued for
      it, or the thread that is freeing it. */
  datatype Owner = Nobody | Claimer(thread: nat) | Holder(h: nat) | Freer(thread: nat)

  /** Whether a handle was presented to FreeHandle, and whether that has invalidated it. */
  datatype Status = Unfreed | Presented(thread: nat) | Done

  /** Generations are uint32. Owners, statuses and the number of handles issued per slab are
      bookkeeping that no step reads, except that a handle is presented only once. */
  datatype Shared = Shared(
    slab: I.Shared, generations: seq<nat>, issued: seq<H.Issue>, failedFrees: nat,
    counts: seq<nat>, owner: seq<Owner>, status: seq<Status>)

  datatype Wish = WantAllocate | WantFree(h: nat)

  datatype Choice = Choice(slab: I.Choice, wish: Wish)

  // ---- The invariant ----

  ghost predicate Sizes(cfg: I.Config, g: Shared) {
    && I.ValidConfig(cfg) && I.GoodShared(cfg, g.slab)
    && |g.slab.inUse| == |g.generations| == |g.counts| == |g.owner| == cfg.capacity
    && |g.status| == |g.issued|
  }

  /** A slab is in use exactly when somebody is responsible for it; its generation is odd
      exactly when that is a handle; its claims are the handles issued, plus a pending one. */
  ghost predicate GoodSlab(cfg: I.Config, g: Shared, i: int)
    requires Sizes(cfg, g) && 0 <= i < cfg.capacity
  {
    && (g.slab.inUse[i] <==> g.owner[i] != Nobody)
    && g.generations[i] == H.Expected(g.counts[i], g.owner[i].Holder?)
    && I.Claims(g.slab.log, i) == g.counts[i] + (if g.owner[i].Claimer? then 1 else 0)
    && (g.owner[i].Holder? || g.owner[i].Freer? ==> g.counts[i] > 0)
    && (g.owner[i].Holder? ==>
          var h := g.owner[i].h;
          h < |g.issued| && g.issued[h].slab == i && g.issued[h].number == g.counts[i] && g.status[h] != Done)
  }

  /** Until FreeHandle invalidates it, a handle is responsible for its slab. */
  ghost predicate GoodHandle(cfg: I.Config, g: Shared, h: int)
    requires Sizes(cfg, g) && 0 <= h < |g.issued|
  {
    var issue := g.issued[h];
    && issue.slab < cfg.capacity && 0 < issue.number <= g.counts[issue.slab]
    && issue.id == H.Pack(H.Expected(issue.number, true), issue.slab)
    && (g.status[h] != Done ==> g.owner[issue.slab] == Holder(h))
    && (g.status[h] == Done && issue.number == g.counts[issue.slab] ==> !g.owner[issue.slab].Holder?)
  }

  ghost predicate FreePc(pc: I.Pc, slab: int) {
    || pc.Idle? || pc == I.FreeCas(slab)
    || pc.ReturnPut? || pc.StackPush? || pc.ShardPut? || pc.RecordFree? || pc == I.Freed(true)
  }

  ghost predicate Owns(g: Shared, slab: int, who: Owner) {
    0 <= slab < |g.owner| && g.owner[slab] == who
  }

  ghost predicate HasStatus(g: Shared, h: nat, s: Status) {
    h < |g.status| && g.status[h] == s
  }

  ghost predicate GoodThread(cfg: I.Config, g: Shared, t: nat, th: Thread) {
    && I.GoodPc(cfg, th.slab)
    && match th.at
       case Idle => th.slab.Idle?
       case InAllocate(_) =>
         && I.AllocatePc(th.slab)
         && (th.slab.RecordAlloc? ==> Owns(g, th.slab.id, Claimer(t)))
         && (th.slab.Allocated? && th.slab.slot.Some? ==> Owns(g, th.slab.slot.value, Claimer(t)))
       case BumpNew(slab) => th.slab.Idle? && Owns(g, slab, Claimer(t))
       case CheckFree(h) => th.slab.Idle? && HasStatus(g, h, Presented(t))
       case BumpOld(h) => th.slab.Idle? && HasStatus(g, h, Presented(t))
       case InFree(h) =>
         && HasStatus(g, h, Done) && h < |g.issued|
         && FreePc(th.slab, g.issued[h].slab)
         && (th.slab.Idle? || th.slab.FreeCas? ==> Owns(g, g.issued[h].slab, Freer(t)))
  }

  ghost predicate GoodGlobal(cfg: I.Config, g: Shared) {
    && Sizes(cfg, g) && g.failedFrees == 0 && I.Owned(g.slab)
    && (forall i :: 0 <= i < cfg.capacity ==> GoodSlab(cfg, g, i))
    && (forall h :: 0 <= h < |g.issued| ==> GoodHandle(cfg, g, h))
  }

  ghost predicate GoodThreads(cfg: I.Config, g: Shared, threads: seq<Thread>) {
    forall t :: 0 <= t < |threads| ==> GoodThread(cfg, g, t, threads[t])
  }

  // ---- One step ----

  /** A step of the slab allocator on behalf of thread t. */
  ghost function SlabStep(cfg: I.Config, g: Shared, th: Thread, t: nat, x: I.Choice): (Shared, Thread)
    requires Sizes(cfg, g) && I.GoodPc(cfg, th.slab)
  {
    var (slab, pc) := I.Act(cfg, g.slab, th.slab, t, x);
    var owner := match I.ChangeOf(g.slab, th.slab)
      case Same => g.owner
      case Took(id) => g.owner[id := Claimer(t)]
      case Gave(id) => g.owner[id := Nobody];
    (g.(slab := slab, owner := owner), th.(slab := pc))
  }

  /** The increment after a claim, and the handle made of it. */
  ghost function IssueStep(cfg: I.Config, g: Shared, slab: int): Shared
    requires Sizes(cfg, g) && 0 <= slab < cfg.capacity
  {
    var generations := H.Bump(g.generations, slab);
    var n := g.counts[slab] + 1;
    g.(generations := generations,
       issued := g.issued + [H.Issue(H.Pack(generations[slab], slab), slab, n)],
       counts := g.counts[slab := n],
       owner := g.owner[slab := Holder(|g.issued|)],
       status := g.status + [Unfreed])
  }

  /** The increment of a matching FreeHandle. */
  ghost function InvalidateStep(cfg: I.Config, g: Shared, h: nat, t: nat): Shared
    requires Sizes(cfg, g) && h < |g.issued| && 0 <= H.SlabOf(g.issued[h].id) < cfg.capacity
  {
    var slab := H.SlabOf(g.issued[h].id);
    g.(generations := H.Bump(g.generations, slab), owner := g.owner[slab := Freer(t)], status := g.status[h := Done])
  }

  ghost predicate Matches(cfg: I.Config, g: Shared, h: nat)
    requires Sizes(cfg, g) && h < |g.issued|
  {
    var id := g.issued[h].id;
    0 <= H.SlabOf(id) < cfg.capacity && H.GenerationOf(id) == g.generations[H.SlabOf(id)]
  }

  ghost function Act(cfg: I.Config, g: Shared, th: Thread, t: nat, x: Choice): (Shared, Thread)
    requires GoodGlobal(cfg, g) && GoodThread(cfg, g, t, th)
  {
    match th.at
    case Idle =>
      (match x.wish
       case WantAllocate => (g, Thread(InAllocate(true), I.Idle))
       case WantFree(h) =>
         if h < |g.issued| && g.status[h] == Unfreed then
           (g.(status := g.status[h := Presented(t)]), Thread(CheckFree(h), I.Idle))
         else (g, th))
    case InAllocate(fast) =>
      if th.slab.Allocated? then
        match th.slab.slot
        case Some(slab) => (g, Thread(BumpNew(slab), I.Idle))
        case None => (g, Thread(if fast then InAllocate(false) else Idle, I.Idle))
      else SlabStep(cfg, g, th, t, x.slab.(wish := if fast then I.WishAllocateFast else I.WishAllocate))
    case BumpNew(slab) => (IssueStep(cfg, g, slab), Thread(Idle, I.Idle))
    case CheckFree(h) =>
      if Matches(cfg, g, h) then (g, Thread(BumpOld(h), I.Idle))
      else (g.(failedFrees := g.failedFrees + 1), Thread(Idle, I.Idle))
    case BumpOld(h) =>
      HandleUnpacks(cfg, g, h);
      (InvalidateStep(cfg, g, h, t), Thread(InFree(h), I.Idle))
    case InFree(h) =>
      if th.slab.Freed? then
        (if th.slab.ok then g else g.(failedFrees := g.failedFrees + 1), Thread(Idle, I.Idle))
      else SlabStep(cfg, g, th, t, x.slab.(wish := I.WishDeallocateFast, id := H.SlabOf(g.issued[h].id)))
  }

  /** An issued handle unpacks to its slab, with the odd generation of its allocation. */
  lemma HandleUnpacks(cfg: I.Config, g: Shared, h: nat)
    requires GoodGlobal(cfg, g) && h < |g.issued|
    ensures var issue := g.issued[h];
      H.SlabOf(issue.id) == issue.slab < cfg.capacity && H.GenerationOf(issue.id) == H.Expected(issue.number, true)
  {
    var issue := g.issued[h];
    assert GoodHandle(cfg, g, h);
    H.ExpectedBounds(issue.number, true);
    hide I.GoodShared, I.Owned, GoodSlab, H.Pack, H.SlabOf, H.GenerationOf, H.Expected;
    H.PackUnpacks(H.Expected(issue.number, true), issue.slab);
  }

  // ---- A handle matches exactly while it is responsible for its slab ----

  lemma MatchesExactlyWhen(cfg: I.Config, g: Shared, h: nat)
    requires GoodGlobal(cfg, g) && h < |g.issued|
    ensures var issue := g.issued[h];
      && issue.slab < cfg.capacity && issue.number <= g.counts[issue.slab]
      && (Matches(cfg, g, h) <==> g.owner[issue.slab].Holder? && (g.counts[issue.slab] - issue.number) % TWO_31 == 0)
      && (g.status[h] != Done ==> Matches(cfg, g, h))
  {
    HandleUnpacks(cfg, g, h);
    var issue := g.issued[h];
    assert GoodHandle(cfg, g, h) && GoodSlab(cfg, g, issue.slab);
    hide I.GoodShared, I.Owned, H.Pack, H.SlabOf, H.GenerationOf, H.Expected;
    H.GenerationsMatch(issue.number, g.counts[issue.slab], g.owner[issue.slab].Holder?);
  }

  // ---- Other threads are not disturbed ----

  /** What a step of thread t may change, as far as other threads rely on it. */
  ghost predicate Undisturbed(g: Shared, g1: Shared, t: nat) {
    && g.issued <= g1.issued && |g.status| <= |g1.status| && |g1.owner| == |g.owner|
    && (forall h :: 0 <= h < |g.status| && g1.status[h] != g.status[h] ==> g.status[h] in {Unfreed, Presented(t)})
    && (forall i :: 0 <= i < |g.owner| && g1.owner[i] != g.owner[i] ==>
          g.owner[i] in {Nobody, Claimer(t), Freer(t)} || g.owner[i].Holder?)
  }

  lemma OthersStayGood(cfg: I.Config, g: Shared, g1: Shared, t: nat, threads: seq<Thread>, th1: Thread)
    requires GoodThreads(cfg, g, threads) && Undisturbed(g, g1, t) && t < |threads| && GoodThread(cfg, g1, t, th1)
    ensures GoodThreads(cfg, g1, threads[t := th1])
  {
    var after := threads[t := th1];
    forall q | 0 <= q < |after| ensures GoodThread(cfg, g1, q, after[q]) {
      if q != t {
        assert GoodThread(cfg, g, q, threads[q]);
        hide I.GoodPc, I.AllocatePc, FreePc;
      }
    }
  }

  // ---- Each kind of step ----

  /** Conclusion of every step lemma. */
  ghost predicate Fine(cfg: I.Config, g: Shared, t: nat, r: (Shared, Thread)) {
    GoodGlobal(cfg, r.0) && GoodThread(cfg, r.0, t, r.1) && Undisturbed(g, r.0, t)
  }

  /** A slab step keeps the bookkeeping, given what it does to the flag and to the log. */
  lemma SlabChangeIsGood(cfg: I.Config, g: Shared, g1: Shared, t: nat, c: I.Change)
    requires GoodGlobal(cfg, g) && I.GoodShared(cfg, g1.slab) && I.Owned(g1.slab)
    requires g1 == g.(slab := g1.slab, owner := g1.owner)
    requires match c
      case Same => g1.slab.inUse == g.slab.inUse && g1.slab.log == g.slab.log && g1.owner == g.owner
      case Took(id) =>
        && 0 <= id < cfg.capacity && !g.slab.inUse[id] && g1.slab.inUse == g.slab.inUse[id := true]
        && g1.slab.log == g.slab.log + [I.Claimed(id, t)] && g1.owner == g.owner[id := Claimer(t)]
      case Gave(id) =>
        && 0 <= id < cfg.capacity && g1.slab.inUse == g.slab.inUse[id := false]
        && g1.slab.log == g.slab.log + [I.Released(id, t)] && g1.owner == g.owner[id := Nobody]
        && g.owner[id] == Freer(t)
    ensures GoodGlobal(cfg, g1) && Undisturbed(g, g1, t)
  {
    hide I.GoodShared, I.Owned, I.Claims, H.Pack, H.Expected;
    if c.Took? {
      assert GoodSlab(cfg, g, c.id);
    }
    forall i | 0 <= i < cfg.capacity ensures GoodSlab(cfg, g1, i) {
      assert GoodSlab(cfg, g, i);
      match c
      case Same =>
      case Took(id) => ClaimsAppend(g.slab.log, I.Claimed(id, t), i);
      case Gave(id) => ClaimsAppend(g.slab.log, I.Released(id, t), i);
    }
    forall h | 0 <= h < |g1.issued| ensures GoodHandle(cfg, g1, h) {
      assert GoodHandle(cfg, g, h);
      var slab := g.issued[h].slab;
      assert GoodSlab(cfg, g, slab);
      assert g1.owner[slab] == g.owner[slab] || g.owner[slab] == Nobody || g.owner[slab] == Freer(t);
    }
  }

  lemma ClaimsAppend(log: seq<I.Event>, e: I.Event, id: int)
    ensures I.Claims(log + [e], id) == I.Claims(log, id) + if e.Claimed? && e.id == id then 1 else 0
  {
    assert (log + [e])[..|log|] == log;
  }

  lemma SlabStepIsGood(cfg: I.Config, g: Shared, th: Thread, t: nat, x: I.Choice)
    requires GoodGlobal(cfg, g) && I.GoodPc(cfg, th.slab)
    requires I.ChangeOf(g.slab, th.slab).Gave? ==> Owns(g, th.slab.id, Freer(t))
    ensures var (g1, th1) := SlabStep(cfg, g, th, t, x);
      && GoodGlobal(cfg, g1) && Undisturbed(g, g1, t)
      && I.GoodPc(cfg, th1.slab) && th1.at == th.at && g1.issued == g.issued && g1.status == g.status
      && (I.ChangeOf(g.slab, th.slab).Took? ==>
            Owns(g1, th.slab.id, Claimer(t)) && th1.slab == I.RecordAlloc(th.slab.fast, th.slab.id))
      && (I.ChangeOf(g.slab, th.slab).Same? ==> g1.owner == g.owner)
  {
    I.ActKeepsGood(cfg, g.slab, th.slab, t, x);
    I.ActChanges(cfg, g.slab, th.slab, t, x);
    I.ActKeepsOwned(cfg, g.slab, th.slab, t, x);
    hide I.Act, I.GoodShared, I.Owned, I.GoodPc, GoodSlab, GoodHandle, Undisturbed;
    SlabChangeIsGood(cfg, g, SlabStep(cfg, g, th, t, x).0, t, I.ChangeOf(g.slab, th.slab));
  }

  /** Which positions a freeing thread can be at. */
  lemma FreeStays(cfg: I.Config, g: I.Shared, pc: I.Pc, t: nat, x: I.Choice, slab: int)
    requires I.ValidConfig(cfg) && I.GoodShared(cfg, g) && I.GoodPc(cfg, pc)
    requires FreePc(pc, slab) && !pc.Freed? && x.wish.WishDeallocateFast? && x.id == slab && I.InUseRange(cfg, slab)
    requires pc.FreeCas? ==> g.inUse[slab]
    ensures var next := I.Act(cfg, g, pc, t, x).1;
      && FreePc(next, slab) && !next.Idle?
      && (next.FreeCas? ==> pc.Idle?)
  {
    hide I.PutStep, I.GoodCache, I.GoodPut, IndexAtPut;
  }

  lemma AllocateStepIsFine(cfg: I.Config, g: Shared, th: Thread, t: nat, x: I.Choice)
    requires GoodGlobal(cfg, g) && GoodThread(cfg, g, t, th)
    requires th.at.InAllocate? && !th.slab.Allocated? && !x.wish.WishDeallocateFast?
    ensures Fine(cfg, g, t, SlabStep(cfg, g, th, t, x))
  {
    SlabStepIsGood(cfg, g, th, t, x);
    I.AllocateStays(cfg, g.slab, th.slab, t, x);
    hide I.Act, I.GoodShared, I.Owned, I.GoodPc, GoodSlab, GoodHandle, Undisturbed, GoodGlobal, I.AllocatePc;
  }

  lemma FreeStepIsFine(cfg: I.Config, g: Shared, th: Thread, t: nat, x: I.Choice)
    requires GoodGlobal(cfg, g) && GoodThread(cfg, g, t, th)
    requires th.at.InFree? && !th.slab.Freed? && x.wish.WishDeallocateFast? && x.id == g.issued[th.at.h].slab
    ensures Fine(cfg, g, t, SlabStep(cfg, g, th, t, x))
  {
    HandleUnpacks(cfg, g, th.at.h);
    var slab := g.issued[th.at.h].slab;
    assert GoodSlab(cfg, g, slab);
    SlabStepIsGood(cfg, g, th, t, x);
    FreeStays(cfg, g.slab, th.slab, t, x, slab);
    hide I.Act, I.GoodShared, I.Owned, I.GoodPc, GoodSlab, GoodHandle, Undisturbed, GoodGlobal, H.SlabOf, H.GenerationOf;
  }

  lemma IssueIsFine(cfg: I.Config, g: Shared, th: Thread, t: nat)
    requires GoodGlobal(cfg, g) && GoodThread(cfg, g, t, th) && th.at.BumpNew?
    ensures Fine(cfg, g, t, (IssueStep(cfg, g, th.at.slab), Thread(Idle, I.Idle)))
  {
    var slab := th.at.slab;
    var g1 := IssueStep(cfg, g, slab);
    assert GoodSlab(cfg, g, slab);
    H.NextGeneration(g.counts[slab]);
    hide I.GoodShared, I.Owned, I.Claims, H.Pack, H.Expected, I.GoodPc;
    forall i | 0 <= i < cfg.capacity ensures GoodSlab(cfg, g1, i) {
      assert GoodSlab(cfg, g, i);
    }
    forall h | 0 <= h < |g1.issued| ensures GoodHandle(cfg, g1, h) {
      if h < |g.issued| {
        assert GoodHandle(cfg, g, h);
      }
    }
  }

  lemma InvalidateIsFine(cfg: I.Config, g: Shared, th: Thread, t: nat)
    requires GoodGlobal(cfg, g) && GoodThread(cfg, g, t, th) && th.at.BumpOld?
    requires th.at.h < |g.issued| && H.SlabOf(g.issued[th.at.h].id) == g.issued[th.at.h].slab < cfg.capacity
    ensures Fine(cfg, g, t, (InvalidateStep(cfg, g, th.at.h, t), Thread(InFree(th.at.h), I.Idle)))
  {
    var h := th.at.h;
    var slab := g.issued[h].slab;
    var g1 := InvalidateStep(cfg, g, h, t);
    assert GoodHandle(cfg, g, h) && GoodSlab(cfg, g, slab);
    H.NextGeneration(g.counts[slab]);
    hide I.GoodShared, I.Owned, I.Claims, H.Pack, H.Expected, I.GoodPc, H.SlabOf;
    forall i | 0 <= i < cfg.capacity ensures GoodSlab(cfg, g1, i) {
      assert GoodSlab(cfg, g, i);
    }
    forall k | 0 <= k < |g1.issued| ensures GoodHandle(cfg, g1, k) {
      assert GoodHandle(cfg, g, k);
    }
  }

  lemma PresentIsFine(cfg: I.Config, g: Shared, t: nat, h: nat)
    requires GoodGlobal(cfg, g) && h < |g.issued| && g.status[h] == Unfreed
    ensures Fine(cfg, g, t, (g.(status := g.status[h := Presented(t)]), Thread(CheckFree(h), I.Idle)))
  {
    var g1 := g.(status := g.status[h := Presented(t)]);
    hide I.GoodShared, I.Owned, I.Claims, H.Pack, H.Expected, I.GoodPc;
    forall i | 0 <= i < cfg.capacity ensures GoodSlab(cfg, g1, i) {
      assert GoodSlab(cfg, g, i);
    }
    forall k | 0 <= k < |g1.issued| ensures GoodHandle(cfg, g1, k) {
      assert GoodHandle(cfg, g, k);
    }
  }

  lemma ActIsFine(cfg: I.Config, g: Shared, th: Thread, t: nat, x: Choice)
    requires GoodGlobal(cfg, g) && GoodThread(cfg, g, t, th)
    ensures Fine(cfg, g, t, Act(cfg, g, th, t, x))
  {
    hide GoodGlobal, Sizes, I.GoodShared, I.GoodPc, SlabStep, IssueStep, InvalidateStep, Matches, H.SlabOf;
    match th.at
    case Idle => StartIsFine(cfg, g, th, t, x);
    case InAllocate(fast) =>
      if !th.slab.Allocated? {
        AllocateStepIsFine(cfg, g, th, t, x.slab.(wish := if fast then I.WishAllocateFast else I.WishAllocate));
        hide GoodThread, Undisturbed;
      } else {
        AnswerIsFine(cfg, g, th, t, x);
      }
    case BumpNew(slab) => IssueIsFine(cfg, g, th, t);
      hide GoodThread, Undisturbed;
    case CheckFree(h) => CheckIsFine(cfg, g, th, t, x);
    case BumpOld(h) =>
      IssuedInRange(cfg, g, h);
      HandleUnpacks(cfg, g, h);
      InvalidateIsFine(cfg, g, th, t);
      hide GoodThread, Undisturbed;
    case InFree(h) =>
      HandleUnpacks(cfg, g, h);
      if !th.slab.Freed? {
        FreeStepIsFine(cfg, g, th, t, x.slab.(wish := I.WishDeallocateFast, id := H.SlabOf(g.issued[h].id)));
        hide GoodThread, Undisturbed;
      } else {
        AnswerIsFine(cfg, g, th, t, x);
      }
  }

  lemma IssuedInRange(cfg: I.Config, g: Shared, h: nat)
    requires GoodGlobal(cfg, g) && h < |g.status|
    ensures h < |g.issued|
  {
  }

  lemma StartIsFine(cfg: I.Config, g: Shared, th: Thread, t: nat, x: Choice)
    requires GoodGlobal(cfg, g) && GoodThread(cfg, g, t, th) && th.at.Idle?
    ensures Fine(cfg, g, t, Act(cfg, g, th, t, x))
  {
    hide I.GoodShared, I.Owned, GoodSlab, GoodHandle;
    if x.wish.WantFree? && x.wish.h < |g.issued| && g.status[x.wish.h] == Unfreed {
      PresentIsFine(cfg, g, t, x.wish.h);
      hide Undisturbed, GoodGlobal;
    }
  }

  /** The handle level takes over from a slab call that has answered. */
  lemma AnswerIsFine(cfg: I.Config, g: Shared, th: Thread, t: nat, x: Choice)
    requires GoodGlobal(cfg, g) && GoodThread(cfg, g, t, th)
    requires (th.at.InAllocate? && th.slab.Allocated?) || (th.at.InFree? && th.slab.Freed?)
    ensures Fine(cfg, g, t, Act(cfg, g, th, t, x))
  {
    hide I.GoodShared, I.Owned, GoodSlab, GoodHandle, SlabStep;
  }

  /** A handle presented for the first time always matches. */
  lemma CheckIsFine(cfg: I.Config, g: Shared, th: Thread, t: nat, x: Choice)
    requires GoodGlobal(cfg, g) && GoodThread(cfg, g, t, th) && th.at.CheckFree?
    ensures Fine(cfg, g, t, Act(cfg, g, th, t, x))
  {
    MatchesExactlyWhen(cfg, g, th.at.h);
    hide I.GoodShared, I.Owned, GoodSlab, GoodHandle, Matches;
  }

  // ---- All threads ----

  datatype State = State(shared: Shared, threads: seq<Thread>)

  datatype Turn = Turn(thread: nat, choice: Choice)

  ghost predicate Good(cfg: I.Config, s: State) {
    GoodGlobal(cfg, s.shared) && GoodThreads(cfg, s.shared, s.threads)
  }

  ghost function Start(cfg: I.Config, threadCount: nat): (s: State)
    requires I.ValidConfig(cfg)
  {
    State(Shared(I.Start(cfg, 0).shared, Repeat(0, cfg.capacity), [], 0,
                 Repeat(0, cfg.capacity), Repeat(Nobody, cfg.capacity), []),
          Repeat(Thread(Idle, I.Idle), threadCount))
  }

  lemma StartIsGood(cfg: I.Config, threadCount: nat)
    requires I.ValidConfig(cfg)
    ensures Good(cfg, Start(cfg, threadCount))
  {
    I.StartIsGood(cfg, 0);
    hide I.GoodShared, I.Owned;
  }

  ghost function Step(cfg: I.Config, s: State, turn: Turn): (r: State)
    requires Good(cfg, s)
    ensures Good(cfg, r) && |r.threads| == |s.threads|
  {
    if turn.thread >= |s.threads| then s
    else
      var t := turn.thread;
      var th := s.threads[t];
      assert GoodThread(cfg, s.shared, t, th);
      ActIsFine(cfg, s.shared, th, t, turn.choice);
      var (g, th1) := Act(cfg, s.shared, th, t, turn.choice);
      hide Act, GoodGlobal, GoodThread, Undisturbed;
      OthersStayGood(cfg, s.shared, g, t, s.threads, th1);
      State(g, s.threads[t := th1])
  }

  ghost function Run(cfg: I.Config, threadCount: nat, schedule: seq<Turn>): (s: State)
    requires I.ValidConfig(cfg)
    ensures Good(cfg, s) && |s.threads| == threadCount
  {
    hide Good, Step;
    if schedule == [] then
      StartIsGood(cfg, threadCount);
      Start(cfg, threadCount)
    else Step(cfg, Run(cfg, threadCount, schedule[..|schedule| - 1]), schedule[|schedule| - 1])
  }

  // ---- Main results ----

  /** What GetBytes answers for an issued handle: one load of the generation decides. */
  ghost function GetBytes(cfg: I.Config, g: Shared, h: nat): Result<int, H.Error>
    requires Sizes(cfg, g) && h < |g.issued|
  {
    var slab := H.SlabOf(g.issued[h].id);
    if !(0 <= slab < cfg.capacity) then Failure(H.InvalidHandle)
    else if H.GenerationOf(g.issued[h].id) != g.generations[slab] then Failure(H.StaleHandle)
    else Success(slab)
  }

  /** The slab is in use, and its last claim, not released since, is the one the handle was
      issued for. */
  ghost predicate HeldBy(g: Shared, issue: H.Issue) {
    && issue.slab < |g.slab.inUse| && g.slab.inUse[issue.slab]
    && I.Claims(g.slab.log, issue.slab) == issue.number && I.Releases(g.slab.log, issue.slab) == issue.number - 1
  }

  lemma HolderHolds(cfg: I.Config, g: Shared, h: nat)
    requires GoodGlobal(cfg, g) && h < |g.issued|
    ensures g.status[h] != Done ==> HeldBy(g, g.issued[h])
    ensures var issue := g.issued[h];
      issue.slab < cfg.capacity && g.counts[issue.slab] <= I.Claims(g.slab.log, issue.slab)
  {
    var issue := g.issued[h];
    assert GoodHandle(cfg, g, h) && GoodSlab(cfg, g, issue.slab);
    I.ClaimsLessReleases(g.slab.log, issue.slab);
    hide I.GoodShared, I.Claims, I.Releases, I.Alternates, I.Held, H.Pack, H.Expected;
  }

  /** What an issued handle may rely on. While its slab has been claimed fewer than 2^31 times
      since, GetBytes accepts it exactly until FreeHandle invalidates it, and while it does
      the slab is still held by that very allocation. If its slab is free, and so can be
      claimed again, it is refused however often the slab was claimed. */
  ghost predicate Safe(cfg: I.Config, g: Shared, h: nat)
    requires Sizes(cfg, g) && h < |g.issued|
  {
    var issue, got := g.issued[h], GetBytes(cfg, g, h);
    && issue.slab < |g.slab.inUse|
    && (g.status[h] != Done ==> got == Success(issue.slab) && HeldBy(g, issue))
    && (!g.slab.inUse[issue.slab] ==> got == Failure(H.StaleHandle))
    && (I.Claims(g.slab.log, issue.slab) < issue.number + TWO_31 ==>
          got == if g.status[h] != Done then Success(issue.slab) else Failure(H.StaleHandle))
  }

  lemma GetBytesMatches(cfg: I.Config, g: Shared, h: nat)
    requires GoodGlobal(cfg, g) && h < |g.issued|
    ensures GetBytes(cfg, g, h) == if Matches(cfg, g, h) then Success(g.issued[h].slab) else Failure(H.StaleHandle)
  {
    HandleUnpacks(cfg, g, h);
    hide I.GoodShared, I.Owned, GoodSlab, GoodHandle, H.SlabOf, H.GenerationOf;
  }

  lemma SafeNow(cfg: I.Config, g: Shared, h: nat)
    requires GoodGlobal(cfg, g) && h < |g.issued|
    ensures Safe(cfg, g, h)
  {
    hide I.GoodShared, I.Owned, I.Claims, I.Releases, HeldBy, H.Pack, H.Expected, GetBytes, Matches;
    GetBytesMatches(cfg, g, h);
    MatchesExactlyWhen(cfg, g, h);
    HolderHolds(cfg, g, h);
    assert GoodHandle(cfg, g, h) && GoodSlab(cfg, g, g.issued[h].slab);
  }

  /** In every interleaving every issued handle is safe, and no FreeHandle of a handle
      presented once ever fails. */
  lemma HandlesAreSafe(cfg: I.Config, threadCount: nat, schedule: seq<Turn>, h: nat)
    requires I.ValidConfig(cfg) && h < |Run(cfg, threadCount, schedule).shared.issued|
    ensures var g := Run(cfg, threadCount, schedule).shared;
      g.failedFrees == 0 && Safe(cfg, g, h)
  {
    hide Run, Safe, I.GoodShared, I.Owned, GoodSlab, GoodHandle, GoodThread;
    SafeNow(cfg, Run(cfg, threadCount, schedule).shared, h);
  }

  lemma OddNow(cfg: I.Config, g: Shared, i: nat)
    requires GoodGlobal(cfg, g) && i < cfg.capacity
    ensures g.generations[i] % 2 == 1 ==> g.slab.inUse[i]
    ensures !g.slab.inUse[i] ==> g.generations[i] % 2 == 0
  {
    assert GoodSlab(cfg, g, i);
    hide I.GoodShared, I.Owned, I.Claims, GoodHandle;
    H.Parity(2 * g.counts[i]);
  }

  /** In every interleaving, an odd generation means the slab is in use, and a free slab has
      an even generation. */
  lemma OddMeansInUse(cfg: I.Config, threadCount: nat, schedule: seq<Turn>, i: nat)
    requires I.ValidConfig(cfg) && i < cfg.capacity
    ensures var g := Run(cfg, threadCount, schedule).shared;
      && (g.generations[i] % 2 == 1 ==> g.slab.inUse[i])
      && (!g.slab.inUse[i] ==> g.generations[i] % 2 == 0)
  {
    hide Run, I.GoodShared, I.Owned, GoodSlab, GoodHandle, GoodThread;
    OddNow(cfg, Run(cfg, threadCount, schedule).shared, i);
  }
}
