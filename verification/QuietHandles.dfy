/** No slab is lost between the claim, the generations and the free: when no thread is inside
    a call, the slabs in use are exactly those held through a handle that was not freed. */
module QuietHandles {
  import opened InterleavedHandles
  import opened Wrappers
  import H = Handles
  import I = Interleaving

  /** The thread has claimed the slab and has not yet issued a handle for it. */
  ghost predicate Claiming(th: Thread, i: int) {
    || th.at == BumpNew(i)
    || (th.at.InAllocate? && th.slab.RecordAlloc? && th.slab.id == i)
    || (th.at.InAllocate? && th.slab == I.Allocated(Some(i)))
  }

  /** The thread has invalidated the handle and has not yet cleared the flag. */
  ghost predicate Freeing(g: Shared, th: Thread, i: int) {
    && th.at.InFree? && (th.slab.Idle? || th.slab.FreeCas?)
    && th.at.h < |g.issued| && g.issued[th.at.h].slab == i
  }

  /** What is noted as thread t's responsibility it is at work on. */
  ghost predicate AtWork(g: Shared, t: nat, th: Thread) {
    && (forall i :: 0 <= i < |g.owner| ==>
          && (g.owner[i] == Claimer(t) ==> Claiming(th, i))
          && (g.owner[i] == Freer(t) ==> Freeing(g, th, i)))
    && (forall h :: 0 <= h < |g.status| && g.status[h] == Presented(t) ==> th.at == CheckFree(h) || th.at == BumpOld(h))
  }

  ghost predicate AllAtWork(s: State) {
    && (forall t :: 0 <= t < |s.threads| ==> AtWork(s.shared, t, s.threads[t]))
    && (forall i :: 0 <= i < |s.shared.owner| ==>
          var who := s.shared.owner[i];
          && (who.Claimer? ==> who.thread < |s.threads|)
          && (who.Freer? ==> who.thread < |s.threads|))
    && (forall h :: 0 <= h < |s.shared.status| ==>
          s.shared.status[h].Presented? ==> s.shared.status[h].thread < |s.threads|)
  }

  /** A step of thread t makes nobody else responsible for a slab. */
  ghost predicate OnlyMine(g: Shared, g1: Shared, t: nat) {
    && |g1.owner| == |g.owner| && g.issued <= g1.issued
    && (forall i :: 0 <= i < |g.owner| && g1.owner[i] != g.owner[i] ==>
          g1.owner[i] in {Nobody, Claimer(t), Freer(t)} || g1.owner[i].Holder?)
    && |g.status| <= |g1.status|
    && forall h :: 0 <= h < |g1.status| && (h < |g.status| ==> g1.status[h] != g.status[h]) ==>
         g1.status[h] in {Unfreed, Presented(t), Done}
  }

  ghost predicate Works(g: Shared, t: nat, r: (Shared, Thread)) {
    AtWork(r.0, t, r.1) && OnlyMine(g, r.0, t)
  }

  /** Inside an allocation: a claim is noted, recorded and answered with the same slab. */
  lemma AllocationWorks(cfg: I.Config, g: Shared, th: Thread, t: nat, x: I.Choice)
    requires GoodGlobal(cfg, g) && GoodThread(cfg, g, t, th) && AtWork(g, t, th)
    requires th.at.InAllocate? && !th.slab.Allocated?
    ensures Works(g, t, SlabStep(cfg, g, th, t, x))
  {
    I.ActChanges(cfg, g.slab, th.slab, t, x);
    if th.slab.RecordAlloc? {
      Recorded(cfg, g.slab, th.slab, t, x);
    }
    hide I.Act, I.GoodShared, I.Owned, I.GoodPc, GoodSlab, GoodHandle, I.AllocatePc;
  }

  lemma Recorded(cfg: I.Config, g: I.Shared, pc: I.Pc, t: nat, x: I.Choice)
    requires I.ValidConfig(cfg) && I.GoodShared(cfg, g) && I.GoodPc(cfg, pc) && pc.RecordAlloc?
    ensures I.Act(cfg, g, pc, t, x).1 == I.Allocated(Some(pc.id))
  {
  }

  /** Inside a free: the compare-and-swap clears the flag of the slab that was invalidated. */
  lemma FreeWorks(cfg: I.Config, g: Shared, th: Thread, t: nat, x: I.Choice)
    requires GoodGlobal(cfg, g) && GoodThread(cfg, g, t, th) && AtWork(g, t, th)
    requires th.at.InFree? && !th.slab.Freed?
    requires x.wish.WishDeallocateFast? && x.id == g.issued[th.at.h].slab < cfg.capacity
    ensures Works(g, t, SlabStep(cfg, g, th, t, x))
  {
    var slab := g.issued[th.at.h].slab;
    assert GoodSlab(cfg, g, slab);
    I.ActChanges(cfg, g.slab, th.slab, t, x);
    if th.slab.Idle? {
      Starts(cfg, g.slab, t, x);
    }
    hide I.Act, I.GoodShared, I.Owned, I.GoodPc, GoodSlab, GoodHandle;
  }

  lemma Starts(cfg: I.Config, g: I.Shared, t: nat, x: I.Choice)
    requires I.ValidConfig(cfg) && I.GoodShared(cfg, g) && x.wish.WishDeallocateFast? && 0 <= x.id < cfg.capacity
    ensures I.Act(cfg, g, I.Idle, t, x).1 == I.FreeCas(x.id)
  {
  }

  lemma ActWorks(cfg: I.Config, g: Shared, th: Thread, t: nat, x: Choice)
    requires GoodGlobal(cfg, g) && GoodThread(cfg, g, t, th) && AtWork(g, t, th)
    ensures Works(g, t, Act(cfg, g, th, t, x))
  {
    hide I.GoodShared, I.Owned, I.GoodPc, SlabStep, GoodSlab, GoodHandle, Matches;
    hide H.SlabOf, H.GenerationOf, H.Bump, H.Pack;
    match th.at
    case InAllocate(fast) =>
      if !th.slab.Allocated? {
        AllocationWorks(cfg, g, th, t, x.slab.(wish := if fast then I.WishAllocateFast else I.WishAllocate));
        hide GoodGlobal, GoodThread, Works;
      }
    case InFree(h) =>
      HandleUnpacks(cfg, g, h);
      if !th.slab.Freed? {
        FreeWorks(cfg, g, th, t, x.slab.(wish := I.WishDeallocateFast, id := H.SlabOf(g.issued[h].id)));
        hide GoodGlobal, GoodThread, Works;
      }
    case BumpOld(h) =>
      HandleUnpacks(cfg, g, h);
    case CheckFree(h) =>
      MatchesExactlyWhen(cfg, g, h);
    case _ =>
  }

  lemma OthersWork(s: State, t: nat, r: (Shared, Thread))
    requires AllAtWork(s) && t < |s.threads| && Works(s.shared, t, r)
    ensures AllAtWork(State(r.0, s.threads[t := r.1]))
  {
    var s1 := State(r.0, s.threads[t := r.1]);
    forall q | 0 <= q < |s1.threads| ensures AtWork(s1.shared, q, s1.threads[q]) {
      assert AtWork(s.shared, q, s.threads[q]);
    }
  }

  lemma {:induction false} RunWorks(cfg: I.Config, threadCount: nat, schedule: seq<Turn>)
    requires I.ValidConfig(cfg)
    ensures AllAtWork(Run(cfg, threadCount, schedule))
  {
    if schedule != [] {
      var n := |schedule| - 1;
      RunWorks(cfg, threadCount, schedule[..n]);
      StepWorks(cfg, Run(cfg, threadCount, schedule[..n]), schedule[n]);
      hide Step, AllAtWork, Good;
    } else {
      hide I.GoodShared, I.Owned;
    }
  }

  lemma StepWorks(cfg: I.Config, s: State, turn: Turn)
    requires Good(cfg, s) && AllAtWork(s)
    ensures AllAtWork(Step(cfg, s, turn))
  {
    if turn.thread < |s.threads| {
      var t := turn.thread;
      assert GoodThread(cfg, s.shared, t, s.threads[t]) && AtWork(s.shared, t, s.threads[t]);
      hide Act, GoodGlobal, GoodThread, AtWork, Works, AllAtWork;
      ActWorks(cfg, s.shared, s.threads[t], t, turn.choice);
      OthersWork(s, t, Act(cfg, s.shared, s.threads[t], t, turn.choice));
    }
  }

  /** In every interleaving, whenever no thread is inside a call: a slab is in use if and only
      if some handle issued for it was not freed, and that is the slab's newest handle. */
  lemma UsedMeansHeld(cfg: I.Config, threadCount: nat, schedule: seq<Turn>, i: nat)
    requires I.ValidConfig(cfg) && i < cfg.capacity
    requires forall t :: 0 <= t < threadCount ==> Run(cfg, threadCount, schedule).threads[t].at.Idle?
    ensures var g := Run(cfg, threadCount, schedule).shared;
      && |g.slab.inUse| == cfg.capacity && |g.status| == |g.issued|
      && (g.slab.inUse[i] <==>
            exists h :: 0 <= h < |g.issued| && g.issued[h].slab == i && g.status[h] == Unfreed)
      && (forall h :: 0 <= h < |g.issued| && g.issued[h].slab == i && g.status[h] == Unfreed ==>
            g.issued[h].number == I.Claims(g.slab.log, i))
  {
    RunWorks(cfg, threadCount, schedule);
    var s := Run(cfg, threadCount, schedule);
    hide Run, I.GoodShared, I.Owned, I.Claims, H.Pack, H.Expected;
    QuietSlab(cfg, s, i);
  }

  lemma QuietSlab(cfg: I.Config, s: State, i: nat)
    requires Good(cfg, s) && AllAtWork(s) && i < cfg.capacity
    requires forall t :: 0 <= t < |s.threads| ==> s.threads[t].at.Idle?
    ensures var g := s.shared;
      && |g.slab.inUse| == cfg.capacity && |g.status| == |g.issued|
      && (g.slab.inUse[i] <==>
            exists h :: 0 <= h < |g.issued| && g.issued[h].slab == i && g.status[h] == Unfreed)
      && (forall h :: 0 <= h < |g.issued| && g.issued[h].slab == i && g.status[h] == Unfreed ==>
            g.issued[h].number == I.Claims(g.slab.log, i))
  {
    hide I.GoodShared, I.Owned, I.Claims, H.Pack, H.Expected;
    var g := s.shared;
    assert GoodSlab(cfg, g, i);
    forall h | 0 <= h < |g.issued| && g.issued[h].slab == i && g.status[h] == Unfreed
      ensures g.owner[i] == Holder(h)
    {
      assert GoodHandle(cfg, g, h);
    }
    NobodyAtWork(s);
    if g.slab.inUse[i] {
      var h := g.owner[i].h;
      assert g.status[h] == Unfreed && g.issued[h].slab == i;
    }
  }

  lemma NobodyAtWork(s: State)
    requires AllAtWork(s) && forall t :: 0 <= t < |s.threads| ==> s.threads[t].at.Idle?
    ensures forall i :: 0 <= i < |s.shared.owner| ==> s.shared.owner[i] == Nobody || s.shared.owner[i].Holder?
    ensures forall h :: 0 <= h < |s.shared.status| ==> !s.shared.status[h].Presented?
  {
    forall t | 0 <= t < |s.threads|
      ensures forall i :: 0 <= i < |s.shared.owner| ==> s.shared.owner[i] != Claimer(t) && s.shared.owner[i] != Freer(t)
      ensures forall h :: 0 <= h < |s.shared.status| ==> s.shared.status[h] != Presented(t)
    {
      IdleIsNotAtWork(s.shared, t, s.threads[t]);
    }
    hide AtWork;
  }

  lemma IdleIsNotAtWork(g: Shared, t: nat, th: Thread)
    requires AtWork(g, t, th) && th.at.Idle?
    ensures forall i :: 0 <= i < |g.owner| ==> g.owner[i] != Claimer(t) && g.owner[i] != Freer(t)
    ensures forall h :: 0 <= h < |g.status| ==> g.status[h] != Presented(t)
  {
  }

  // ---- How calls end ----

  /** In every interleaving: FreeHandle of a handle presented once finds its generation, and the
      DeallocateFast under it succeeds; AllocateHandle gives up only after both AllocateFast
      and Allocate found nothing, and otherwise issues a handle for the slab they claimed. */
  lemma CallsEnd(cfg: I.Config, threadCount: nat, schedule: seq<Turn>, t: nat, x: Choice)
    requires I.ValidConfig(cfg) && t < threadCount
    ensures var s := Run(cfg, threadCount, schedule);
      var g, th := s.shared, s.threads[t];
      GoodGlobal(cfg, g) && GoodThread(cfg, g, t, th) && Ends(cfg, g, th, Act(cfg, g, th, t, x))
  {
    var s := Run(cfg, threadCount, schedule);
    assert GoodThread(cfg, s.shared, t, s.threads[t]);
    hide Run, GoodGlobal, GoodThread, Act, Ends;
    EndsNow(cfg, s.shared, s.threads[t], t, x);
  }

  ghost predicate Ends(cfg: I.Config, g: Shared, th: Thread, r: (Shared, Thread)) {
    && (th.at.CheckFree? ==> r.1.at == BumpOld(th.at.h))
    && (th.at.BumpOld? ==> r.1.at == InFree(th.at.h))
    && (th.at.InFree? && r.1.at.Idle? ==> th.slab == I.Freed(true))
    && (th.at.InAllocate? && r.1.at.Idle? ==> th.at == InAllocate(false) && th.slab == I.Allocated(None))
    && (th.at.InAllocate? && r.1.at.BumpNew? ==> th.slab == I.Allocated(Some(r.1.at.slab)))
    && (th.at.BumpNew? ==>
          |r.0.issued| == |g.issued| + 1 && g.issued <= r.0.issued && 0 <= th.at.slab < |r.0.generations|
          && H.SlabOf(r.0.issued[|g.issued|].id) == th.at.slab
          && H.GenerationOf(r.0.issued[|g.issued|].id) == r.0.generations[th.at.slab])
  }

  lemma EndsNow(cfg: I.Config, g: Shared, th: Thread, t: nat, x: Choice)
    requires GoodGlobal(cfg, g) && GoodThread(cfg, g, t, th)
    ensures Ends(cfg, g, th, Act(cfg, g, th, t, x))
  {
    hide I.GoodShared, I.Owned, I.GoodPc, I.Act, I.ChangeOf, GoodSlab, GoodHandle, Matches;
    hide H.SlabOf, H.GenerationOf, H.Pack;
    match th.at
    case CheckFree(h) => MatchesExactlyWhen(cfg, g, h);
    case BumpOld(h) => HandleUnpacks(cfg, g, h);
    case BumpNew(slab) =>
      BumpIsSmall(g.generations, slab);
      H.PackUnpacks(H.Bump(g.generations, slab)[slab], slab);
      assert IssueStep(cfg, g, slab).issued[|g.issued|].id == H.Pack(H.Bump(g.generations, slab)[slab], slab);
    case InFree(h) => HandleUnpacks(cfg, g, h);
    case _ =>
  }

  lemma BumpIsSmall(generations: seq<nat>, slab: nat)
    requires slab < |generations|
    ensures H.Bump(generations, slab)[slab] < 0x1_0000_0000
  {
  }
}
