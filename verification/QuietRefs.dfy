/** No slab and no reference object is lost: when no thread is inside a call, every slab in
    use was claimed by AllocateFast or is held through a live reference, and every object is
    live or back in the pool. */
module QuietRefs {
  import opened InterleavedRefs
  import opened Wrappers
  import I = Interleaving

  /** The slabs and objects noted as thread t's it is at work on. */
  ghost predicate AtWork(g: Shared, t: nat, th: Thread) {
    && (forall i :: 0 <= i < |g.owner| ==>
          && (g.owner[i] == Claimer(t) ==> th.at == InAllocate(None) && th.slab.RecordAlloc? && th.slab.id == i)
          && (g.owner[i] == Freer(t) ==> th.at.Storing? && th.at.ref < |g.refs| && g.refs[th.at.ref].slab == i))
    && (forall o :: 0 <= o < |g.refs| && g.refs[o].stage == Handled(t) ==>
          th.at == Storing(o) || th.at == Placing(o) || th.at == Invalidating(o))
    && (th.at.InAllocate? && th.at.made.Some? ==> th.slab.RecordAlloc? || th.slab.Allocated?)
  }

  ghost predicate Exists(who: Owner, n: nat) {
    (who.Claimer? || who.Freer?) ==> who.thread < n
  }

  ghost predicate AllAtWork(s: State) {
    && (forall t :: 0 <= t < |s.threads| ==> AtWork(s.shared, t, s.threads[t]))
    && (forall i :: 0 <= i < |s.shared.owner| ==> Exists(s.shared.owner[i], |s.threads|))
    && (forall o :: 0 <= o < |s.shared.refs| && s.shared.refs[o].stage.Handled? ==>
          s.shared.refs[o].stage.thread < |s.threads|)
  }

  /** A step of thread t gives nobody else anything to work on, and leaves the slab of an
      object alone that another thread handles. */
  ghost predicate OnlyMine(g: Shared, g1: Shared, t: nat) {
    && |g1.owner| == |g.owner| && |g.refs| <= |g1.refs|
    && (forall i :: 0 <= i < |g.owner| && g1.owner[i] != g.owner[i] ==>
          g1.owner[i] in {Nobody, Fast, Claimer(t), Freer(t)} || g1.owner[i].ByRef?)
    && (forall o :: 0 <= o < |g1.refs| && (o < |g.refs| ==> g1.refs[o].stage != g.refs[o].stage) ==>
          g1.refs[o].stage in {Live, Handled(t), Pooled})
    && (forall o :: 0 <= o < |g.refs| && !g.refs[o].stage.Pooled? ==> g1.refs[o].slab == g.refs[o].slab)
  }

  ghost predicate Works(g: Shared, t: nat, r: (Shared, Thread)) {
    AtWork(r.0, t, r.1) && OnlyMine(g, r.0, t)
  }

  /** Outside, or while an ID is put back, a slab step makes no thread responsible. */
  lemma SlabWorks(cfg: I.Config, g: Shared, th: Thread, t: nat, x: I.Choice)
    requires Sound(cfg, g) && GoodThread(cfg, g, t, th) && AtWork(g, t, th)
    requires th.at.Outside? || (th.at.Placing? && !th.slab.RecordFree?)
    ensures Works(g, t, SlabStep(cfg, g, th, t, x, Fast))
  {
    I.ActChanges(cfg, g.slab, th.slab, t, x);
    hide I.Act, I.GoodShared, I.GoodPc, I.Owned, I.ReturnPc, GoodSlab, AllHonoured;
  }

  lemma AllocationWorks(cfg: I.Config, g: Shared, th: Thread, t: nat, x: I.Choice)
    requires Sound(cfg, g) && GoodThread(cfg, g, t, th) && AtWork(g, t, th)
    requires th.at.InAllocate? && !th.slab.Allocated? && (th.slab.RecordAlloc? ==> th.at.made.Some?)
    ensures Works(g, t, SlabStep(cfg, g, th, t, x, Claimer(t)))
  {
    I.ActChanges(cfg, g.slab, th.slab, t, x);
    if th.slab.RecordAlloc? {
      Recorded(cfg, g.slab, th.slab, t, x);
    }
    hide I.Act, I.GoodShared, I.GoodPc, I.Owned, I.AllocatePc, GoodSlab, AllHonoured;
  }

  lemma Recorded(cfg: I.Config, g: I.Shared, pc: I.Pc, t: nat, x: I.Choice)
    requires I.ValidConfig(cfg) && I.GoodShared(cfg, g) && I.GoodPc(cfg, pc) && pc.RecordAlloc?
    ensures I.Act(cfg, g, pc, t, x).1 == I.Allocated(Some(pc.id))
  {
  }

  lemma StoreWorks(cfg: I.Config, g: Shared, th: Thread, t: nat, cpu: nat)
    requires Sound(cfg, g) && GoodThread(cfg, g, t, th) && AtWork(g, t, th) && th.at.Storing?
    ensures Works(g, t, StoreStep(cfg, g, th.at.ref, t, cpu))
  {
    assert GoodRef(cfg, g, th.at.ref);
    hide I.GoodShared, I.GoodPc, I.Owned, GoodSlab, AllHonoured;
  }

  lemma EnterWorks(cfg: I.Config, g: Shared, th: Thread, t: nat)
    requires Sound(cfg, g) && GoodThread(cfg, g, t, th) && AtWork(g, t, th) && th.at.Entering?
    ensures Works(g, t, EnterStep(cfg, g, th.at.issue, t))
  {
    assert GoodIssue(cfg, g, th.at.issue) && GoodRef(cfg, g, g.issues[th.at.issue].ref);
    hide I.GoodShared, I.GoodPc, I.Owned, GoodSlab, AllHonoured;
  }

  lemma ActWorks(cfg: I.Config, g: Shared, th: Thread, t: nat, x: Choice)
    requires Sound(cfg, g) && GoodThread(cfg, g, t, th) && AtWork(g, t, th)
    ensures Formed(cfg, g) && Placed(cfg, g, th) && Works(g, t, Act(cfg, g, th, t, x))
  {
    hide I.GoodShared, I.GoodPc, I.Owned, I.AllocatePc, I.ReturnPc, SlabStep, StoreStep, EnterStep, AllHonoured, I.Claims;
    match th.at
    case Outside =>
      if !(th.slab.Idle? && !x.wish.CallFast?) {
        SlabWorks(cfg, g, th, t, FastChoice(x.slab));
      }
    case InAllocate(made) =>
      if !(th.slab.RecordAlloc? && made.None?) && !th.slab.Allocated? {
        AllocationWorks(cfg, g, th, t, x.slab.(wish := I.WishAllocate));
      }
    case Entering(k) => EnterWorks(cfg, g, th, t);
    case Storing(o) => StoreWorks(cfg, g, th, t, x.slab.cpu);
    case Placing(o) =>
      if !th.slab.RecordFree? {
        SlabWorks(cfg, g, th, t, x.slab);
      }
    case Invalidating(o) =>
  }

  lemma OthersWork(s: State, t: nat, r: (Shared, Thread))
    requires AllAtWork(s) && t < |s.threads| && Works(s.shared, t, r)
    requires forall q :: 0 <= q < |s.threads| && s.threads[q].at.Storing? ==> Handles(s.shared, s.threads[q].at.ref, q)
    ensures AllAtWork(State(r.0, s.threads[t := r.1]))
  {
    var s1 := State(r.0, s.threads[t := r.1]);
    forall q | 0 <= q < |s1.threads| ensures AtWork(s1.shared, q, s1.threads[q]) {
      assert AtWork(s.shared, q, s.threads[q]);
    }
  }

  lemma StepWorks(cfg: I.Config, s: State, turn: Turn)
    requires InOrder(cfg, s) && AllAtWork(s)
    ensures AllAtWork(Step(cfg, s, turn))
  {
    if turn.thread < |s.threads| {
      var t := turn.thread;
      assert forall q :: 0 <= q < |s.threads| ==> GoodThread(cfg, s.shared, q, s.threads[q]);
      assert AtWork(s.shared, t, s.threads[t]);
      hide Act, Sound, Formed, AtWork, Works, AllAtWork, Placed;
      ActWorks(cfg, s.shared, s.threads[t], t, turn.choice);
      OthersWork(s, t, Act(cfg, s.shared, s.threads[t], t, turn.choice));
    }
  }

  lemma {:induction false} RunWorks(cfg: I.Config, threadCount: nat, schedule: seq<Turn>)
    requires I.ValidConfig(cfg) && Permitted(cfg, threadCount, schedule)
    ensures AllAtWork(Run(cfg, threadCount, schedule))
  {
    hide Step, InOrder, Good, AllowedTurn;
    if schedule == [] {
      hide I.GoodShared, I.Owned;
    } else {
      var n := |schedule| - 1;
      hide AllAtWork;
      RunWorks(cfg, threadCount, schedule[..n]);
      RunKeepsOrder(cfg, threadCount, schedule[..n]);
      StepWorks(cfg, Run(cfg, threadCount, schedule[..n]), schedule[n]);
    }
  }

  lemma NotAtWork(g: Shared, t: nat, th: Thread)
    requires AtWork(g, t, th) && th.at.Outside?
    ensures forall i :: 0 <= i < |g.owner| ==> g.owner[i] != Claimer(t) && g.owner[i] != Freer(t)
    ensures forall o :: 0 <= o < |g.refs| ==> g.refs[o].stage != Handled(t)
  {
  }

  lemma NobodyAtWork(s: State)
    requires AllAtWork(s) && forall t :: 0 <= t < |s.threads| ==> s.threads[t].at.Outside?
    ensures forall i :: 0 <= i < |s.shared.owner| ==> !s.shared.owner[i].Claimer? && !s.shared.owner[i].Freer?
    ensures forall o :: 0 <= o < |s.shared.refs| ==> !s.shared.refs[o].stage.Handled?
  {
    forall t | 0 <= t < |s.threads|
      ensures forall i :: 0 <= i < |s.shared.owner| ==> s.shared.owner[i] != Claimer(t) && s.shared.owner[i] != Freer(t)
      ensures forall o :: 0 <= o < |s.shared.refs| ==> s.shared.refs[o].stage != Handled(t)
    {
      NotAtWork(s.shared, t, s.threads[t]);
    }
    hide AtWork;
  }

  /** In every interleaving in which the callers keep to what they owe, whenever no thread is
      inside Allocate, BatchAllocate or Deallocate: a slab in use is one of AllocateFast or
      is held through a live reference, never both, and every object is live or pooled. */
  lemma UsedMeansHeld(cfg: I.Config, threadCount: nat, schedule: seq<Turn>, i: nat)
    requires I.ValidConfig(cfg) && Permitted(cfg, threadCount, schedule) && i < cfg.capacity
    requires forall t :: 0 <= t < threadCount ==> Run(cfg, threadCount, schedule).threads[t].at.Outside?
    ensures var g := Run(cfg, threadCount, schedule).shared;
      var held := exists k :: 0 <= k < |g.issues| && IsLive(g, k) && g.issues[k].slab == i;
      && |g.slab.inUse| == |g.owner| == cfg.capacity
      && (g.slab.inUse[i] <==> g.owner[i] == Fast || held)
      && !(g.owner[i] == Fast && held)
      && forall o :: 0 <= o < |g.refs| ==> g.refs[o].stage.Live? || g.refs[o].stage.Pooled?
  {
    RunKeepsOrder(cfg, threadCount, schedule);
    RunWorks(cfg, threadCount, schedule);
    var s := Run(cfg, threadCount, schedule);
    hide Run, Permitted, AllAtWork, Good;
    NobodyAtWork(s);
    QuietSlab(cfg, s.shared, i);
  }

  lemma QuietSlab(cfg: I.Config, g: Shared, i: nat)
    requires Sound(cfg, g) && i < cfg.capacity && !g.owner[i].Claimer? && !g.owner[i].Freer?
    ensures var held := exists k :: 0 <= k < |g.issues| && IsLive(g, k) && g.issues[k].slab == i;
      && |g.slab.inUse| == |g.owner| == cfg.capacity
      && (g.slab.inUse[i] <==> g.owner[i] == Fast || held)
      && !(g.owner[i] == Fast && held)
  {
    assert GoodSlab(cfg, g, i);
    forall k | 0 <= k < |g.issues| && IsLive(g, k) && g.issues[k].slab == i ensures g.owner[i] == ByRef(k) {
      LiveHolds(cfg, g, k);
    }
    hide I.GoodShared, I.Owned, I.Claims, I.Releases;
    if g.owner[i].ByRef? {
      assert IsLive(g, g.owner[i].issue);
    }
  }
}
