/** Any number of threads running Allocate, BatchAllocate and Deallocate(ref) beside
    AllocateFast and DeallocateFast. Deallocate marks its reference by a compare-and-swap but
    clears the slab's flag by a plain store, and gives the reference object back to a pool
    from which a later allocation may issue it again. */
module InterleavedRefs {
  import opened Bags
  import opened Pools
  import opened Wrappers
  import I = Interleaving

  // ---- Reference objects ----

  /** allocState is 0 while Live; a handled object is being deallocated by a thread. */
  datatype Stage = Live | Handled(thread: nat) | Pooled

  /** One object: the number of its newest issue, the slab and the stage. */
  datatype Ref = Ref(issue: nat, slab: int, stage: Stage)

  /** One answer of an allocation: the object, the slab, and how often the slab was claimed. */
  datatype Issue = Issue(ref: nat, slab: int, number: nat)

  /** Who relies on a slab: a thread or caller of AllocateFast, a thread that claimed it for a
      reference, a reference, or a thread about to clear the flag. */
  datatype Owner = Nobody | Fast | Claimer(thread: nat) | ByRef(issue: nat) | Freer(thread: nat)

  /** Issues, owners, and which issues were passed to Deallocate are bookkeeping that no step
      reads. */
  datatype Shared = Shared(
    slab: I.Shared, refs: seq<Ref>, deallocations: seq<nat>,
    issues: seq<Issue>, presented: seq<bool>, owner: seq<Owner>)

  // ---- Threads ----

  datatype At =
    | Outside                           // idle, or in AllocateFast or DeallocateFast
    | InAllocate(made: Option<nat>)     // the reference issued for the claimed slab, if any
    | Entering(issue: nat)              // about to mark the reference
    | Storing(ref: nat)              // about to clear the flag
    | Placing(ref: nat)              // putting the ID into a pool, or counting
    | Invalidating(ref: nat)         // about to give the object back

  datatype Thread = Thread(at: At, slab: I.Pc)

  datatype Wish = CallFast | CallAllocate | CallDeallocate(issue: nat)

  /** The call to make, the pooled object an allocation gets, and whether a batch goes on and
      where; a batch that goes on anywhere covers the three phases of BatchAllocate. */
  datatype Choice = Choice(slab: I.Choice, wish: Wish, reuse: nat, more: Option<I.Source>)

  // ---- What holds whatever the callers do ----

  ghost predicate Sizes(cfg: I.Config, g: Shared) {
    && I.ValidConfig(cfg) && I.GoodShared(cfg, g.slab)
    && |g.slab.inUse| == |g.owner| == cfg.capacity
    && |g.presented| == |g.issues| && |g.deallocations| == cfg.cpus
  }

  ghost predicate GoodRef(cfg: I.Config, g: Shared, o: nat) {
    && o < |g.refs| && I.InUseRange(cfg, g.refs[o].slab)
    && g.refs[o].issue < |g.issues|
    && g.issues[g.refs[o].issue].ref == o && g.issues[g.refs[o].issue].slab == g.refs[o].slab
  }

  ghost predicate GoodIssue(cfg: I.Config, g: Shared, k: nat) {
    && k < |g.issues| && I.InUseRange(cfg, g.issues[k].slab)
    && g.issues[k].ref < |g.refs| && k <= g.refs[g.issues[k].ref].issue
  }

  ghost predicate Formed(cfg: I.Config, g: Shared) {
    && Sizes(cfg, g)
    && (forall o :: 0 <= o < |g.refs| ==> GoodRef(cfg, g, o))
    && (forall k :: 0 <= k < |g.issues| ==> GoodIssue(cfg, g, k))
  }

  ghost predicate Placed(cfg: I.Config, g: Shared, th: Thread) {
    && I.GoodPc(cfg, th.slab)
    && match th.at
       case Outside => true
       case InAllocate(_) => true
       case Entering(k) => k < |g.issues|
       case Storing(o) => o < |g.refs|
       case Placing(o) => o < |g.refs|
       case Invalidating(o) => o < |g.refs|
  }

  // ---- One atomic step ----

  /** A step of the slab allocator; taker relies on the slab if it is claimed. */
  ghost function SlabStep(cfg: I.Config, g: Shared, th: Thread, t: nat, x: I.Choice, taker: Owner): (Shared, Thread)
    requires Formed(cfg, g) && I.GoodPc(cfg, th.slab)
  {
    var (slab, pc) := I.Act(cfg, g.slab, th.slab, t, x);
    var owner := match I.ChangeOf(g.slab, th.slab)
      case Same => g.owner
      case Took(id) => g.owner[id := taker]
      case Gave(id) => g.owner[id := Nobody];
    (g.(slab := slab, owner := owner), th.(slab := pc))
  }

  /** createSlabRef: an object from the pool, or a new one. */
  ghost function MakeStep(cfg: I.Config, g: Shared, id: int, reuse: nat): Shared
    requires Formed(cfg, g) && I.InUseRange(cfg, id)
  {
    var k := |g.issues|;
    var reused := reuse < |g.refs| && g.refs[reuse].stage.Pooled?;
    var o := if reused then reuse else |g.refs|;
    var ref := Ref(k, id, Live);
    g.(refs := if reused then g.refs[o := ref] else g.refs + [ref],
       issues := g.issues + [Issue(o, id, I.Claims(g.slab.log, id))],
       presented := g.presented + [false],
       owner := g.owner[id := ByRef(k)])
  }

  /** The compare-and-swap on allocState. */
  ghost function EnterStep(cfg: I.Config, g: Shared, k: nat, t: nat): (r: (Shared, Thread))
    requires Formed(cfg, g) && k < |g.issues|
    ensures r.0.slab == g.slab
  {
    assert GoodIssue(cfg, g, k);
    var o := g.issues[k].ref;
    assert GoodRef(cfg, g, o);
    var ref := g.refs[o];
    if !ref.stage.Live? then (g, Thread(Outside, I.Idle))
    else
      (g.(refs := g.refs[o := ref.(stage := Handled(t))], owner := g.owner[ref.slab := Freer(t)]),
       Thread(Storing(o), I.Idle))
  }

  /** The plain store, whatever the flag was. */
  ghost function StoreStep(cfg: I.Config, g: Shared, o: nat, t: nat, cpu: nat): (r: (Shared, Thread))
    requires Formed(cfg, g) && o < |g.refs|
    ensures |r.0.slab.inUse| == |g.slab.inUse|
  {
    assert GoodRef(cfg, g, o);
    var id := g.refs[o].slab;
    (g.(slab := g.slab.(inUse := g.slab.inUse[id := false], log := g.slab.log + [I.Released(id, t)]),
        owner := g.owner[id := Nobody]),
     Thread(Placing(o), if cfg.cacheCount == 0 then I.StackPush(id)
                        else I.ReturnPut(CacheIndex(cpu, cfg.cacheCount), id, I.Load)))
  }

  ghost function PoolStep(g: Shared, o: nat): Shared
    requires o < |g.refs|
  {
    g.(refs := g.refs[o := g.refs[o].(stage := Pooled)])
  }

  ghost function CallStep(g: Shared, x: Choice): (Shared, Thread)
    requires |g.presented| == |g.issues| && !x.wish.CallFast?
  {
    match x.wish
    case CallAllocate => (g, Thread(InAllocate(None), I.Idle))
    case CallDeallocate(k) =>
      if k < |g.issues| then (g.(presented := g.presented[k := true]), Thread(Entering(k), I.Idle))
      else (g, Thread(Outside, I.Idle))
  }

  /** What follows when the slab part of an allocation has answered. */
  ghost function AnswerStep(cfg: I.Config, pc: I.Pc, more: Option<I.Source>): Thread
    requires pc.Allocated?
  {
    if pc.slot.None? || more.None? then Thread(Outside, I.Idle)
    else
      Thread(InAllocate(None),
             if more == Some(I.Shards) then I.ShardGet(false)
             else if more == Some(I.Stack) || cfg.cacheCount == 0 then I.StackPop(false)
             else I.CacheGet(false))
  }

  ghost function FastChoice(x: I.Choice): I.Choice {
    if x.wish.WishAllocate? then x.(wish := I.WishAllocateFast) else x
  }

  ghost function Act(cfg: I.Config, g: Shared, th: Thread, t: nat, x: Choice): (Shared, Thread)
    requires Formed(cfg, g) && Placed(cfg, g, th)
  {
    match th.at
    case Outside =>
      if th.slab.Idle? && !x.wish.CallFast? then CallStep(g, x) else SlabStep(cfg, g, th, t, FastChoice(x.slab), Fast)
    case InAllocate(made) =>
      if th.slab.RecordAlloc? && made.None? then
        (MakeStep(cfg, g, th.slab.id, x.reuse), Thread(InAllocate(Some(|g.issues|)), th.slab))
      else if th.slab.Allocated? then (g, AnswerStep(cfg, th.slab, x.more))
      else SlabStep(cfg, g, th, t, x.slab.(wish := I.WishAllocate), Claimer(t))
    case Entering(k) => EnterStep(cfg, g, k, t)
    case Storing(o) => StoreStep(cfg, g, o, t, x.slab.cpu)
    case Placing(o) =>
      if th.slab.RecordFree? then
        (g.(deallocations := I.Increment(g.deallocations, x.slab.cpu)), Thread(Invalidating(o), I.Idle))
      else SlabStep(cfg, g, th, t, x.slab, Fast)
    case Invalidating(o) => (PoolStep(g, o), Thread(Outside, I.Idle))
  }

  // ---- The form is kept, whatever the callers do ----

  ghost predicate Grows(g: Shared, g1: Shared) {
    |g.issues| <= |g1.issues| && |g.refs| <= |g1.refs|
  }

  lemma SlabStepKeepsForm(cfg: I.Config, g: Shared, th: Thread, t: nat, x: I.Choice, taker: Owner)
    requires Formed(cfg, g) && I.GoodPc(cfg, th.slab)
    ensures var (g1, th1) := SlabStep(cfg, g, th, t, x, taker);
      && Formed(cfg, g1) && I.GoodPc(cfg, th1.slab) && th1.at == th.at
      && g1.issues == g.issues && g1.refs == g.refs && g1.presented == g.presented && g1.deallocations == g.deallocations
  {
    hide I.Act, I.GoodShared, I.GoodPc;
    I.ActKeepsGood(cfg, g.slab, th.slab, t, x);
    I.ActChanges(cfg, g.slab, th.slab, t, x);
    var g1 := SlabStep(cfg, g, th, t, x, taker).0;
    forall o | 0 <= o < |g1.refs| ensures GoodRef(cfg, g1, o) {
      assert GoodRef(cfg, g, o);
    }
    forall k | 0 <= k < |g1.issues| ensures GoodIssue(cfg, g1, k) {
      assert GoodIssue(cfg, g, k);
    }
  }

  lemma MakeKeepsForm(cfg: I.Config, g: Shared, id: int, reuse: nat)
    requires Formed(cfg, g) && I.InUseRange(cfg, id)
    ensures Formed(cfg, MakeStep(cfg, g, id, reuse)) && Grows(g, MakeStep(cfg, g, id, reuse))
  {
    hide I.GoodShared, I.Claims;
    var g1 := MakeStep(cfg, g, id, reuse);
    forall o | 0 <= o < |g1.refs| ensures GoodRef(cfg, g1, o) {
      if o < |g.refs| {
        assert GoodRef(cfg, g, o);
      }
    }
    forall k | 0 <= k < |g1.issues| ensures GoodIssue(cfg, g1, k) {
      if k < |g.issues| {
        assert GoodIssue(cfg, g, k);
      }
    }
  }

  /** Steps that change only the stage of an object, the flags, the log, the owners, the
      counters, or what was presented. */
  lemma MinorKeepsForm(cfg: I.Config, g: Shared, g1: Shared)
    requires Formed(cfg, g) && g1.issues == g.issues && |g1.refs| == |g.refs|
    requires forall o :: 0 <= o < |g.refs| ==> g1.refs[o].issue == g.refs[o].issue && g1.refs[o].slab == g.refs[o].slab
    requires |g1.presented| == |g.presented| && |g1.owner| == |g.owner| && |g1.deallocations| == |g.deallocations|
    requires I.GoodShared(cfg, g1.slab)
    ensures Formed(cfg, g1)
  {
    assert |g1.slab.inUse| == cfg.capacity;
    hide I.GoodShared;
    forall o | 0 <= o < |g1.refs| ensures GoodRef(cfg, g1, o) {
      assert GoodRef(cfg, g, o);
    }
    forall k | 0 <= k < |g1.issues| ensures GoodIssue(cfg, g1, k) {
      assert GoodIssue(cfg, g, k);
    }
  }

  lemma EnterKeepsForm(cfg: I.Config, g: Shared, k: nat, t: nat)
    requires Formed(cfg, g) && k < |g.issues|
    ensures var (g1, th1) := EnterStep(cfg, g, k, t);
      Formed(cfg, g1) && Placed(cfg, g1, th1) && Grows(g, g1)
  {
    assert GoodIssue(cfg, g, k) && GoodRef(cfg, g, g.issues[k].ref);
    hide I.GoodShared;
    MinorKeepsForm(cfg, g, EnterStep(cfg, g, k, t).0);
    hide Formed;
  }

  lemma StoreKeepsForm(cfg: I.Config, g: Shared, o: nat, t: nat, cpu: nat)
    requires Formed(cfg, g) && o < |g.refs|
    ensures var (g1, th1) := StoreStep(cfg, g, o, t, cpu);
      Formed(cfg, g1) && Placed(cfg, g1, th1) && Grows(g, g1)
  {
    assert GoodRef(cfg, g, o);
    hide I.GoodCache;
    MinorKeepsForm(cfg, g, StoreStep(cfg, g, o, t, cpu).0);
    hide Formed, I.GoodShared;
  }

  lemma ActKeepsForm(cfg: I.Config, g: Shared, th: Thread, t: nat, x: Choice)
    requires Formed(cfg, g) && Placed(cfg, g, th)
    ensures var (g1, th1) := Act(cfg, g, th, t, x);
      Formed(cfg, g1) && Placed(cfg, g1, th1) && Grows(g, g1)
  {
    hide Formed, I.GoodShared, SlabStep, MakeStep, EnterStep, StoreStep, PoolStep, CallStep, AnswerStep;
    match th.at
    case Outside =>
      if th.slab.Idle? && !x.wish.CallFast? {
        CallKeepsForm(cfg, g, x);
      } else {
        SlabStepKeepsForm(cfg, g, th, t, FastChoice(x.slab), Fast);
      }
    case InAllocate(made) =>
      if th.slab.RecordAlloc? && made.None? {
        MakeKeepsForm(cfg, g, th.slab.id, x.reuse);
      } else if th.slab.Allocated? {
        AnswerIsPlaced(cfg, g, th.slab, x.more);
      } else {
        SlabStepKeepsForm(cfg, g, th, t, x.slab.(wish := I.WishAllocate), Claimer(t));
      }
    case Entering(k) => EnterKeepsForm(cfg, g, k, t);
    case Storing(o) => StoreKeepsForm(cfg, g, o, t, x.slab.cpu);
    case Placing(o) =>
      if th.slab.RecordFree? {
        CountKeepsForm(cfg, g, x.slab.cpu);
      } else {
        SlabStepKeepsForm(cfg, g, th, t, x.slab, Fast);
      }
    case Invalidating(o) => PoolKeepsForm(cfg, g, o);
  }

  lemma CallKeepsForm(cfg: I.Config, g: Shared, x: Choice)
    requires Formed(cfg, g) && !x.wish.CallFast?
    ensures var (g1, th1) := CallStep(g, x);
      Formed(cfg, g1) && Placed(cfg, g1, th1) && Grows(g, g1)
  {
    hide I.GoodShared;
    MinorKeepsForm(cfg, g, CallStep(g, x).0);
    hide Formed;
  }

  lemma AnswerIsPlaced(cfg: I.Config, g: Shared, pc: I.Pc, more: Option<I.Source>)
    requires pc.Allocated?
    ensures Placed(cfg, g, AnswerStep(cfg, pc, more))
  {
  }

  lemma CountKeepsForm(cfg: I.Config, g: Shared, cpu: nat)
    requires Formed(cfg, g)
    ensures g.deallocations != [] && Formed(cfg, g.(deallocations := I.Increment(g.deallocations, cpu)))
  {
    hide I.GoodShared, I.Increment;
    MinorKeepsForm(cfg, g, g.(deallocations := I.Increment(g.deallocations, cpu)));
    hide Formed;
  }

  lemma PoolKeepsForm(cfg: I.Config, g: Shared, o: nat)
    requires Formed(cfg, g) && o < |g.refs|
    ensures Formed(cfg, PoolStep(g, o)) && Grows(g, PoolStep(g, o))
  {
    hide I.GoodShared;
    MinorKeepsForm(cfg, g, PoolStep(g, o));
    hide Formed;
  }

  // ---- What well-behaved callers keep ----

  /** The reference is the newest issue of its object, and not deallocated. */
  ghost predicate IsLive(g: Shared, k: nat) {
    && k < |g.issues| && g.issues[k].ref < |g.refs|
    && g.refs[g.issues[k].ref].issue == k && g.refs[g.issues[k].ref].stage.Live?
  }

  /** A slab is in use exactly if somebody relies on it; if a reference does, it is live. */
  ghost predicate GoodSlab(cfg: I.Config, g: Shared, i: nat)
    requires Sizes(cfg, g) && i < cfg.capacity
  {
    && (g.slab.inUse[i] <==> g.owner[i] != Nobody)
    && (g.owner[i].ByRef? ==> IsLive(g, g.owner[i].issue) && g.issues[g.owner[i].issue].slab == i)
  }

  /** A live reference has its slab to itself, which was not claimed again; a reference that
      was never passed to Deallocate is live. */
  ghost predicate Honoured(cfg: I.Config, g: Shared, k: nat)
    requires Sizes(cfg, g) && k < |g.issues| && I.InUseRange(cfg, g.issues[k].slab)
  {
    var issue := g.issues[k];
    && (IsLive(g, k) ==> g.owner[issue.slab] == ByRef(k) && I.Claims(g.slab.log, issue.slab) == issue.number)
    && (!g.presented[k] ==> IsLive(g, k))
  }

  ghost predicate AllHonoured(cfg: I.Config, g: Shared)
    requires Formed(cfg, g)
  {
    forall k :: 0 <= k < |g.issues| ==> GoodIssue(cfg, g, k) && Honoured(cfg, g, k)
  }

  ghost predicate Sound(cfg: I.Config, g: Shared) {
    && Formed(cfg, g) && I.Owned(g.slab)
    && (forall i :: 0 <= i < cfg.capacity ==> GoodSlab(cfg, g, i))
    && AllHonoured(cfg, g)
  }

  ghost predicate Owns(g: Shared, slab: int, who: Owner) {
    0 <= slab < |g.owner| && g.owner[slab] == who
  }

  ghost predicate Handles(g: Shared, o: nat, t: nat) {
    o < |g.refs| && g.refs[o].stage == Handled(t)
  }

  ghost predicate GoodThread(cfg: I.Config, g: Shared, t: nat, th: Thread) {
    && Placed(cfg, g, th)
    && match th.at
       case Outside => true
       case InAllocate(made) =>
         I.AllocatePc(th.slab) && (made.None? && th.slab.RecordAlloc? ==> Owns(g, th.slab.id, Claimer(t)))
       case Entering(k) => th.slab.Idle? && k < |g.presented| && g.presented[k]
       case Storing(o) => th.slab.Idle? && Handles(g, o, t) && Owns(g, g.refs[o].slab, Freer(t))
       case Placing(o) => I.ReturnPc(th.slab) && Handles(g, o, t)
       case Invalidating(o) => th.slab.Idle? && Handles(g, o, t)
  }

  /** What the callers owe: DeallocateFast is not called with a slab that a reference relies
      on, and no reference is passed to Deallocate again after its object was issued again,
      unless that issue was deallocated too. */
  ghost predicate Allowed(g: Shared, th: Thread) {
    && (th.at.Outside? && th.slab.FreeCas? && 0 <= th.slab.id < |g.owner| ==> g.owner[th.slab.id] in {Nobody, Fast})
    && (th.at.Entering? && th.at.issue < |g.issues| && g.issues[th.at.issue].ref < |g.refs| ==>
          var ref := g.refs[g.issues[th.at.issue].ref];
          ref.issue == th.at.issue || !ref.stage.Live?)
  }

  /** What a step of thread t may change, as far as other threads rely on it. */
  ghost predicate Undisturbed(g: Shared, g1: Shared, t: nat) {
    && Grows(g, g1) && |g.presented| <= |g1.presented| && |g1.owner| == |g.owner|
    && (forall k :: 0 <= k < |g.presented| && g.presented[k] ==> g1.presented[k])
    && (forall i :: 0 <= i < |g.owner| && g1.owner[i] != g.owner[i] ==>
          g.owner[i] in {Nobody, Fast, Claimer(t), Freer(t)} || g.owner[i].ByRef?)
    && (forall o :: 0 <= o < |g.refs| && g.refs[o].stage.Handled? && g.refs[o].stage.thread != t ==>
          g1.refs[o] == g.refs[o])
  }

  ghost predicate GoodThreads(cfg: I.Config, g: Shared, threads: seq<Thread>) {
    forall t :: 0 <= t < |threads| ==> GoodThread(cfg, g, t, threads[t])
  }

  lemma OthersStayGood(cfg: I.Config, g: Shared, g1: Shared, t: nat, threads: seq<Thread>, th1: Thread)
    requires GoodThreads(cfg, g, threads) && Undisturbed(g, g1, t) && t < |threads| && GoodThread(cfg, g1, t, th1)
    ensures GoodThreads(cfg, g1, threads[t := th1])
  {
    var after := threads[t := th1];
    forall q | 0 <= q < |after| ensures GoodThread(cfg, g1, q, after[q]) {
      if q != t {
        assert GoodThread(cfg, g, q, threads[q]);
        hide I.GoodPc, I.AllocatePc, I.ReturnPc;
      }
    }
  }

  /** Conclusion of every step lemma. */
  ghost predicate Fine(cfg: I.Config, g: Shared, t: nat, r: (Shared, Thread)) {
    Sound(cfg, r.0) && GoodThread(cfg, r.0, t, r.1) && Undisturbed(g, r.0, t)
  }

  lemma ClaimsAppend(log: seq<I.Event>, e: I.Event, id: int)
    ensures I.Claims(log + [e], id) == I.Claims(log, id) + if e.Claimed? && e.id == id then 1 else 0
  {
    assert (log + [e])[..|log|] == log;
  }

  /** A slab step claims a slab nobody relies on, or frees one of AllocateFast. */
  lemma SlabStepIsSound(cfg: I.Config, g: Shared, th: Thread, t: nat, x: I.Choice, taker: Owner)
    requires Sound(cfg, g) && I.GoodPc(cfg, th.slab) && (taker == Fast || taker == Claimer(t))
    requires I.ChangeOf(g.slab, th.slab).Gave? ==> Owns(g, th.slab.id, Fast)
    ensures var (g1, th1) := SlabStep(cfg, g, th, t, x, taker);
      && Sound(cfg, g1) && Undisturbed(g, g1, t) && (Placed(cfg, g, th) ==> Placed(cfg, g1, th1))
      && th1.at == th.at && g1.refs == g.refs && g1.presented == g.presented
      && (I.ChangeOf(g.slab, th.slab).Took? ==>
            Owns(g1, th.slab.id, taker) && th1.slab == I.RecordAlloc(th.slab.fast, th.slab.id))
  {
    hide I.Act, I.GoodShared, I.GoodPc, I.Owned, I.Claims;
    SlabStepKeepsForm(cfg, g, th, t, x, taker);
    I.ActChanges(cfg, g.slab, th.slab, t, x);
    I.ActKeepsOwned(cfg, g.slab, th.slab, t, x);
    var g1 := SlabStep(cfg, g, th, t, x, taker).0;
    var c := I.ChangeOf(g.slab, th.slab);
    if c.Took? {
      assert GoodSlab(cfg, g, c.id);
    }
    forall i | 0 <= i < cfg.capacity ensures GoodSlab(cfg, g1, i) {
      assert GoodSlab(cfg, g, i);
    }
    forall k | 0 <= k < |g1.issues| ensures GoodIssue(cfg, g1, k) && Honoured(cfg, g1, k) {
      assert GoodIssue(cfg, g, k) && Honoured(cfg, g, k);
      assert GoodSlab(cfg, g, g.issues[k].slab);
      match c
      case Same =>
      case Took(id) => ClaimsAppend(g.slab.log, I.Claimed(id, t), g.issues[k].slab);
      case Gave(id) => ClaimsAppend(g.slab.log, I.Released(id, t), g.issues[k].slab);
    }
  }

  lemma FastStepIsFine(cfg: I.Config, g: Shared, th: Thread, t: nat, x: I.Choice)
    requires Sound(cfg, g) && GoodThread(cfg, g, t, th) && th.at.Outside? && Allowed(g, th)
    ensures Fine(cfg, g, t, SlabStep(cfg, g, th, t, x, Fast))
  {
    if I.ChangeOf(g.slab, th.slab).Gave? {
      assert GoodSlab(cfg, g, th.slab.id);
    }
    hide I.GoodShared, I.GoodPc, I.Owned;
    SlabStepIsSound(cfg, g, th, t, x, Fast);
    hide Sound, SlabStep, Undisturbed;
  }

  lemma AllocateStepIsFine(cfg: I.Config, g: Shared, th: Thread, t: nat, x: I.Choice)
    requires Sound(cfg, g) && GoodThread(cfg, g, t, th) && th.at.InAllocate? && !th.slab.Allocated?
    requires th.slab.RecordAlloc? ==> th.at.made.Some?
    requires !x.wish.WishDeallocateFast?
    ensures Fine(cfg, g, t, SlabStep(cfg, g, th, t, x, Claimer(t)))
  {
    hide I.GoodShared, I.GoodPc, I.Owned;
    SlabStepIsSound(cfg, g, th, t, x, Claimer(t));
    I.AllocateStays(cfg, g.slab, th.slab, t, x);
    hide Sound, Undisturbed, I.AllocatePc, I.Act;
  }

  lemma PlaceStepIsFine(cfg: I.Config, g: Shared, th: Thread, t: nat, x: I.Choice)
    requires Sound(cfg, g) && GoodThread(cfg, g, t, th) && th.at.Placing? && !th.slab.RecordFree?
    ensures Fine(cfg, g, t, SlabStep(cfg, g, th, t, x, Fast))
  {
    hide I.GoodShared, I.GoodPc, I.Owned;
    SlabStepIsSound(cfg, g, th, t, x, Fast);
    I.ReturnStays(cfg, g.slab, th.slab, t, x);
    hide Sound, Undisturbed, I.ReturnPc, I.Act;
  }

  lemma MakeIsFine(cfg: I.Config, g: Shared, th: Thread, t: nat, reuse: nat)
    requires Sound(cfg, g) && GoodThread(cfg, g, t, th) && th.at == InAllocate(None) && th.slab.RecordAlloc?
    ensures Fine(cfg, g, t, (MakeStep(cfg, g, th.slab.id, reuse), Thread(InAllocate(Some(|g.issues|)), th.slab)))
  {
    var id := th.slab.id;
    hide I.GoodShared, I.Claims, I.Owned;
    MakeKeepsForm(cfg, g, id, reuse);
    var g1 := MakeStep(cfg, g, id, reuse);
    assert GoodSlab(cfg, g, id);
    forall i | 0 <= i < cfg.capacity ensures GoodSlab(cfg, g1, i) {
      assert GoodSlab(cfg, g, i);
    }
    forall k | 0 <= k < |g1.issues| ensures GoodIssue(cfg, g1, k) && Honoured(cfg, g1, k) {
      if k < |g.issues| {
        assert GoodIssue(cfg, g, k) && Honoured(cfg, g, k);
      }
    }
  }

  lemma EnterIsFine(cfg: I.Config, g: Shared, th: Thread, t: nat)
    requires Sound(cfg, g) && GoodThread(cfg, g, t, th) && th.at.Entering? && Allowed(g, th)
    ensures Fine(cfg, g, t, EnterStep(cfg, g, th.at.issue, t))
  {
    var k := th.at.issue;
    hide I.GoodShared, I.Claims, I.Owned;
    assert GoodIssue(cfg, g, k) && Honoured(cfg, g, k) && GoodRef(cfg, g, g.issues[k].ref);
    EnterKeepsForm(cfg, g, k, t);
    var g1 := EnterStep(cfg, g, k, t).0;
    forall i | 0 <= i < cfg.capacity ensures GoodSlab(cfg, g1, i) {
      assert GoodSlab(cfg, g, i);
    }
    forall j | 0 <= j < |g1.issues| ensures GoodIssue(cfg, g1, j) && Honoured(cfg, g1, j) {
      assert GoodIssue(cfg, g, j) && Honoured(cfg, g, j);
    }
  }

  lemma StoreKeepsOwned(cfg: I.Config, g: Shared, o: nat, t: nat, cpu: nat)
    requires Formed(cfg, g) && I.Owned(g.slab) && o < |g.refs| && GoodRef(cfg, g, o) && g.slab.inUse[g.refs[o].slab]
    ensures I.Owned(StoreStep(cfg, g, o, t, cpu).0.slab)
  {
    hide I.GoodShared, I.Alternates, I.Held;
    I.OwnedAfter(g.slab, StoreStep(cfg, g, o, t, cpu).0.slab, I.Released(g.refs[o].slab, t));
  }

  /** The plain store finds the flag set. */
  lemma StoreIsFine(cfg: I.Config, g: Shared, th: Thread, t: nat, cpu: nat)
    requires Sound(cfg, g) && GoodThread(cfg, g, t, th) && th.at.Storing?
    ensures g.slab.inUse[g.refs[th.at.ref].slab]
    ensures Fine(cfg, g, t, StoreStep(cfg, g, th.at.ref, t, cpu))
  {
    var o := th.at.ref;
    hide I.GoodShared, I.Claims, I.Owned;
    assert GoodRef(cfg, g, o) && GoodSlab(cfg, g, g.refs[o].slab);
    StoreKeepsForm(cfg, g, o, t, cpu);
    StoreKeepsOwned(cfg, g, o, t, cpu);
    var g1 := StoreStep(cfg, g, o, t, cpu).0;
    forall i | 0 <= i < cfg.capacity ensures GoodSlab(cfg, g1, i) {
      assert GoodSlab(cfg, g, i);
    }
    forall j | 0 <= j < |g1.issues| ensures GoodIssue(cfg, g1, j) && Honoured(cfg, g1, j) {
      assert GoodIssue(cfg, g, j) && Honoured(cfg, g, j);
      ClaimsAppend(g.slab.log, I.Released(g.refs[o].slab, t), g.issues[j].slab);
    }
  }

  /** Steps that change neither flags, log, issues nor owners, and make no object live or
      not live. */
  lemma QuietIsSound(cfg: I.Config, g: Shared, g1: Shared)
    requires Sound(cfg, g) && Formed(cfg, g1)
    requires g1.slab == g.slab && g1.issues == g.issues && g1.owner == g.owner
    requires forall k :: 0 <= k < |g.presented| && g.presented[k] ==> g1.presented[k]
    requires |g1.refs| == |g.refs|
    requires forall o :: 0 <= o < |g.refs| ==>
      g1.refs[o].issue == g.refs[o].issue && (g1.refs[o].stage.Live? <==> g.refs[o].stage.Live?)
    ensures Sound(cfg, g1)
  {
    hide I.GoodShared, I.Claims, I.Owned;
    forall i | 0 <= i < cfg.capacity ensures GoodSlab(cfg, g1, i) {
      assert GoodSlab(cfg, g, i);
    }
    forall j | 0 <= j < |g1.issues| ensures GoodIssue(cfg, g1, j) && Honoured(cfg, g1, j) {
      assert GoodIssue(cfg, g, j) && Honoured(cfg, g, j);
    }
  }

  lemma CallIsFine(cfg: I.Config, g: Shared, t: nat, x: Choice)
    requires Sound(cfg, g) && !x.wish.CallFast?
    ensures Fine(cfg, g, t, CallStep(g, x))
  {
    CallKeepsForm(cfg, g, x);
    QuietIsSound(cfg, g, CallStep(g, x).0);
    hide Sound;
  }

  lemma CountIsFine(cfg: I.Config, g: Shared, th: Thread, t: nat, cpu: nat)
    requires Sound(cfg, g) && GoodThread(cfg, g, t, th) && th.at.Placing?
    ensures g.deallocations != []
    ensures Fine(cfg, g, t,
                 (g.(deallocations := I.Increment(g.deallocations, cpu)), Thread(Invalidating(th.at.ref), I.Idle)))
  {
    CountKeepsForm(cfg, g, cpu);
    hide I.Increment;
    QuietIsSound(cfg, g, g.(deallocations := I.Increment(g.deallocations, cpu)));
    hide Sound, Formed;
  }

  lemma PoolIsFine(cfg: I.Config, g: Shared, th: Thread, t: nat)
    requires Sound(cfg, g) && GoodThread(cfg, g, t, th) && th.at.Invalidating?
    ensures Fine(cfg, g, t, (PoolStep(g, th.at.ref), Thread(Outside, I.Idle)))
  {
    PoolKeepsForm(cfg, g, th.at.ref);
    QuietIsSound(cfg, g, PoolStep(g, th.at.ref));
    hide Sound, Formed;
  }

  lemma AnswerIsFine(cfg: I.Config, g: Shared, th: Thread, t: nat, more: Option<I.Source>)
    requires Sound(cfg, g) && GoodThread(cfg, g, t, th) && th.slab.Allocated?
    ensures Fine(cfg, g, t, (g, AnswerStep(cfg, th.slab, more)))
  {
    AnswerIsPlaced(cfg, g, th.slab, more);
    hide Sound;
  }

  lemma ActIsFine(cfg: I.Config, g: Shared, th: Thread, t: nat, x: Choice)
    requires Sound(cfg, g) && GoodThread(cfg, g, t, th) && Allowed(g, th)
    ensures Fine(cfg, g, t, Act(cfg, g, th, t, x))
  {
    SoundIsFormed(cfg, g);
    hide Sound, Formed, Fine, Allowed, I.GoodShared;
    hide SlabStep, MakeStep, EnterStep, StoreStep, PoolStep, CallStep, AnswerStep;
    match th.at
    case Outside =>
      if th.slab.Idle? && !x.wish.CallFast? {
        CallIsFine(cfg, g, t, x);
      } else {
        FastStepIsFine(cfg, g, th, t, FastChoice(x.slab));
      }
    case InAllocate(made) =>
      if th.slab.RecordAlloc? && made.None? {
        MakeIsFine(cfg, g, th, t, x.reuse);
      } else if th.slab.Allocated? {
        AnswerIsFine(cfg, g, th, t, x.more);
      } else {
        AllocateStepIsFine(cfg, g, th, t, x.slab.(wish := I.WishAllocate));
      }
    case Entering(k) => EnterIsFine(cfg, g, th, t);
    case Storing(o) => StoreIsFine(cfg, g, th, t, x.slab.cpu);
    case Placing(o) =>
      if th.slab.RecordFree? {
        CountIsFine(cfg, g, th, t, x.slab.cpu);
      } else {
        PlaceStepIsFine(cfg, g, th, t, x.slab);
      }
    case Invalidating(o) => PoolIsFine(cfg, g, th, t);
  }

  lemma SoundIsFormed(cfg: I.Config, g: Shared)
    requires Sound(cfg, g)
    ensures Formed(cfg, g)
  {
  }

  // ---- All threads ----

  datatype State = State(shared: Shared, threads: seq<Thread>)

  datatype Turn = Turn(thread: nat, choice: Choice)

  ghost predicate AllPlaced(cfg: I.Config, g: Shared, threads: seq<Thread>) {
    forall t :: 0 <= t < |threads| ==> Placed(cfg, g, threads[t])
  }

  ghost predicate Good(cfg: I.Config, s: State) {
    Formed(cfg, s.shared) && AllPlaced(cfg, s.shared, s.threads)
  }

  ghost function Start(cfg: I.Config, threadCount: nat): (s: State)
    requires I.ValidConfig(cfg)
  {
    State(Shared(I.Start(cfg, 0).shared, [], Repeat(0, cfg.cpus), [], [], Repeat(Nobody, cfg.capacity)),
          Repeat(Thread(Outside, I.Idle), threadCount))
  }

  lemma StartIsSound(cfg: I.Config, threadCount: nat)
    requires I.ValidConfig(cfg)
    ensures var s := Start(cfg, threadCount);
      Good(cfg, s) && Sound(cfg, s.shared) && GoodThreads(cfg, s.shared, s.threads)
  {
    I.StartIsGood(cfg, 0);
    hide I.Owned;
    assert |I.Start(cfg, 0).shared.inUse| == cfg.capacity;
    hide I.GoodShared;
  }

  lemma OthersStayPlaced(cfg: I.Config, g: Shared, g1: Shared, threads: seq<Thread>, t: nat, th1: Thread)
    requires AllPlaced(cfg, g, threads) && Grows(g, g1) && t < |threads| && Placed(cfg, g1, th1)
    ensures AllPlaced(cfg, g1, threads[t := th1])
  {
    forall q | 0 <= q < |threads| && q != t ensures Placed(cfg, g1, threads[q]) {
      assert Placed(cfg, g, threads[q]);
      hide I.GoodPc;
    }
    hide Placed;
  }

  /** The chosen thread takes one step; a turn of a thread that does not exist is skipped. */
  ghost function Step(cfg: I.Config, s: State, turn: Turn): (r: State)
    requires Good(cfg, s)
    ensures Good(cfg, r) && |r.threads| == |s.threads|
  {
    if turn.thread >= |s.threads| then s
    else
      var t, th := turn.thread, s.threads[turn.thread];
      hide Formed, Placed, Grows;
      ActKeepsForm(cfg, s.shared, th, t, turn.choice);
      var (g, th1) := Act(cfg, s.shared, th, t, turn.choice);
      hide Act;
      OthersStayPlaced(cfg, s.shared, g, s.threads, t, th1);
      State(g, s.threads[t := th1])
  }

  ghost function Run(cfg: I.Config, threadCount: nat, schedule: seq<Turn>): (s: State)
    requires I.ValidConfig(cfg)
    ensures Good(cfg, s) && |s.threads| == threadCount
  {
    hide Good, Step;
    if schedule == [] then
      StartIsSound(cfg, threadCount);
      Start(cfg, threadCount)
    else Step(cfg, Run(cfg, threadCount, schedule[..|schedule| - 1]), schedule[|schedule| - 1])
  }

  ghost predicate AllowedTurn(s: State, turn: Turn) {
    turn.thread < |s.threads| ==> Allowed(s.shared, s.threads[turn.thread])
  }

  /** The callers keep to what they owe at every step. */
  ghost predicate Permitted(cfg: I.Config, threadCount: nat, schedule: seq<Turn>)
    requires I.ValidConfig(cfg)
  {
    schedule == []
    || var n := |schedule| - 1;
       Permitted(cfg, threadCount, schedule[..n]) && AllowedTurn(Run(cfg, threadCount, schedule[..n]), schedule[n])
  }

  ghost predicate InOrder(cfg: I.Config, s: State) {
    Good(cfg, s) && Sound(cfg, s.shared) && GoodThreads(cfg, s.shared, s.threads)
  }

  lemma StepKeepsOrder(cfg: I.Config, s: State, turn: Turn)
    requires InOrder(cfg, s) && AllowedTurn(s, turn)
    ensures InOrder(cfg, Step(cfg, s, turn))
  {
    if turn.thread < |s.threads| {
      assert Formed(cfg, s.shared) && Placed(cfg, s.shared, s.threads[turn.thread]);
      hide Act, Sound, Formed, GoodThread, Undisturbed, Allowed, Good, Placed;
      var t := turn.thread;
      ActIsFine(cfg, s.shared, s.threads[t], t, turn.choice);
      var (g, th1) := Act(cfg, s.shared, s.threads[t], t, turn.choice);
      OthersStayGood(cfg, s.shared, g, t, s.threads, th1);
    }
  }

  lemma {:induction false} RunKeepsOrder(cfg: I.Config, threadCount: nat, schedule: seq<Turn>)
    requires I.ValidConfig(cfg) && Permitted(cfg, threadCount, schedule)
    ensures InOrder(cfg, Run(cfg, threadCount, schedule))
  {
    hide Step, Start, Sound, Formed, GoodThreads, AllowedTurn, Good;
    if schedule == [] {
      StartIsSound(cfg, threadCount);
    } else {
      var n := |schedule| - 1;
      RunKeepsOrder(cfg, threadCount, schedule[..n]);
      StepKeepsOrder(cfg, Run(cfg, threadCount, schedule[..n]), schedule[n]);
    }
  }

  // ---- Main results ----

  /** The slab is in use, and its last claim, not released since, is the one the reference
      was issued for; the reference is live. */
  ghost predicate HeldBy(g: Shared, k: nat) {
    && IsLive(g, k) && 0 <= g.issues[k].slab < |g.slab.inUse| && g.slab.inUse[g.issues[k].slab]
    && I.Claims(g.slab.log, g.issues[k].slab) == g.issues[k].number
    && I.Releases(g.slab.log, g.issues[k].slab) == g.issues[k].number - 1
  }

  /** In every interleaving in which the callers keep to what they owe, no slab has two
      holders although Deallocate frees by a plain store, and every reference never passed to
      Deallocate is live and holds its slab alone. */
  lemma ReferencesAreSafe(cfg: I.Config, threadCount: nat, schedule: seq<Turn>)
    requires I.ValidConfig(cfg) && Permitted(cfg, threadCount, schedule)
    ensures var g := Run(cfg, threadCount, schedule).shared;
      && I.OneHolder(g.slab)
      && |g.presented| == |g.issues|
      && forall k :: 0 <= k < |g.issues| && !g.presented[k] ==> HeldBy(g, k)
  {
    RunKeepsOrder(cfg, threadCount, schedule);
    var g := Run(cfg, threadCount, schedule).shared;
    hide Run, Permitted, I.OneHolder;
    I.OwnedMeans(g.slab);
    forall k | 0 <= k < |g.issues| && !g.presented[k] ensures HeldBy(g, k) {
      LiveHolds(cfg, g, k);
    }
  }

  lemma LiveHolds(cfg: I.Config, g: Shared, k: nat)
    requires Sound(cfg, g) && k < |g.issues|
    ensures !g.presented[k] ==> IsLive(g, k)
    ensures IsLive(g, k) ==> HeldBy(g, k) && Owns(g, g.issues[k].slab, ByRef(k))
  {
    hide I.GoodShared, I.Claims, I.Releases, I.Alternates, I.Held;
    assert GoodIssue(cfg, g, k) && Honoured(cfg, g, k);
    assert GoodSlab(cfg, g, g.issues[k].slab);
    I.ClaimsLessReleases(g.slab.log, g.issues[k].slab);
  }

  /** Shared memory after thread t has run Deallocate of a reference up to the store. */
  ghost function Cleared(cfg: I.Config, g: Shared, k: nat, t: nat, cpu: nat): (r: Shared)
    requires Formed(cfg, g) && k < |g.issues|
    ensures |r.slab.inUse| == |g.slab.inUse|
  {
    EnterKeepsForm(cfg, g, k, t);
    var (g1, th1) := EnterStep(cfg, g, k, t);
    if th1.at.Storing? then StoreStep(cfg, g1, th1.at.ref, t, cpu).0 else g1
  }

  /** Every other live reference stays live and keeps its slab. */
  ghost predicate SparesOthers(g: Shared, g1: Shared, k: nat) {
    forall j :: 0 <= j < |g.issues| && j != k && IsLive(g, j) ==>
      IsLive(g1, j) && 0 <= g.issues[j].slab < |g1.slab.inUse| && g1.slab.inUse[g.issues[j].slab]
  }

  /** Deallocate of a reference leaves all others alone if and only if the object was not
      issued again since, or that issue is deallocated already. Otherwise it frees the slab
      of the newer reference, which its holder never gave up. */
  lemma DeallocateSparesOthersExactlyWhen(cfg: I.Config, g: Shared, k: nat, t: nat, cpu: nat)
    requires Sound(cfg, g) && k < |g.issues|
    ensures g.issues[k].ref < |g.refs|
    ensures var newest := g.refs[g.issues[k].ref].issue;
      && k <= newest < |g.issues|
      && (SparesOthers(g, Cleared(cfg, g, k, t, cpu), k) <==> newest == k || !IsLive(g, newest))
      && (newest != k && IsLive(g, newest) ==>
            !IsLive(Cleared(cfg, g, k, t, cpu), newest)
            && 0 <= g.issues[newest].slab < |g.slab.inUse|
            && g.slab.inUse[g.issues[newest].slab]
            && !Cleared(cfg, g, k, t, cpu).slab.inUse[g.issues[newest].slab])
  {
    assert GoodIssue(cfg, g, k) && GoodRef(cfg, g, g.issues[k].ref);
    var newest := g.refs[g.issues[k].ref].issue;
    hide I.GoodShared, I.Claims, I.Releases, I.Owned;
    LiveHolds(cfg, g, newest);
    forall j | 0 <= j < |g.issues| ensures IsLive(g, j) ==> HeldBy(g, j) && Owns(g, g.issues[j].slab, ByRef(j)) {
      LiveHolds(cfg, g, j);
    }
    hide Sound, GoodSlab;
  }

  /** The compare-and-swap of DeallocateFast leaves all references alone if and only if no
      live reference holds the slab. */
  lemma DeallocateFastSparesReferencesExactlyWhen(cfg: I.Config, g: Shared, th: Thread, t: nat, x: I.Choice)
    requires Sound(cfg, g) && I.GoodPc(cfg, th.slab) && th.slab.FreeCas?
    ensures SparesOthers(g, SlabStep(cfg, g, th, t, x, Fast).0, |g.issues|)
       <==> forall j :: 0 <= j < |g.issues| && IsLive(g, j) ==> g.issues[j].slab != th.slab.id
  {
    hide I.GoodShared, I.Claims, I.Releases, I.Owned, I.Act;
    I.ActChanges(cfg, g.slab, th.slab, t, x);
    forall j | 0 <= j < |g.issues| ensures IsLive(g, j) ==> HeldBy(g, j) {
      LiveHolds(cfg, g, j);
    }
    hide Sound, GoodSlab;
  }

  /** Where the flag is set, as it always is in such interleavings, the store of Deallocate does
      to the slabs what the compare-and-swap of DeallocateFast does, and from there on the ID
      is put back by the very steps of DeallocateFast. */
  lemma DeallocateReturnsAsFast(cfg: I.Config, g: Shared, th: Thread, t: nat, x: Choice)
    requires Sound(cfg, g) && GoodThread(cfg, g, t, th)
    ensures Formed(cfg, g) && Placed(cfg, g, th)
    ensures var (g1, th1) := Act(cfg, g, th, t, x);
      && (th.at.Storing? ==>
            && I.InUseRange(cfg, g.refs[th.at.ref].slab) && th1.at == Placing(th.at.ref)
            && (g1.slab, th1.slab) == I.Act(cfg, g.slab, I.FreeCas(g.refs[th.at.ref].slab), t, x.slab))
      && (th.at.Placing? && !th.slab.RecordFree? ==>
            && th1.at == th.at && (g1.slab, th1.slab) == I.Act(cfg, g.slab, th.slab, t, x.slab))
      && (th.at.Placing? && th.slab.RecordFree? ==> th1.at == Invalidating(th.at.ref) && g1.slab == g.slab)
  {
    if th.at.Storing? {
      assert GoodRef(cfg, g, th.at.ref);
      StoreIsFine(cfg, g, th, t, x.slab.cpu);
      hide I.GoodShared, I.Owned, I.Claims, GoodSlab, AllHonoured, I.GoodPc;
    } else {
      hide I.GoodShared, I.Owned, I.Claims, GoodSlab, AllHonoured, I.Act, I.Increment;
    }
  }

  // ---- Conservation ----

  ghost function Positions(threads: seq<Thread>): (r: seq<I.Pc>)
    ensures |r| == |threads| && forall t :: 0 <= t < |r| ==> r[t] == threads[t].slab
  {
    seq(|threads|, t requires 0 <= t < |threads| => threads[t].slab)
  }

  /** Recorded allocations less deallocations of both kinds, less the slabs in use. */
  ghost function Surplus(g: Shared): int {
    I.Recorded(g.slab) - I.Sum(g.deallocations) - I.UsedCount(g.slab.inUse)
  }

  lemma SlabStepBalances(cfg: I.Config, g: Shared, th: Thread, t: nat, x: I.Choice, taker: Owner)
    requires Formed(cfg, g) && I.GoodPc(cfg, th.slab)
    ensures var (g1, th1) := SlabStep(cfg, g, th, t, x, taker);
      Surplus(g1) + I.Unrecorded(th1.slab) == Surplus(g) + I.Unrecorded(th.slab)
  {
    hide Formed, I.Act, I.GoodShared, I.Recorded, I.UsedCount, I.Unrecorded, I.ChangeOf, I.Sum;
    SoundSizes(cfg, g);
    I.ActCounts(cfg, g.slab, th.slab, t, x);
    I.UsedAfter(cfg, g.slab, th.slab, t, x);
  }

  lemma SoundSizes(cfg: I.Config, g: Shared)
    requires Formed(cfg, g)
    ensures Sizes(cfg, g)
  {
  }

  lemma StoreBalances(cfg: I.Config, g: Shared, th: Thread, t: nat, cpu: nat)
    requires Sound(cfg, g) && GoodThread(cfg, g, t, th) && th.at.Storing?
    ensures var (g1, th1) := StoreStep(cfg, g, th.at.ref, t, cpu);
      Surplus(g1) + I.Unrecorded(th1.slab) == Surplus(g) + I.Unrecorded(th.slab)
  {
    StoreIsFine(cfg, g, th, t, cpu);
    assert GoodRef(cfg, g, th.at.ref);
    hide I.GoodShared, Sound, Formed, Fine, GoodRef, I.GoodPc, I.Sum, FreeBag;
    FreeBagSet(g.slab.inUse, g.refs[th.at.ref].slab, false);
  }

  lemma ActBalances(cfg: I.Config, g: Shared, th: Thread, t: nat, x: Choice)
    requires Sound(cfg, g) && GoodThread(cfg, g, t, th)
    ensures var (g1, th1) := Act(cfg, g, th, t, x);
      Surplus(g1) + I.Unrecorded(th1.slab) == Surplus(g) + I.Unrecorded(th.slab)
  {
    SoundIsFormed(cfg, g);
    hide Sound, Formed, I.GoodShared, SlabStep, MakeStep, EnterStep, StoreStep, PoolStep, CallStep, AnswerStep;
    hide I.Recorded, I.UsedCount, I.Sum, I.Increment;
    match th.at
    case Outside =>
      if th.slab.Idle? && !x.wish.CallFast? {
        CallBalances(g, x);
      } else {
        SlabStepBalances(cfg, g, th, t, FastChoice(x.slab), Fast);
      }
    case InAllocate(made) =>
      if th.slab.RecordAlloc? && made.None? {
        MakeBalances(cfg, g, th.slab.id, x.reuse);
      } else if th.slab.Allocated? {
        AnswerBalances(cfg, th.slab, x.more);
      } else {
        SlabStepBalances(cfg, g, th, t, x.slab.(wish := I.WishAllocate), Claimer(t));
      }
    case Entering(k) => EnterBalances(cfg, g, k, t);
    case Storing(o) => StoreBalances(cfg, g, th, t, x.slab.cpu);
    case Placing(o) =>
      if th.slab.RecordFree? {
        CountKeepsForm(cfg, g, x.slab.cpu);
        I.RecordsOne(g.deallocations, x.slab.cpu);
      } else {
        SlabStepBalances(cfg, g, th, t, x.slab, Fast);
      }
    case Invalidating(o) => PoolBalances(g, o);
  }

  lemma CallBalances(g: Shared, x: Choice)
    requires |g.presented| == |g.issues| && !x.wish.CallFast?
    ensures Surplus(CallStep(g, x).0) == Surplus(g) && CallStep(g, x).1.slab.Idle?
  {
  }

  lemma MakeBalances(cfg: I.Config, g: Shared, id: int, reuse: nat)
    requires Formed(cfg, g) && I.InUseRange(cfg, id)
    ensures Surplus(MakeStep(cfg, g, id, reuse)) == Surplus(g)
  {
    hide I.GoodShared, I.Claims;
  }

  lemma AnswerBalances(cfg: I.Config, pc: I.Pc, more: Option<I.Source>)
    requires pc.Allocated?
    ensures I.Unrecorded(AnswerStep(cfg, pc, more).slab) == 0
  {
  }

  lemma EnterBalances(cfg: I.Config, g: Shared, k: nat, t: nat)
    requires Formed(cfg, g) && k < |g.issues|
    ensures Surplus(EnterStep(cfg, g, k, t).0) == Surplus(g) && EnterStep(cfg, g, k, t).1.slab.Idle?
  {
    assert GoodIssue(cfg, g, k);
    hide I.GoodShared;
  }

  lemma PoolBalances(g: Shared, o: nat)
    requires o < |g.refs|
    ensures Surplus(PoolStep(g, o)) == Surplus(g)
  {
  }

  ghost predicate Balanced(s: State) {
    Surplus(s.shared) + I.InFlight(Positions(s.threads)) == 0
  }

  lemma StepBalances(cfg: I.Config, s: State, turn: Turn)
    requires InOrder(cfg, s) && Balanced(s)
    ensures Balanced(Step(cfg, s, turn))
  {
    if turn.thread < |s.threads| {
      var t := turn.thread;
      var g, th := s.shared, s.threads[t];
      assert GoodThread(cfg, g, t, th) && Formed(cfg, g) && Placed(cfg, g, th);
      hide Act, Sound, Formed, GoodThread, Good, Placed, Surplus, I.Unrecorded, I.InFlight, Positions;
      ActBalances(cfg, g, th, t, turn.choice);
      var th1 := Act(cfg, g, th, t, turn.choice).1;
      I.InFlightSet(Positions(s.threads), t, th1.slab);
      assert Positions(s.threads[t := th1]) == Positions(s.threads)[t := th1.slab];
    }
  }

  lemma StartBalances(cfg: I.Config, threadCount: nat)
    requires I.ValidConfig(cfg)
    ensures Balanced(Start(cfg, threadCount))
  {
    I.StartConserves(cfg, 0);
    I.SumOfZeros(cfg.cpus);
    hide I.Recorded, I.UsedCount, I.Sum;
    I.NothingInFlight(Positions(Start(cfg, threadCount).threads));
    hide Positions;
  }

  /** In every such interleaving the number of slabs in use is what the counters of all four
      kinds of calls say, up to the threads between a claim or free and its record. */
  lemma {:induction false} CountersAreConserved(cfg: I.Config, threadCount: nat, schedule: seq<Turn>)
    requires I.ValidConfig(cfg) && Permitted(cfg, threadCount, schedule)
    ensures var s := Run(cfg, threadCount, schedule);
      && I.UsedCount(s.shared.slab.inUse)
           == I.Recorded(s.shared.slab) - I.Sum(s.shared.deallocations) + I.InFlight(Positions(s.threads))
      && ((forall t :: 0 <= t < threadCount ==> s.threads[t].slab.Idle?) ==> I.InFlight(Positions(s.threads)) == 0)
  {
    hide I.UsedCount, I.Recorded, I.Sum, I.InFlight, Step, Good, Start, InOrder, Positions, AllowedTurn;
    if schedule == [] {
      StartBalances(cfg, threadCount);
    } else {
      var n := |schedule| - 1;
      CountersAreConserved(cfg, threadCount, schedule[..n]);
      RunKeepsOrder(cfg, threadCount, schedule[..n]);
      StepBalances(cfg, Run(cfg, threadCount, schedule[..n]), schedule[n]);
    }
    var s := Run(cfg, threadCount, schedule);
    if forall t :: 0 <= t < threadCount ==> s.threads[t].slab.Idle? {
      I.NothingInFlight(Positions(s.threads));
    }
  }
}
