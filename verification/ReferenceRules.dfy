/** What callers have to do so that references are safe, said of their calls alone: every
    reference and every slab of AllocateFast is given back at most once. */
module ReferenceRules {
  import opened InterleavedRefs
  import I = Interleaving

  // ---- The rule ----

  ghost predicate FreesFast(th: Thread, id: int) {
    th.at.Outside? && th.slab == I.FreeCas(id)
  }

  /** The thread is about to make a call: Deallocate of a reference never passed to it before,
      or DeallocateFast of a slab claimed by AllocateFast that nobody is giving back. */
  ghost predicate GivesBackOnce(cfg: I.Config, s: State, turn: Turn) {
    turn.thread < |s.threads| && s.threads[turn.thread] == Thread(Outside, I.Idle) ==>
      var g, x := s.shared, turn.choice;
      match x.wish
      case CallAllocate => true
      case CallDeallocate(k) => k < |g.presented| ==> !g.presented[k]
      case CallFast =>
        x.slab.wish.WishDeallocateFast? && I.InUseRange(cfg, x.slab.id) ==>
          Owns(g, x.slab.id, Fast) && forall q :: 0 <= q < |s.threads| ==> !FreesFast(s.threads[q], x.slab.id)
  }

  /** Every call of the schedule keeps to that. */
  ghost predicate Once(cfg: I.Config, n: nat, schedule: seq<Turn>)
    requires I.ValidConfig(cfg)
  {
    schedule == []
    || var k := |schedule| - 1;
       Once(cfg, n, schedule[..k]) && GivesBackOnce(cfg, Run(cfg, n, schedule[..k]), schedule[k])
  }

  // ---- What the rule keeps ----

  /** A thread that is about to give something back still owns it. */
  ghost predicate OwnsWhatItFrees(g: Shared, th: Thread) {
    && (th.at.Entering? ==> IsLive(g, th.at.issue))
    && (th.at.Outside? && th.slab.FreeCas? ==> Owns(g, th.slab.id, Fast))
  }

  ghost predicate Alike(a: Thread, b: Thread) {
    || (a.at.Entering? && b.at == a.at)
    || (a.at.Outside? && a.slab.FreeCas? && b.at == a.at && b.slab == a.slab)
  }

  ghost predicate Orderly(cfg: I.Config, s: State) {
    && InOrder(cfg, s)
    && (forall t :: 0 <= t < |s.threads| ==> OwnsWhatItFrees(s.shared, s.threads[t]))
    && (forall t, q :: 0 <= t < q < |s.threads| ==> !Alike(s.threads[t], s.threads[q]))
  }

  lemma OrderlyIsAllowed(cfg: I.Config, s: State, turn: Turn)
    requires Orderly(cfg, s)
    ensures AllowedTurn(s, turn)
  {
    hide InOrder;
  }

  // ---- A step of one thread, seen from another ----

  lemma LiveKept(cfg: I.Config, g: Shared, th: Thread, t: nat, x: Choice, k: nat)
    requires Sound(cfg, g) && GoodThread(cfg, g, t, th) && Allowed(g, th)
    requires IsLive(g, k) && th.at != Entering(k)
    ensures IsLive(Act(cfg, g, th, t, x).0, k)
  {
    if th.at.Entering? {
      assert GoodIssue(cfg, g, th.at.issue);
    }
    hide I.GoodShared, I.Owned, I.Claims, I.Act, AllHonoured, GoodSlab, I.Increment, I.GoodPc;
  }

  /** A step claims a slab nobody relies on and frees one that the thread itself relies on. */
  lemma FastKept(cfg: I.Config, g: Shared, th: Thread, t: nat, x: Choice, id: int)
    requires Sound(cfg, g) && GoodThread(cfg, g, t, th) && Allowed(g, th)
    requires Owns(g, id, Fast) && !FreesFast(th, id)
    ensures Owns(Act(cfg, g, th, t, x).0, id, Fast)
  {
    assert GoodSlab(cfg, g, id);
    if th.at.Entering? {
      assert GoodIssue(cfg, g, th.at.issue) && GoodRef(cfg, g, g.issues[th.at.issue].ref);
      var newest := g.refs[g.issues[th.at.issue].ref].issue;
      assert Honoured(cfg, g, newest);
    }
    hide I.GoodShared, I.Owned, I.Claims, I.Act, I.Increment, I.GoodPc;
  }

  // ---- A step of a thread, seen from itself ----

  lemma OnlyCallsFree(cfg: I.Config, g: I.Shared, pc: I.Pc, t: nat, x: I.Choice)
    requires I.ValidConfig(cfg) && I.GoodShared(cfg, g) && I.GoodPc(cfg, pc) && I.Act(cfg, g, pc, t, x).1.FreeCas?
    ensures pc.Idle? && x.wish.WishDeallocateFast? && I.InUseRange(cfg, x.id)
    ensures I.Act(cfg, g, pc, t, x) == (g, I.FreeCas(x.id))
  {
    hide I.GoodCache, I.PutStep, I.GoodShared, I.Increment;
  }

  /** A thread gets to the point of giving something back only by a call. */
  lemma Arrives(cfg: I.Config, g: Shared, th: Thread, t: nat, x: Choice)
    requires Sound(cfg, g) && GoodThread(cfg, g, t, th) && Allowed(g, th)
    ensures var (g1, th1) := Act(cfg, g, th, t, x);
      && (th1.at.Entering? ==>
            && th == Thread(Outside, I.Idle) && x.wish == CallDeallocate(th1.at.issue)
            && th1.at.issue < |g.issues| && g1.refs == g.refs && g1.issues == g.issues)
      && (th1.at.Outside? && th1.slab.FreeCas? ==>
            && th == Thread(Outside, I.Idle) && x.wish.CallFast? && x.slab.wish.WishDeallocateFast?
            && th1.slab.id == x.slab.id && I.InUseRange(cfg, x.slab.id) && g1.owner == g.owner)
  {
    SoundIsFormed(cfg, g);
    if I.Act(cfg, g.slab, th.slab, t, FastChoice(x.slab)).1.FreeCas? {
      OnlyCallsFree(cfg, g.slab, th.slab, t, FastChoice(x.slab));
    }
    hide I.Act, I.GoodShared, I.GoodPc, I.Increment, I.Claims, Sound;
  }

  /** What the thread that took the step gives back it still owns, and nobody else does. */
  lemma MoverStaysOrderly(cfg: I.Config, s: State, turn: Turn)
    requires Orderly(cfg, s) && turn.thread < |s.threads| && GivesBackOnce(cfg, s, turn)
    ensures var t, s1 := turn.thread, Step(cfg, s, turn);
      && OwnsWhatItFrees(s1.shared, s1.threads[t])
      && forall q :: 0 <= q < |s.threads| && q != t ==> !Alike(s.threads[q], s1.threads[t])
  {
    var t, g := turn.thread, s.shared;
    var th := s.threads[t];
    OrderlyIsAllowed(cfg, s, turn);
    assert GoodThread(cfg, g, t, th) && Formed(cfg, g);
    Arrives(cfg, g, th, t, turn.choice);
    var th1 := Step(cfg, s, turn).threads[t];
    if th1.at.Entering? {
      LiveHolds(cfg, g, th1.at.issue);
      forall q | 0 <= q < |s.threads| && q != t ensures !Alike(s.threads[q], th1) {
        assert GoodThread(cfg, g, q, s.threads[q]);
      }
    }
    hide Act, Sound, Formed, Placed, HeldBy;
  }

  /** What another thread gives back it still owns. */
  lemma OtherStaysOrderly(cfg: I.Config, s: State, turn: Turn, q: nat)
    requires Orderly(cfg, s) && turn.thread < |s.threads| && q < |s.threads| && q != turn.thread
    ensures OwnsWhatItFrees(Step(cfg, s, turn).shared, s.threads[q])
  {
    var t, g, other := turn.thread, s.shared, s.threads[q];
    var th := s.threads[t];
    OrderlyIsAllowed(cfg, s, turn);
    assert GoodThread(cfg, g, t, th) && Formed(cfg, g) && OwnsWhatItFrees(g, other);
    assert !Alike(th, other) && !Alike(other, th);
    hide Act, Sound, Formed, Placed, InOrder, IsLive;
    if other.at.Entering? {
      LiveKept(cfg, g, th, t, turn.choice, other.at.issue);
    } else if other.at.Outside? && other.slab.FreeCas? {
      FastKept(cfg, g, th, t, turn.choice, other.slab.id);
    }
  }

  lemma StepIsOrderly(cfg: I.Config, s: State, turn: Turn)
    requires Orderly(cfg, s) && GivesBackOnce(cfg, s, turn)
    ensures Orderly(cfg, Step(cfg, s, turn))
  {
    OrderlyIsAllowed(cfg, s, turn);
    StepKeepsOrder(cfg, s, turn);
    if turn.thread < |s.threads| {
      var t, s1 := turn.thread, Step(cfg, s, turn);
      MoverStaysOrderly(cfg, s, turn);
      forall q | 0 <= q < |s.threads| && q != t ensures OwnsWhatItFrees(s1.shared, s1.threads[q]) {
        OtherStaysOrderly(cfg, s, turn, q);
      }
      hide Act, InOrder, OwnsWhatItFrees;
    }
  }

  lemma {:induction false} RunIsOrderly(cfg: I.Config, n: nat, schedule: seq<Turn>)
    requires I.ValidConfig(cfg) && Once(cfg, n, schedule)
    ensures Orderly(cfg, Run(cfg, n, schedule)) && Permitted(cfg, n, schedule)
  {
    hide Step, GivesBackOnce, InOrder, Good, AllowedTurn;
    if schedule == [] {
      StartIsSound(cfg, n);
      StartIsOrderly(cfg, n);
    } else {
      var k := |schedule| - 1;
      var s := Run(cfg, n, schedule[..k]);
      RunIsOrderly(cfg, n, schedule[..k]);
      OrderlyIsAllowed(cfg, s, schedule[k]);
      StepIsOrderly(cfg, s, schedule[k]);
    }
  }

  lemma StartIsOrderly(cfg: I.Config, n: nat)
    requires I.ValidConfig(cfg)
    ensures Orderly(cfg, Start(cfg, n))
  {
    StartIsSound(cfg, n);
    hide Sound, GoodThreads, Good;
  }

  /** If every reference is passed to Deallocate at most once, and every slab of AllocateFast
      to DeallocateFast at most once, then no slab ever has two holders, every reference not
      yet passed to Deallocate is live and holds its slab alone, and neither kind of free is
      ever refused. */
  lemma OnceIsSafe(cfg: I.Config, n: nat, schedule: seq<Turn>)
    requires I.ValidConfig(cfg) && Once(cfg, n, schedule)
    ensures var g := Run(cfg, n, schedule).shared;
      && Permitted(cfg, n, schedule)
      && I.OneHolder(g.slab)
      && |g.presented| == |g.issues|
      && (forall k :: 0 <= k < |g.issues| && !g.presented[k] ==> HeldBy(g, k))
    ensures var s := Run(cfg, n, schedule);
      forall t :: 0 <= t < n ==> OwnsWhatItFrees(s.shared, s.threads[t])
  {
    hide Run, Permitted, Once, HeldBy, I.OneHolder, OwnsWhatItFrees;
    RunIsOrderly(cfg, n, schedule);
    ReferencesAreSafe(cfg, n, schedule);
  }
}
