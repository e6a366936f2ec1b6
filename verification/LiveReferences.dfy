/** What each operation of a run does to the live references and to the slabs: references are
    conserved, and bytes, secure mode and Reset do what their names say. */
module LiveReferences {
  import opened Allocator
  import opened Answers
  import opened Bags
  import opened Wrappers
  import M = Memory

  ghost function One(ref: Ref): multiset<Backing> {
    if ref.live then multiset{ref.backing} else multiset{}
  }

  /** What the live reference objects stand for. */
  ghost function Held(refs: seq<Ref>): multiset<Backing> {
    if refs == [] then multiset{} else Held(refs[..|refs| - 1]) + One(refs[|refs| - 1])
  }

  lemma {:induction false} HeldSet(refs: seq<Ref>, r: nat, ref: Ref)
    requires r < |refs|
    ensures Held(refs[r := ref]) + One(refs[r]) == Held(refs) + One(ref)
  {
    hide One;
    var n := |refs| - 1;
    var after := refs[r := ref];
    if r < n {
      HeldSet(refs[..n], r, ref);
      assert after[..n] == refs[..n][r := ref];
      AddOne(Held(after[..n]), One(refs[r]), Held(refs[..n]), One(ref), One(refs[n]));
    } else {
      assert after[..n] == refs[..n];
    }
  }

  lemma AddOne(a: multiset<Backing>, b: multiset<Backing>, c: multiset<Backing>, d: multiset<Backing>, e: multiset<Backing>)
    requires a + b == c + d
    ensures (a + e) + b == (c + e) + d
  {
    forall x: Backing ensures ((a + e) + b)[x] == ((c + e) + d)[x] {
      assert (a + b)[x] == (c + d)[x];
    }
  }

  lemma IssueHolds(refs: seq<Ref>, backing: Backing, reuse: nat)
    ensures Held(Issue(refs, backing, reuse)) == Held(refs) + multiset{backing}
  {
    var ref := Ref(backing, true);
    if reuse < |refs| && !refs[reuse].live {
      HeldSet(refs, reuse, ref);
    } else {
      assert (refs + [ref])[..|refs|] == refs;
    }
  }

  lemma {:induction false} IssueAllHolds(refs: seq<Ref>, backings: seq<Backing>, reuse: nat -> nat, k: nat)
    ensures Held(IssueAll(refs, backings, reuse, k)) == Held(refs) + multiset(backings)
    decreases |backings|
  {
    hide Held, Issue;
    if backings != [] {
      IssueHolds(refs, backings[0], reuse(k));
      IssueAllHolds(Issue(refs, backings[0], reuse(k)), backings[1..], reuse, k + 1);
      assert backings == [backings[0]] + backings[1..];
    }
  }

  /** References are conserved: an allocation that succeeds adds one, a batch those it grants,
      Deallocate of a live object takes its own away, Reset all; nothing else changes them. */
  lemma ReferencesAreConserved(cfg: Config, w: World, op: Op)
    requires Shaped(cfg, w.state) && Allowed(cfg, w, op) && RefsInRange(cfg, w)
    ensures var s, before, after := w.state, Held(w.refs), Held(Step(cfg, w, op).refs);
      match op
      case DoAllocate(o, _) =>
        var got := Allocate(cfg, s, o).1;
        after == if got.Success? then before + multiset{got.value} else before
      case DoBatch(n, o, _) => after == before + multiset(BatchAllocate(cfg, s, n, o).1.refs)
      case DoDeallocate(r, _) => after + One(w.refs[r]) == before
      case DoReset => after == multiset{}
      case _ => after == before
  {
    hide Allocate, BatchAllocate, AllocateFast, Recycle, DeallocateFast, Reset, Shaped, Issue, IssueAll, Held;
    match op
    case DoAllocate(o, reuse) =>
      var got := Allocate(cfg, w.state, o).1;
      if got.Success? {
        IssueHolds(w.refs, got.value, reuse);
      }
    case DoBatch(n, o, reuse) => IssueAllHolds(w.refs, BatchAllocate(cfg, w.state, n, o).1.refs, reuse, 0);
    case DoDeallocate(r, _) =>
      var ref := w.refs[r];
      if ref.live {
        HeldSet(w.refs, r, ref.(live := false));
      }
    case DoReset => NothingHeld();
    case _ =>
  }

  lemma NothingHeld()
    ensures Held([]) == multiset{}
  {
  }

  /** A store changes one byte of the window of its slab and nothing of any other; Reset frees
      every slab; secure mode stays on. */
  lemma OtherOperationsMean(cfg: Config, w: World, op: Op)
    requires Shaped(cfg, w.state) && Allowed(cfg, w, op) && RefsInRange(cfg, w)
    ensures Shaped(cfg, Step(cfg, w, op).state)
    ensures var s, s1 := w.state, Step(cfg, w, op).state;
      match op
      case DoStore(id, i, v) =>
        && s1 == s.(memory := s1.memory)
        && M.Window(cfg.geometry, s1.memory, id) == M.Window(cfg.geometry, s.memory, id)[i := v]
        && OthersKept(cfg, s, s1, id)
      case DoSecure => s1 == s.(secure := true)
      case DoReset => FreeCount(s1.pools.inUse) == cfg.geometry.capacity && s1.secure == s.secure
      case _ => s1.secure == s.secure
  {
    hide Allocate, BatchAllocate, AllocateFast, Recycle, DeallocateFast, Reset, Shaped, Issue, IssueAll, FreeCount, OthersKept;
    match op
    case DoStore(id, i, v) => StoreMeans(cfg, w, id, i, v);
    case DoReset => ResetAnswers(cfg, w.state);
    case _ =>
  }

  /** The bytes of every other slab. */
  ghost predicate OthersKept(cfg: Config, s: State, s1: State, id: int)
    requires Shaped(cfg, s) && Shaped(cfg, s1)
  {
    forall x :: IsSlab(cfg, x) && x != id ==> M.Window(cfg.geometry, s1.memory, x) == M.Window(cfg.geometry, s.memory, x)
  }

  lemma StoreMeans(cfg: Config, w: World, id: int, i: nat, v: M.byte)
    requires Shaped(cfg, w.state) && Allowed(cfg, w, DoStore(id, i, v)) && RefsInRange(cfg, w)
    ensures var s, s1 := w.state, Step(cfg, w, DoStore(id, i, v)).state;
      && Shaped(cfg, s1) && s1 == s.(memory := s1.memory)
      && M.Window(cfg.geometry, s1.memory, id) == M.Window(cfg.geometry, s.memory, id)[i := v]
      && OthersKept(cfg, s, s1, id)
  {
    var s := w.state;
    forall x | IsSlab(cfg, x) && x != id
      ensures M.Window(cfg.geometry, M.Store(cfg.geometry, s.memory, id, i, v), x) == M.Window(cfg.geometry, s.memory, x)
    {
      M.StoreIsLocal(cfg.geometry, s.memory, id, i, v, x);
    }
    M.StoreIsLocal(cfg.geometry, s.memory, id, i, v, id);
    hide M.Store, M.Window;
  }
}
