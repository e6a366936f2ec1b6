/** Multisets of slab IDs: what a list of lists holds, and which slabs are free. */
module Bags {

  /** Every entry of every list, with multiplicity. */
  ghost function BagOf(ss: seq<seq<int>>): multiset<int> {
    if ss == [] then multiset{} else multiset(ss[0]) + BagOf(ss[1..])
  }

  /** The indices that are not in use, each once. */
  ghost function FreeBag(u: seq<bool>): multiset<int> {
    if u == [] then multiset{}
    else
      var n := |u| - 1;
      FreeBag(u[..n]) + (if u[n] then multiset{} else multiset{n})
  }

  ghost function FreeCount(u: seq<bool>): nat {
    |FreeBag(u)|
  }

  lemma {:induction false} BagOfUpdate(ss: seq<seq<int>>, c: nat, t: seq<int>)
    requires c < |ss|
    ensures BagOf(ss[c := t]) + multiset(ss[c]) == BagOf(ss) + multiset(t)
  {
    var us, rest := ss[c := t], ss[1..];
    if c == 0 {
      assert us[1..] == rest;
    } else {
      BagOfUpdate(rest, c - 1, t);
      assert us[1..] == rest[c - 1 := t] && us[0] == ss[0] && rest[c - 1] == ss[c];
      assert BagOf(us) + multiset(ss[c]) == multiset(ss[0]) + (BagOf(rest[c - 1 := t]) + multiset(rest[c - 1]));
    }
  }

  lemma {:induction false} BagOfMember(ss: seq<seq<int>>, c: nat, id: int)
    requires c < |ss| && id in ss[c]
    ensures id in BagOf(ss)
  {
    if c > 0 {
      BagOfMember(ss[1..], c - 1, id);
    }
  }

  /** What is in the bag is in one of the lists. */
  lemma {:induction false} BagOfHolder(ss: seq<seq<int>>, id: int) returns (j: nat)
    requires id in BagOf(ss)
    ensures j < |ss| && id in ss[j]
  {
    if id in multiset(ss[0]) {
      j := 0;
    } else {
      j := BagOfHolder(ss[1..], id);
      j := j + 1;
    }
  }

  /** Pushing an entry on one list adds exactly that entry. */
  lemma BagOfPush(ss: seq<seq<int>>, c: nat, id: int)
    requires c < |ss|
    ensures BagOf(ss[c := ss[c] + [id]]) == BagOf(ss) + multiset{id}
  {
    BagOfUpdate(ss, c, ss[c] + [id]);
    var after := BagOf(ss[c := ss[c] + [id]]);
    assert multiset(ss[c] + [id]) == multiset(ss[c]) + multiset{id};
    Cancel(after, BagOf(ss) + multiset{id}, multiset(ss[c]));
  }

  /** Popping the last entry of one list removes exactly that entry. */
  lemma BagOfPop(ss: seq<seq<int>>, c: nat)
    requires c < |ss| && ss[c] != []
    ensures BagOf(ss) == BagOf(ss[c := ss[c][..|ss[c]| - 1]]) + multiset{ss[c][|ss[c]| - 1]}
  {
    var s := ss[c];
    var t := s[..|s| - 1];
    BagOfUpdate(ss, c, t);
    assert s == t + [s[|s| - 1]];
    Cancel(BagOf(ss), BagOf(ss[c := t]) + multiset{s[|s| - 1]}, multiset(t));
  }

  lemma Cancel(a: multiset<int>, b: multiset<int>, m: multiset<int>)
    requires a + m == b + m
    ensures a == b
  {
    forall x: int ensures a[x] == b[x] {
      assert (a + m)[x] == (b + m)[x];
    }
  }

  lemma StackPop(s: seq<int>)
    requires s != []
    ensures multiset(s) == multiset(s[..|s| - 1]) + multiset{s[|s| - 1]}
  {
    assert s == s[..|s| - 1] + [s[|s| - 1]];
  }

  lemma {:induction false} BagOfEmptyLists(ss: seq<seq<int>>)
    requires forall c :: 0 <= c < |ss| ==> ss[c] == []
    ensures BagOf(ss) == multiset{}
  {
    if ss != [] {
      BagOfEmptyLists(ss[1..]);
    }
  }

  lemma MulNext(m: int, n: int)
    ensures m * (n + 1) == m * n + m
  {
  }

  /** Lists of at most m entries, one of them empty, hold at most m * (n - 1) entries. */
  lemma {:induction false} BagOfBound(ss: seq<seq<int>>, m: nat)
    requires forall c :: 0 <= c < |ss| ==> |ss[c]| <= m
    ensures |BagOf(ss)| <= m * |ss|
    ensures (exists c :: 0 <= c < |ss| && ss[c] == []) ==> |BagOf(ss)| <= m * (|ss| - 1)
  {
    if ss != [] {
      var rest := ss[1..];
      BagOfBound(rest, m);
      var n, bag := |rest|, |BagOf(rest)|;
      assert |BagOf(ss)| == |ss[0]| + bag;
      hide BagOf;
      MulNext(m, n);
      MulNext(m, n - 1);
      if exists c :: 0 <= c < |ss| && ss[c] == [] {
        var c :| 0 <= c < |ss| && ss[c] == [];
        if c > 0 {
          assert rest[c - 1] == [];
        }
      }
    }
  }

  lemma {:induction false} FreeBagCounts(u: seq<bool>, id: int)
    ensures FreeBag(u)[id] == if 0 <= id < |u| && !u[id] then 1 else 0
  {
    if u != [] {
      FreeBagCounts(u[..|u| - 1], id);
    }
  }

  lemma FreeBagSet(u: seq<bool>, id: nat, v: bool)
    requires id < |u| && u[id] != v
    ensures if v then FreeBag(u) == FreeBag(u[id := v]) + multiset{id}
                 else FreeBag(u[id := v]) == FreeBag(u) + multiset{id}
  {
    var w := u[id := v];
    var more, less := if v then u else w, if v then w else u;
    forall x: int ensures FreeBag(more)[x] == (FreeBag(less) + multiset{id})[x] {
      FreeBagCounts(more, x);
      FreeBagCounts(less, x);
    }
  }

  lemma SubBag(a: multiset<int>, b: multiset<int>)
    requires a <= b
    ensures |a| <= |b|
  {
    assert b == a + (b - a);
  }

  lemma NoneFree(u: seq<bool>)
    ensures FreeCount(u) == 0 <==> forall id :: 0 <= id < |u| ==> u[id]
  {
    forall id: int ensures FreeBag(u)[id] == if 0 <= id < |u| && !u[id] then 1 else 0 {
      FreeBagCounts(u, id);
    }
    if forall id :: 0 <= id < |u| ==> u[id] {
      forall x: int ensures FreeBag(u)[x] == 0 {
      }
    } else {
      var id :| 0 <= id < |u| && !u[id];
      SubBag(multiset{id}, FreeBag(u));
    }
  }

  lemma {:induction false} FreeCountBound(u: seq<bool>)
    ensures FreeCount(u) <= |u|
  {
    if u != [] {
      FreeCountBound(u[..|u| - 1]);
    }
  }

  /** If some slab is in use, not all are free. */
  lemma SomeInUse(u: seq<bool>, id: nat)
    requires id < |u| && u[id]
    ensures FreeCount(u) < |u|
  {
    FreeBagSet(u, id, false);
    FreeCountBound(u[id := false]);
  }
}
