/** A counter that goes up on one kind of event and down, but never below zero, on the
    other. The circuit breaker counts failures this way and the leak detector counts
    live allocations this way. */
module LeakyCounter {

  /** true counts up, false counts down. */
  function Count(events: seq<bool>): nat {
    if events == [] then 0
    else
      var c := Count(events[..|events| - 1]);
      if events[|events| - 1] then c + 1 else if c > 0 then c - 1 else 0
  }

  lemma CountNext(events: seq<bool>, up: bool)
    ensures Count(events + [up]) == if up then Count(events) + 1 else if Count(events) > 0 then Count(events) - 1 else 0
  {
    assert (events + [up])[..|events|] == events;
  }

  /** Ups minus downs. */
  function Net(events: seq<bool>): int {
    if events == [] then 0
    else Net(events[..|events| - 1]) + (if events[|events| - 1] then 1 else -1)
  }

  /** Ups minus downs of the window from position i to the end. */
  function Excess(events: seq<bool>, i: nat): int
    requires i <= |events|
  {
    Net(events[i..])
  }

  lemma ExcessStep(events: seq<bool>, i: nat)
    requires i < |events|
    ensures Excess(events, i) == Excess(events[..|events| - 1], i) + (if events[|events| - 1] then 1 else -1)
  {
    assert events[i..][..|events| - i - 1] == events[..|events| - 1][i..];
  }

  /** The counter is the largest excess of any window that ends now: it is reached by some
      window and exceeded by none. */
  lemma {:induction false} CountIsBestWindow(events: seq<bool>)
    ensures forall i :: 0 <= i <= |events| ==> Excess(events, i) <= Count(events)
    ensures exists i :: 0 <= i <= |events| && Excess(events, i) == Count(events)
  {
    if events == [] {
      assert Excess(events, 0) == Count(events);
    } else {
      var n := |events| - 1;
      var before := events[..n];
      CountIsBestWindow(before);
      forall i | 0 <= i < |events| ensures Excess(events, i) == Excess(before, i) + (if events[n] then 1 else -1) {
        ExcessStep(events, i);
      }
      assert Excess(events, |events|) == 0;
      var best :| 0 <= best <= |before| && Excess(before, best) == Count(before);
      if events[n] || Count(before) > 0 {
        assert Excess(events, best) == Count(events);
      } else {
        assert Excess(events, |events|) == Count(events);
      }
    }
  }

  /** Some window that ends now has at least m more ups than downs. */
  ghost predicate SomeWindow(events: seq<bool>, m: int) {
    exists i :: 0 <= i <= |events| && Excess(events, i) >= m
  }

  lemma WindowExactlyWhen(events: seq<bool>, m: int)
    ensures SomeWindow(events, m) <==> Count(events) >= m
  {
    CountIsBestWindow(events);
    hide Excess, Count;
    if Count(events) >= m {
      var i :| 0 <= i <= |events| && Excess(events, i) == Count(events);
      assert Excess(events, i) >= m;
    }
  }

  /** n is the largest excess of any window that ends now. */
  ghost predicate IsBestWindow(n: int, events: seq<bool>) {
    && (forall i :: 0 <= i <= |events| ==> Excess(events, i) <= n)
    && (exists i :: 0 <= i <= |events| && Excess(events, i) == n)
  }

  lemma CountAtLeastNet(events: seq<bool>)
    ensures IsBestWindow(Count(events), events) && Net(events) <= Count(events)
  {
    CountIsBestWindow(events);
    assert Excess(events, 0) == Net(events) by {
      assert events[0..] == events;
    }
  }
}
