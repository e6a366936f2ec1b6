/** The leak detector: sampling with a wrapping counter, per-stack counts, totals, and a
    ring of the last eight state changes with a wrapping index, against the unbounded
    histories of what it observed since it was built or cleared. */
module LeakDetector {
  import opened Bits
  import opened LeakyCounter
  import opened Sums
  import opened Wrappers

  // ---- Sampling ----

  /** A successful allocation or deallocation observed while running, with its stack. */
  datatype Event = Event(alloc: bool, stack: nat, at: int)

  /** A uint32 counter after n increments. */
  function Wrapped(n: nat): (c: nat)
    ensures c < TWO_32
  {
    n % TWO_32
  }

  lemma WrappedNext(n: nat)
    ensures Wrapped(Wrapped(n) + 1) == Wrapped(n + 1)
  {
    ModAdd(n, 1, TWO_32);
  }

  /** Whether the nth observed event is sampled. */
  predicate Hit(n: nat, rate: nat)
    requires rate > 0
  {
    Wrapped(n) % rate == 0
  }

  function SampledEvents(h: seq<Event>, rate: nat): seq<Event>
    requires rate > 0
  {
    if h == [] then []
    else
      var n := |h| - 1;
      SampledEvents(h[..n], rate) + if Hit(|h|, rate) then [h[n]] else []
  }

  lemma SampledAppend(h: seq<Event>, e: Event, rate: nat)
    requires rate > 0
    ensures SampledEvents(h + [e], rate) == SampledEvents(h, rate) + if Hit(|h| + 1, rate) then [e] else []
  {
    assert (h + [e])[..|h|] == h;
    hide Hit;
  }

  /** How many of the first n events are sampled. */
  function SampledCount(n: nat, rate: nat): nat
    requires rate > 0
  {
    if n == 0 then 0 else SampledCount(n - 1, rate) + if Hit(n, rate) then 1 else 0
  }

  lemma {:induction false} SampledLength(h: seq<Event>, rate: nat)
    requires rate > 0
    ensures |SampledEvents(h, rate)| == SampledCount(|h|, rate)
  {
    if h != [] {
      SampledLength(h[..|h| - 1], rate);
    }
  }

  lemma DivStep(n: nat, rate: nat)
    requires rate > 0
    ensures (n + 1) / rate == n / rate + if (n + 1) % rate == 0 then 1 else 0
  {
    var q, r := n / rate, n % rate;
    assert n == rate * q + r;
    if r + 1 == rate {
      assert n + 1 == rate * (q + 1) by {
        assert rate * (q + 1) == rate * q + rate;
      }
      ModIsUnique(n + 1, rate, q + 1, 0);
    } else {
      ModIsUnique(n + 1, rate, q, r + 1);
    }
  }

  lemma NoWrapYet(n: nat, rate: nat)
    requires rate > 0 && n < TWO_32
    ensures Hit(n, rate) == (n % rate == 0)
  {
  }

  /** Below 2^32 events, exactly one in rate is sampled. */
  lemma {:induction false} SamplesOneInRate(n: nat, rate: nat)
    requires rate > 0 && n < TWO_32
    ensures SampledCount(n, rate) == n / rate
  {
    if n > 0 {
      SamplesOneInRate(n - 1, rate);
      DivStep(n - 1, rate);
      NoWrapYet(n, rate);
      hide Hit;
    } else {
      ModIsUnique(0, rate, 0, 0);
    }
  }

  /** The 2^32nd event, at which the counter reads zero, is always sampled. */
  lemma FirstWrap(n: nat, rate: nat)
    requires rate > 0 && n + 1 == TWO_32
    ensures SampledCount(n + 1, rate) == n / rate + 1
  {
    SamplesOneInRate(n, rate);
    ModIsUnique(0, rate, 0, 0);
    assert Hit(n + 1, rate);
  }

  lemma WrapAgrees(n: nat, rate: nat, k: nat)
    requires rate > 0 && TWO_32 == rate * k
    ensures n % TWO_32 % rate == n % rate
  {
    var q, r := n / TWO_32, n % TWO_32;
    var q1, r1 := r / rate, r % rate;
    assert n == TWO_32 * q + r && r == rate * q1 + r1;
    assert n == rate * (k * q + q1) + r1 by {
      assert rate * (k * q + q1) == rate * (k * q) + rate * q1;
      assert rate * (k * q) == (rate * k) * q;
    }
    assert k * q + q1 >= 0;
    ModIsUnique(n, rate, k * q + q1, r1);
  }

  lemma {:induction false} SamplesForever(n: nat, rate: nat, k: nat)
    requires rate > 0 && TWO_32 == rate * k
    ensures SampledCount(n, rate) == n / rate
  {
    if n > 0 {
      SamplesForever(n - 1, rate, k);
      DivStep(n - 1, rate);
      WrapAgrees(n, rate, k);
    } else {
      ModIsUnique(0, rate, 0, 0);
    }
  }

  /** Exactly one in rate is sampled for ever if and only if the rate divides 2^32; for any
      other rate the wrapped counter samples one event too many at the 2^32nd. */
  lemma SampleRateIsHonouredExactlyWhen(rate: nat)
    requires rate > 0
    ensures (forall n: nat :: SampledCount(n, rate) == n / rate) <==> TWO_32 % rate == 0
    ensures TWO_32 % rate != 0 ==> SampledCount(TWO_32, rate) == TWO_32 / rate + 1
  {
    var k := TWO_32 / rate;
    if TWO_32 % rate == 0 {
      assert TWO_32 == rate * k;
      forall n: nat ensures SampledCount(n, rate) == n / rate {
        SamplesForever(n, rate, k);
      }
    } else {
      FirstWrap(TWO_32 - 1, rate);
      DivStep(TWO_32 - 1, rate);
      assert SampledCount(TWO_32, rate) != TWO_32 / rate;
    }
  }

  // ---- Per-stack counts ----

  /** firstSeen is the zero time until the stack's first allocation. */
  datatype StackSet = StackSet(netCount: nat, allocCount: nat, deallocCount: nat, firstSeen: Option<int>, lastSeen: int)

  function Tracked(s: StackSet, e: Event): StackSet {
    if e.alloc then
      var firstSeen := if s.firstSeen.None? then Some(e.at) else s.firstSeen;
      StackSet(s.netCount + 1, s.allocCount + 1, s.deallocCount, firstSeen, e.at)
    else s.(netCount := if s.netCount > 0 then s.netCount - 1 else 0, deallocCount := s.deallocCount + 1, lastSeen := e.at)
  }

  function SetFor(sets: map<nat, StackSet>, stack: nat): StackSet {
    if stack in sets then sets[stack] else StackSet(0, 0, 0, None, 0)
  }

  ghost function SetsAfter(events: seq<Event>): map<nat, StackSet> {
    if events == [] then map[]
    else
      var n := |events| - 1;
      var before := SetsAfter(events[..n]);
      before[events[n].stack := Tracked(SetFor(before, events[n].stack), events[n])]
  }

  lemma SetsAppend(events: seq<Event>, e: Event)
    ensures var before := SetsAfter(events);
      SetsAfter(events + [e]) == before[e.stack := Tracked(SetFor(before, e.stack), e)]
  {
    assert (events + [e])[..|events|] == events;
  }

  /** The allocations (true) and deallocations (false) of one stack, in order. */
  ghost function OfStack(events: seq<Event>, stack: nat): seq<bool> {
    if events == [] then []
    else
      var n := |events| - 1;
      OfStack(events[..n], stack) + if events[n].stack == stack then [events[n].alloc] else []
  }

  function Ups(flags: seq<bool>): nat {
    if flags == [] then 0 else Ups(flags[..|flags| - 1]) + if flags[|flags| - 1] then 1 else 0
  }

  lemma FlagsAppend(flags: seq<bool>, b: bool)
    ensures Count(flags + [b]) == if b then Count(flags) + 1 else if Count(flags) > 0 then Count(flags) - 1 else 0
    ensures Ups(flags + [b]) == Ups(flags) + if b then 1 else 0
    ensures Net(flags + [b]) == Net(flags) + if b then 1 else -1
  {
    assert (flags + [b])[..|flags|] == flags;
  }

  lemma {:induction false} TrackedExactlyWhen(events: seq<Event>, stack: nat)
    ensures stack in SetsAfter(events) <==> exists i :: 0 <= i < |events| && events[i].stack == stack
  {
    if events != [] {
      var n := |events| - 1;
      TrackedExactlyWhen(events[..n], stack);
      hide SetFor, Tracked;
      if events[n].stack != stack && exists i :: 0 <= i < |events| && events[i].stack == stack {
        var i :| 0 <= i < |events| && events[i].stack == stack;
        assert events[..n][i].stack == stack;
      }
    }
  }

  /** The counts of one stack, from its own events: its clamped net count is the leaky
      counter, that is the best suffix excess. */
  lemma {:induction false} SetMeans(events: seq<Event>, stack: nat)
    ensures var flags, s := OfStack(events, stack), SetFor(SetsAfter(events), stack);
      && s.netCount == Count(flags) && s.allocCount == Ups(flags) && s.deallocCount == |flags| - Ups(flags)
  {
    hide Count, Ups, Net;
    if events != [] {
      var n := |events| - 1;
      SetMeans(events[..n], stack);
      var before := OfStack(events[..n], stack);
      FlagsAppend(before, events[n].alloc);
      assert before + [] == before;
    } else {
      assert Count([]) == 0 && Ups([]) == 0 by {
        NoFlags();
      }
    }
  }

  lemma NoFlags()
    ensures Count([]) == 0 && Ups([]) == 0
  {
  }

  ghost predicate Allocates(e: Event, stack: nat) {
    e.alloc && e.stack == stack
  }

  /** Event i is the first allocation of the stack. */
  ghost predicate FirstAt(events: seq<Event>, stack: nat, i: nat) {
    i < |events| && Allocates(events[i], stack) && forall k :: 0 <= k < i ==> !Allocates(events[k], stack)
  }

  /** Event i is the last event of the stack. */
  ghost predicate LastAt(events: seq<Event>, stack: nat, i: nat) {
    i < |events| && events[i].stack == stack && forall k :: i < k < |events| ==> events[k].stack != stack
  }

  lemma {:induction false} SomeFirst(events: seq<Event>, stack: nat, n: nat) returns (i: nat)
    requires n < |events| && Allocates(events[n], stack)
    ensures FirstAt(events, stack, i)
  {
    if k: nat :| k < n && Allocates(events[k], stack) {
      i := SomeFirst(events, stack, k);
    } else {
      i := n;
    }
  }

  lemma {:induction false} SomeLast(events: seq<Event>, stack: nat, n: nat) returns (i: nat)
    requires n < |events| && events[n].stack == stack
    ensures LastAt(events, stack, i)
    decreases |events| - n
  {
    if k: nat :| n < k < |events| && events[k].stack == stack {
      i := SomeLast(events, stack, k);
    } else {
      i := n;
    }
  }

  lemma {:induction false} UpsAreTrue(flags: seq<bool>)
    ensures Ups(flags) == multiset(flags)[true] && |flags| - Ups(flags) == multiset(flags)[false]
  {
    if flags != [] {
      var n := |flags| - 1;
      UpsAreTrue(flags[..n]);
      assert flags == flags[..n] + [flags[n]];
    }
  }

  /** The first time is that of the stack's first allocation, or none if there is none, and the
      last time that of its last event. */
  ghost predicate Times(events: seq<Event>, stack: nat, firstSeen: Option<int>, lastSeen: int) {
    && (firstSeen.None? <==> forall i :: 0 <= i < |events| ==> !Allocates(events[i], stack))
    && (forall i: nat :: FirstAt(events, stack, i) ==> firstSeen == Some(events[i].at))
    && (forall i: nat :: LastAt(events, stack, i) ==> lastSeen == events[i].at)
  }

  lemma TimesAreUnique(events: seq<Event>, stack: nat, first: Option<int>, last: int, first1: Option<int>, last1: int)
    requires exists i :: 0 <= i < |events| && events[i].stack == stack
    requires Times(events, stack, first, last) && Times(events, stack, first1, last1)
    ensures first == first1 && last == last1
  {
    hide Allocates;
    var n: nat :| n < |events| && events[n].stack == stack;
    var i := SomeLast(events, stack, n);
    if k: nat :| k < |events| && Allocates(events[k], stack) {
      var j := SomeFirst(events, stack, k);
    }
  }

  lemma {:induction false} SeenMeans(events: seq<Event>, stack: nat)
    ensures var s := SetFor(SetsAfter(events), stack);
      Times(events, stack, s.firstSeen, s.lastSeen)
  {
    if events != [] {
      var n := |events| - 1;
      var before := events[..n];
      SeenMeans(before, stack);
      hide SetFor;
      var s0, s := SetFor(SetsAfter(before), stack), SetFor(SetsAfter(events), stack);
      NextSet(events, stack, n);
      hide SetsAfter, Tracked;
      forall i: nat | FirstAt(events, stack, i) ensures s.firstSeen == Some(events[i].at) {
        if i < n {
          assert FirstAt(before, stack, i);
        } else {
          assert forall k :: 0 <= k < |before| ==> !Allocates(before[k], stack);
        }
      }
      forall i: nat | LastAt(events, stack, i) ensures s.lastSeen == events[i].at {
        if i < n {
          assert LastAt(before, stack, i);
        }
      }
      assert forall i :: 0 <= i < n ==> events[i] == before[i];
    }
  }

  /** The set of a stack before and after the last event. */
  lemma NextSet(events: seq<Event>, stack: nat, n: nat)
    requires n + 1 == |events|
    ensures var s0, s := SetFor(SetsAfter(events[..n]), stack), SetFor(SetsAfter(events), stack);
      if events[n].stack != stack then s == s0
      else
        s.lastSeen == events[n].at
        && s.firstSeen == if events[n].alloc && s0.firstSeen.None? then Some(events[n].at) else s0.firstSeen
  {
  }

  // ---- Sums over stacks ----

  ghost function AllocsOf(s: StackSet): int { s.allocCount }

  ghost function DeallocsOf(s: StackSet): int { s.deallocCount }

  ghost function NetOf(s: StackSet): int { s.netCount }

  function AllocCount(events: seq<Event>): nat {
    if events == [] then 0 else AllocCount(events[..|events| - 1]) + if events[|events| - 1].alloc then 1 else 0
  }

  lemma AllocCountAppend(events: seq<Event>, e: Event)
    ensures AllocCount(events + [e]) == AllocCount(events) + if e.alloc then 1 else 0
  {
    assert (events + [e])[..|events|] == events;
  }

  /** The totals are the sums over all stacks; the clamped net counts add up to at least
      the number of live allocations. */
  lemma {:induction false} TotalsAreSums(events: seq<Event>)
    ensures var sets := SetsAfter(events);
      && SumOver(sets, AllocsOf) == AllocCount(events)
      && SumOver(sets, DeallocsOf) == |events| - AllocCount(events)
      && SumOver(sets, NetOf) >= AllocCount(events) - (|events| - AllocCount(events))
  {
    if events != [] {
      var n := |events| - 1;
      TotalsAreSums(events[..n]);
      var before, e := SetsAfter(events[..n]), events[n];
      var s := Tracked(SetFor(before, e.stack), e);
      SumSet(before, AllocsOf, e.stack, s);
      SumSet(before, DeallocsOf, e.stack, s);
      SumSet(before, NetOf, e.stack, s);
    }
  }

  // ---- The ring of state changes ----

  const RING_SIZE: nat := 8

  /** A slot whose time is zero is empty. */
  datatype Transition = Transition(prev: nat, curr: nat, at: nat)

  const EMPTY := Transition(0, 0, 0)

  ghost function RingAfter(changes: seq<Transition>): (r: seq<Transition>)
    ensures |r| == RING_SIZE
  {
    if changes == [] then Repeat(EMPTY, RING_SIZE)
    else
      var n := |changes|;
      RingAfter(changes[..n - 1])[n % RING_SIZE := changes[n - 1]]
  }

  lemma RingAppend(changes: seq<Transition>, t: Transition)
    ensures RingAfter(changes + [t]) == RingAfter(changes)[(|changes| + 1) % RING_SIZE := t]
  {
    assert (changes + [t])[..|changes|] == changes;
  }

  /** Going back i places from the newest slot gives the ith newest change, or an empty slot
      if there were no more than i changes. */
  lemma {:induction false} RingReadsBack(changes: seq<Transition>, i: nat)
    requires i < RING_SIZE
    ensures RingAfter(changes)[(|changes| - i) % RING_SIZE]
         == if i < |changes| then changes[|changes| - 1 - i] else EMPTY
  {
    if changes != [] && i > 0 {
      var n := |changes| - 1;
      RingReadsBack(changes[..n], i - 1);
      OtherSlot(|changes|, i);
    }
  }

  lemma OtherSlot(n: nat, i: nat)
    requires 0 < i < RING_SIZE
    ensures (n - i) % RING_SIZE != n % RING_SIZE
  {
  }

  /** The wrapping index, less i, taken modulo the ring size. */
  function SlotBack(index: nat, i: nat): (j: nat)
    ensures j < RING_SIZE
  {
    (index - i) % TWO_32 % RING_SIZE
  }

  lemma WrappedIndex(n: nat, i: nat)
    ensures SlotBack(Wrapped(n), i) == (n - i) % RING_SIZE
  {
    var back: int := i;
    ModAdd(n, -back, TWO_32);
    ModOfMod(n - back, TWO_32 / RING_SIZE, RING_SIZE);
  }

  /** The last eight changes, newest first, from the ith newest on; those at time zero are
      taken for empty slots. */
  ghost function Recent(changes: seq<Transition>, i: nat): seq<Transition>
    decreases RING_SIZE - i
  {
    if i >= RING_SIZE || i >= |changes| then []
    else
      var t := changes[|changes| - 1 - i];
      (if t.at == 0 then [] else [t]) + Recent(changes, i + 1)
  }

  /** One slot of the ring, read through the wrapped index, and what is left to read. */
  lemma ReadBack(changes: seq<Transition>, i: nat)
    requires i < RING_SIZE
    ensures var t := RingAfter(changes)[SlotBack(Wrapped(|changes|), i)];
      Recent(changes, i) == (if t.at == 0 then [] else [t]) + Recent(changes, i + 1)
  {
    WrappedIndex(|changes|, i);
    RingReadsBack(changes, i);
    hide RingAfter, SlotBack, Wrapped;
  }

  lemma NothingLeft(changes: seq<Transition>)
    ensures Recent(changes, RING_SIZE) == []
  {
  }

  /** With a clock that never reads zero, that is exactly the last min(n, 8) changes. */
  lemma {:induction false} RecentIsLastEight(changes: seq<Transition>, i: nat)
    requires forall j :: 0 <= j < |changes| ==> changes[j].at != 0
    requires i <= RING_SIZE && i <= |changes|
    ensures var r, n := Recent(changes, i), if |changes| < 8 then |changes| else 8;
      |r| == n - i && forall k :: 0 <= k < |r| ==> r[k] == changes[|changes| - 1 - i - k]
    decreases RING_SIZE - i
  {
    if i < RING_SIZE && i < |changes| {
      RecentIsLastEight(changes, i + 1);
      var r, rest, t := Recent(changes, i), Recent(changes, i + 1), changes[|changes| - 1 - i];
      assert r == [t] + rest;
      hide Recent;
      forall k | 0 <= k < |r| ensures r[k] == changes[|changes| - 1 - i - k] {
        if k > 0 {
          var j := k - 1;
          assert r[k] == rest[j];
        }
      }
    }
  }

  lemma EmptyHistories(rate: nat)
    requires rate > 0
    ensures SampledEvents([], rate) == [] && SetsAfter([]) == map[] && AllocCount([]) == 0
    ensures RingAfter([]) == Repeat(EMPTY, RING_SIZE) && Wrapped(0) == 0
  {
  }

  // ---- Reports ----

  /** A stack reported as a potential leak. */
  datatype Leak = Leak(stack: nat, count: nat, allocCount: nat, deallocCount: nat, firstSeen: Option<int>, lastSeen: int)

  function LeakOf(stack: nat, s: StackSet): Leak {
    Leak(stack, s.netCount, s.allocCount, s.deallocCount, s.firstSeen, s.lastSeen)
  }

  const TOP: nat := 10

  ghost predicate Descending(leaks: seq<Leak>) {
    forall i, j :: 0 <= i < j < |leaks| ==> leaks[i].count >= leaks[j].count
  }

  /** At most ten distinct leaks, all if there are no more, sorted by count, and none left out
      with a count larger than one kept. */
  ghost predicate TopTen(leaks: seq<Leak>, all: set<Leak>) {
    && |leaks| == (if |all| < 10 then |all| else 10)
    && Descending(leaks)
    && (forall i :: 0 <= i < |leaks| ==> leaks[i] in all)
    && (forall i, j :: 0 <= i < j < |leaks| ==> leaks[i] != leaks[j])
    && (forall l, i :: l in all && l !in leaks && 0 <= i < |leaks| ==> l.count <= leaks[i].count)
  }

  ghost predicate AtLeast(leaks: seq<Leak>, m: nat) {
    forall k :: 0 <= k < |leaks| ==> leaks[k].count >= m
  }

  ghost predicate AtMost(leaks: seq<Leak>, m: nat) {
    forall k :: 0 <= k < |leaks| ==> leaks[k].count <= m
  }

  /** Insert before the first leak with a smaller count. */
  method Insert(leaks: seq<Leak>, l: Leak) returns (r: seq<Leak>)
    requires Descending(leaks)
    ensures Descending(r) && multiset(r) == multiset(leaks) + multiset{l}
  {
    var i := 0;
    while i < |leaks| && leaks[i].count >= l.count
      invariant 0 <= i <= |leaks| && AtLeast(leaks[..i], l.count)
    {
      i := i + 1;
    }
    Inserted(leaks, i, l);
    r := leaks[..i] + [l] + leaks[i..];
  }

  lemma Inserted(leaks: seq<Leak>, i: nat, l: Leak)
    requires Descending(leaks) && i <= |leaks| && AtLeast(leaks[..i], l.count)
    requires i < |leaks| ==> leaks[i].count < l.count
    ensures var r := leaks[..i] + [l] + leaks[i..];
      Descending(r) && multiset(r) == multiset(leaks) + multiset{l}
  {
    TailIsSmall(leaks, i, l.count);
    PartsDescend(leaks, i);
    var front, back := leaks[..i], leaks[i..];
    assert leaks == front + back;
    hide Descending, AtLeast, AtMost;
    Joined(front, l, back);
  }

  lemma TailIsSmall(leaks: seq<Leak>, i: nat, m: nat)
    requires Descending(leaks) && i <= |leaks| && (i < |leaks| ==> leaks[i].count <= m)
    ensures AtMost(leaks[i..], m)
  {
    forall k | 0 <= k < |leaks[i..]| ensures leaks[i..][k].count <= m {
      var j := i + k;
      assert leaks[i..][k] == leaks[j];
      assert i < j ==> leaks[i].count >= leaks[j].count;
    }
  }

  lemma PartsDescend(leaks: seq<Leak>, i: nat)
    requires Descending(leaks) && i <= |leaks|
    ensures Descending(leaks[..i]) && Descending(leaks[i..])
  {
    var back := leaks[i..];
    forall j, k | 0 <= j < k < |back| ensures back[j].count >= back[k].count {
      var p, q := i + j, i + k;
      assert back[j] == leaks[p] && back[k] == leaks[q];
    }
  }

  lemma Joined(front: seq<Leak>, l: Leak, back: seq<Leak>)
    requires Descending(front) && Descending(back) && AtLeast(front, l.count) && AtMost(back, l.count)
    ensures Descending(front + [l] + back)
  {
    var r, n := front + [l] + back, |front|;
    forall j, k | 0 <= j < k < |r| ensures r[j].count >= r[k].count {
      if k > n {
        var q := k - n - 1;
        assert r[k] == back[q];
        if j > n {
          var p := j - n - 1;
          assert r[j] == back[p];
        } else {
          assert r[j].count >= l.count;
        }
      } else {
        assert r[j] == front[j];
      }
    }
  }

  method SortByCount(leaks: seq<Leak>) returns (r: seq<Leak>)
    ensures Descending(r) && multiset(r) == multiset(leaks)
  {
    r := [];
    for i := 0 to |leaks|
      invariant Descending(r) && multiset(r) == multiset(leaks[..i])
    {
      assert leaks[..i + 1] == leaks[..i] + [leaks[i]];
      r := Insert(r, leaks[i]);
    }
    assert leaks[..|leaks|] == leaks;
  }

  lemma NoRepeats(leaks: seq<Leak>, all: set<Leak>, i: nat, j: nat)
    requires multiset(leaks) == multiset(all) && i < j < |leaks|
    ensures leaks[i] != leaks[j]
  {
    assert leaks == leaks[..j] + [leaks[j]] + leaks[j + 1..];
    assert leaks[i] in leaks[..j];
    assert multiset(leaks)[leaks[j]] == multiset(leaks[..j])[leaks[j]] + 1 + multiset(leaks[j + 1..])[leaks[j]];
    assert multiset(all)[leaks[j]] <= 1;
  }

  lemma FirstTenAreTop(leaks: seq<Leak>, all: set<Leak>)
    requires Descending(leaks) && multiset(leaks) == multiset(all)
    ensures TopTen(if |leaks| > TOP then leaks[..TOP] else leaks, all)
  {
    assert |leaks| == |all| by {
      assert |multiset(leaks)| == |multiset(all)|;
    }
    forall i | 0 <= i < |leaks| ensures leaks[i] in all {
      assert leaks[i] in multiset(leaks);
    }
    forall i, j | 0 <= i < j < |leaks| ensures leaks[i] != leaks[j] {
      NoRepeats(leaks, all, i, j);
    }
    var top := if |leaks| > TOP then leaks[..TOP] else leaks;
    assert forall k :: 0 <= k < |top| ==> top[k] == leaks[k];
    forall l, i | l in all && l !in top && 0 <= i < |top| ensures l.count <= top[i].count {
      assert l in multiset(leaks);
      var k :| 0 <= k < |leaks| && leaks[k] == l;
    }
  }

  datatype Report = Report(
    totalAllocs: int, totalDeallocs: int, totalLeaks: int, uniqueStacks: int,
    leaks: seq<Leak>, transitions: seq<Transition>)

  /** In nanoseconds, as all times here. */
  const FIVE_MINUTES: int := 300_000_000_000

  class Detector {
    const sampleRate: nat
    const ageThreshold: int
    const leakThreshold: int
    var sets: map<nat, StackSet>
    var uniqueStacks: int
    var totalAllocs: int
    var totalDeallocs: int
    var totalLeaks: int
    var running: bool
    var sampleCounter: nat
    const stateTransitions: array<Transition>
    var stateTransIdx: nat
    /** What was observed, and which state changes were recorded, since built or cleared. */
    ghost var history: seq<Event>
    ghost var changes: seq<Transition>

    ghost predicate Valid()
      reads this, stateTransitions
    {
      && 0 < sampleRate < TWO_32
      && Counted()
      && stateTransIdx == Wrapped(|changes|)
      && stateTransitions[..] == RingAfter(changes)
    }

    /** The counters are those of the unbounded history. */
    ghost predicate Counted()
      requires sampleRate > 0
      reads this
    {
      var sampled := SampledEvents(history, sampleRate);
      && sampleCounter == Wrapped(|history|)
      && sets == SetsAfter(sampled) && uniqueStacks == |sets|
      && totalAllocs == AllocCount(sampled) && totalDeallocs == |sampled| - AllocCount(sampled)
      && totalLeaks == totalAllocs - totalDeallocs
    }

    /** The net count of every tracked stack is the best suffix excess of the sampled events
        of that stack, and so at least its live allocations. */
    ghost predicate NetCountsAreBest()
      requires sampleRate > 0
      reads this
    {
      forall k :: k in sets ==>
        var flags := OfStack(SampledEvents(history, sampleRate), k);
        IsBestWindow(sets[k].netCount, flags) && Net(flags) <= sets[k].netCount
    }

    /** What the counters of a detector mean after any sequence of calls: below 2^32 observed
        events exactly one in rate is counted (for ever, if the rate divides 2^32); the totals
        are the sums over the tracked stacks, whose net counts are best suffix excesses and
        add up to at least the net leaks; exactly the stacks of sampled events are tracked. */
    lemma CountersMean()
      requires Valid()
      ensures |history| < TWO_32 || TWO_32 % sampleRate == 0 ==> totalAllocs + totalDeallocs == |history| / sampleRate
      ensures totalAllocs == SumOver(sets, AllocsOf) && totalDeallocs == SumOver(sets, DeallocsOf)
      ensures totalLeaks == totalAllocs - totalDeallocs <= SumOver(sets, NetOf)
      ensures uniqueStacks == |sets| && NetCountsAreBest()
      ensures forall k: nat :: k in sets <==> exists e :: e in SampledEvents(history, sampleRate) && e.stack == k
    {
      var sampled := SampledEvents(history, sampleRate);
      hide SampledEvents, SetsAfter, AllocCount, OfStack, Count, Ups, SumOver, RingAfter, IsBestWindow, Net, SampledCount;
      SampledLength(history, sampleRate);
      if |history| < TWO_32 {
        SamplesOneInRate(|history|, sampleRate);
      } else {
        SampleRateIsHonouredExactlyWhen(sampleRate);
      }
      TotalsAreSums(sampled);
      forall k | k in sets
        ensures var flags := OfStack(sampled, k);
          IsBestWindow(sets[k].netCount, flags) && Net(flags) <= sets[k].netCount
      {
        SetMeans(sampled, k);
        CountAtLeastNet(OfStack(sampled, k));
      }
      forall k: nat ensures k in sets <==> exists e :: e in sampled && e.stack == k {
        TrackedExactlyWhen(sampled, k);
        if i :| 0 <= i < |sampled| && sampled[i].stack == k {
          assert sampled[i] in sampled;
        }
      }
    }

    /** A zero stands for the default: a rate of 100, five minutes, three leaks. */
    constructor (sampleRate: nat, ageThreshold: int, leakThreshold: int)
      requires sampleRate < TWO_32
      ensures Valid() && fresh(stateTransitions) && history == [] && changes == [] && !running
      ensures this.sampleRate == if sampleRate == 0 then 100 else sampleRate
      ensures this.ageThreshold == if ageThreshold == 0 then FIVE_MINUTES else ageThreshold
      ensures this.leakThreshold == if leakThreshold == 0 then 3 else leakThreshold
    {
      this.sampleRate := if sampleRate == 0 then 100 else sampleRate;
      this.ageThreshold := if ageThreshold == 0 then FIVE_MINUTES else ageThreshold;
      this.leakThreshold := if leakThreshold == 0 then 3 else leakThreshold;
      sets, uniqueStacks, totalAllocs, totalDeallocs, totalLeaks := map[], 0, 0, 0, 0;
      running, sampleCounter, stateTransIdx := false, 0, 0;
      stateTransitions := new Transition[RING_SIZE](_ => EMPTY);
      history, changes := [], [];
      new;
      assert stateTransitions[..] == Repeat(EMPTY, RING_SIZE);
    }

    /** Count one more observed event; whether it is sampled. */
    method Sample(ghost e: Event) returns (hit: bool)
      requires Valid()
      modifies this`sampleCounter, this`history
      ensures history == old(history) + [e] && sampleCounter == Wrapped(|history|)
      ensures SampledEvents(history, sampleRate)
           == SampledEvents(old(history), sampleRate) + if hit then [e] else []
    {
      hide RingAfter, SetsAfter, AllocCount;
      ghost var n := |history|;
      WrappedNext(n);
      hide Wrapped;
      sampleCounter := Wrapped(sampleCounter + 1);
      history := history + [e];
      assert |history| == n + 1;
      hit := sampleCounter % sampleRate == 0;
      SampledAppend(old(history), e, sampleRate);
    }

    /** getOrCreateSet, then the update under the set's lock. */
    method Track(e: Event)
      requires uniqueStacks == |sets|
      modifies this`sets, this`uniqueStacks
      ensures sets == old(sets)[e.stack := Tracked(SetFor(old(sets), e.stack), e)] && uniqueStacks == |sets|
    {
      if e.stack !in sets {
        sets := sets[e.stack := StackSet(0, 0, 0, None, 0)];
        uniqueStacks := uniqueStacks + 1;
      }
      sets := sets[e.stack := Tracked(sets[e.stack], e)];
    }

    /** Sampling and tracking, the part that both observations share. */
    method Observe(e: Event) returns (hit: bool)
      requires Valid()
      modifies this`sampleCounter, this`history, this`sets, this`uniqueStacks
      ensures history == old(history) + [e] && sampleCounter == Wrapped(|history|)
      ensures var sampled := SampledEvents(history, sampleRate);
        && sampled == SampledEvents(old(history), sampleRate) + (if hit then [e] else [])
        && AllocCount(sampled) == AllocCount(SampledEvents(old(history), sampleRate)) + (if hit && e.alloc then 1 else 0)
        && sets == SetsAfter(sampled) && uniqueStacks == |sets|
    {
      hide SampledEvents, SetsAfter, AllocCount, RingAfter, Wrapped, Hit, Tracked, SetFor;
      ghost var before := SampledEvents(history, sampleRate);
      hit := Sample(e);
      assert before + [] == before;
      if hit {
        SetsAppend(before, e);
        AllocCountAppend(before, e);
        Track(e);
      }
    }

    method OnAllocate(success: bool, stack: nat, at: int)
      requires Valid()
      modifies this
      ensures Valid() && changes == old(changes) && running == old(running)
      ensures history == if success && running then old(history) + [Event(true, stack, at)] else old(history)
    {
      if !success || !running {
        return;
      }
      hide SampledEvents, SetsAfter, AllocCount, RingAfter, Wrapped;
      var hit := Observe(Event(true, stack, at));
      if hit {
        totalAllocs := totalAllocs + 1;
        totalLeaks := totalLeaks + 1;
      }
    }

    method OnDeallocate(success: bool, stack: nat, at: int)
      requires Valid()
      modifies this
      ensures Valid() && changes == old(changes) && running == old(running)
      ensures history == if success && running then old(history) + [Event(false, stack, at)] else old(history)
    {
      if !success || !running {
        return;
      }
      hide SampledEvents, SetsAfter, AllocCount, RingAfter, Wrapped;
      var hit := Observe(Event(false, stack, at));
      if hit {
        totalDeallocs := totalDeallocs + 1;
        totalLeaks := totalLeaks - 1;
      }
    }

    method OnStateChange(prev: nat, curr: nat, at: nat)
      requires Valid()
      modifies this`stateTransIdx, this`changes, stateTransitions
      ensures Valid() && changes == old(changes) + [Transition(prev, curr, at)]
    {
      hide SampledEvents, SetsAfter, AllocCount, RingAfter;
      ghost var n := |changes|;
      WrappedNext(n);
      hide Wrapped;
      stateTransIdx := Wrapped(stateTransIdx + 1);
      changes := changes + [Transition(prev, curr, at)];
      assert |changes| == n + 1;
      WrappedIndex(|changes|, 0);
      RingAppend(old(changes), Transition(prev, curr, at));
      stateTransitions[SlotBack(stateTransIdx, 0)] := Transition(prev, curr, at);
    }

    method SetRunning(on: bool)
      requires Valid()
      modifies this`running
      ensures Valid() && running == on
    {
      running := on;
    }

    method Clear()
      requires Valid()
      modifies this, stateTransitions
      ensures Valid() && history == [] && changes == [] && running == old(running)
    {
      hide SampledEvents, SetsAfter, AllocCount, RingAfter, Wrapped;
      EmptyHistories(sampleRate);
      sets := map[];
      forall i | 0 <= i < stateTransitions.Length {
        stateTransitions[i] := EMPTY;
      }
      stateTransIdx, totalAllocs, totalDeallocs, totalLeaks, uniqueStacks, sampleCounter := 0, 0, 0, 0, 0, 0;
      history, changes := [], [];
      assert stateTransitions[..] == Repeat(EMPTY, RING_SIZE);
    }

    /** Enough live allocations, and old enough; the zero time is infinitely old. */
    predicate Qualifies(s: StackSet, now: int) {
      s.netCount >= leakThreshold && (s.firstSeen.None? || now - s.firstSeen.value >= ageThreshold)
    }

    ghost function Qualifying(now: int): set<Leak>
      reads this
    {
      set k | k in sets && Qualifies(sets[k], now) :: LeakOf(k, sets[k])
    }

    /** What the report may say of a stack, in terms of what was observed: its best suffix
        excess reaches the threshold, and its first sampled allocation is old enough, or there
        is none; with its numbers of allocations and deallocations and its times. */
    ghost predicate IsLeak(l: Leak, now: int)
      requires sampleRate > 0
      reads this
    {
      var events := SampledEvents(history, sampleRate);
      var flags := OfStack(events, l.stack);
      && (exists i :: 0 <= i < |events| && events[i].stack == l.stack)
      && IsBestWindow(l.count, flags) && l.count >= leakThreshold
      && l.allocCount == multiset(flags)[true] && l.deallocCount == multiset(flags)[false]
      && Times(events, l.stack, l.firstSeen, l.lastSeen)
      && (l.firstSeen.Some? ==> now - l.firstSeen.value >= ageThreshold)
    }

    /** The set of a tracked stack has the counts and times of its sampled events. */
    lemma SetIsLeak(k: nat, now: int)
      requires Valid() && k in sets && Qualifies(sets[k], now)
      ensures IsLeak(LeakOf(k, sets[k]), now)
    {
      var events := SampledEvents(history, sampleRate);
      hide SampledEvents, SetsAfter, AllocCount, OfStack, Count, Ups, RingAfter, IsBestWindow, Net, Times;
      TrackedExactlyWhen(events, k);
      SetMeans(events, k);
      SeenMeans(events, k);
      CountAtLeastNet(OfStack(events, k));
      UpsAreTrue(OfStack(events, k));
    }

    /** A leak is determined by its stack and the history. */
    lemma LeakIsSet(l: Leak, now: int)
      requires Valid() && IsLeak(l, now)
      ensures l.stack in sets && Qualifies(sets[l.stack], now) && l == LeakOf(l.stack, sets[l.stack])
    {
      var events, k := SampledEvents(history, sampleRate), l.stack;
      hide SampledEvents, SetsAfter, AllocCount, OfStack, Count, Ups, RingAfter, Net, Excess, Times;
      TrackedExactlyWhen(events, k);
      SetMeans(events, k);
      SeenMeans(events, k);
      CountAtLeastNet(OfStack(events, k));
      UpsAreTrue(OfStack(events, k));
      TimesAreUnique(events, k, l.firstSeen, l.lastSeen, sets[k].firstSeen, sets[k].lastSeen);
    }

    /** The candidates of a report are exactly these. */
    lemma QualifyingMeans(now: int)
      requires Valid()
      ensures forall l :: l in Qualifying(now) <==> IsLeak(l, now)
    {
      forall l ensures l in Qualifying(now) <==> IsLeak(l, now) {
        if l in Qualifying(now) {
          var k :| k in sets && Qualifies(sets[k], now) && l == LeakOf(k, sets[k]);
          SetIsLeak(k, now);
        }
        if IsLeak(l, now) {
          LeakIsSet(l, now);
        }
      }
    }

    /** Scan all stacks, in any order. */
    method Scan(now: int) returns (leaks: seq<Leak>)
      ensures multiset(leaks) == multiset(Qualifying(now))
    {
      leaks := [];
      var todo := sets.Keys;
      ghost var found: set<Leak> := {};
      while todo != {}
        invariant todo <= sets.Keys && multiset(leaks) == multiset(found)
        invariant found == set k | k in sets && k !in todo && Qualifies(sets[k], now) :: LeakOf(k, sets[k])
        decreases |todo|
      {
        var k :| k in todo;
        var l := LeakOf(k, sets[k]);
        assert l !in found;
        if Qualifies(sets[k], now) {
          leaks := leaks + [l];
          found := found + {l};
        }
        todo := todo - {k};
      }
      assert found == Qualifying(now);
    }

    /** The ring, read back from the newest slot, without empty slots. */
    method ReadRing() returns (transitions: seq<Transition>)
      requires Valid()
      ensures transitions == Recent(changes, 0)
    {
      hide SampledEvents, SetsAfter, AllocCount, RingAfter, Wrapped, SlotBack, Counted, Recent;
      transitions := [];
      var i := 0;
      while i < RING_SIZE
        invariant i <= RING_SIZE && transitions + Recent(changes, i) == Recent(changes, 0)
      {
        ReadBack(changes, i);
        var t := stateTransitions[SlotBack(stateTransIdx, i)];
        if t.at != 0 {
          transitions := transitions + [t];
        }
        i := i + 1;
      }
      NothingLeft(changes);
    }

    /** The totals sampled, the ten largest qualifying stacks, each with its best suffix
        excess as count, and the last eight state changes. */
    method MakeReport(now: int) returns (report: Report)
      requires Valid()
      ensures TopTen(report.leaks, Qualifying(now)) && forall l :: l in Qualifying(now) <==> IsLeak(l, now)
      ensures forall i :: 0 <= i < |report.leaks| ==>
        IsBestWindow(report.leaks[i].count, OfStack(SampledEvents(history, sampleRate), report.leaks[i].stack))
      ensures report.transitions == Recent(changes, 0)
      ensures |history| < TWO_32 || TWO_32 % sampleRate == 0 ==>
        report.totalAllocs + report.totalDeallocs == |history| / sampleRate
      ensures report.totalLeaks == report.totalAllocs - report.totalDeallocs <= SumOver(sets, NetOf)
      ensures report == Report(totalAllocs, totalDeallocs, totalLeaks, uniqueStacks, report.leaks, report.transitions)
    {
      hide SampledEvents, SetsAfter, AllocCount, OfStack, SumOver, IsBestWindow, Recent, RingAfter, Detector.IsLeak;
      var leaks := Scan(now);
      var transitions := ReadRing();
      leaks := SortByCount(leaks);
      FirstTenAreTop(leaks, Qualifying(now));
      if |leaks| > TOP {
        leaks := leaks[..TOP];
      }
      CountersMean();
      QualifyingMeans(now);
      report := Report(totalAllocs, totalDeallocs, totalLeaks, uniqueStacks, leaks, transitions);
    }
  }
}
