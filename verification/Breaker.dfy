/** The circuit breaker: a closed / open / half-open machine driven by checks, failures
    and successes that carry their own time. */
module Breaker {
  import opened LeakyCounter
  import opened Wrappers

  datatype Mode = Closed | Open | HalfOpen

  datatype Settings = Settings(threshold: int, timeout: int)

  datatype Breaker = Breaker(mode: Mode, failures: int, successes: int, lastFailure: int)

  const INITIAL := Breaker(Closed, 0, 0, 0)

  /** isCircuitBreakerOpen: the new state, and whether the request is refused. */
  function Check(b: Breaker, cfg: Settings, now: int): (Breaker, bool) {
    if b.mode == Open then
      if now - b.lastFailure > cfg.timeout then (b.(mode := HalfOpen, successes := 0), false) else (b, true)
    else (b, false)
  }

  /** recordCircuitBreakerFailure */
  function Fail(b: Breaker, cfg: Settings, now: int): Breaker {
    var c := b.(failures := b.failures + 1, lastFailure := now);
    match b.mode
    case Closed => if c.failures >= cfg.threshold then c.(mode := Open) else c
    case HalfOpen => c.(mode := Open, successes := 0)
    case Open => c
  }

  /** recordCircuitBreakerSuccess */
  function Succeed(b: Breaker, cfg: Settings): Breaker {
    match b.mode
    case HalfOpen =>
      if b.successes + 1 >= cfg.threshold / 2 then b.(mode := Closed, failures := 0, successes := 0)
      else b.(successes := b.successes + 1)
    case Closed => if b.failures > 0 then b.(failures := b.failures - 1) else b
    case Open => b
  }

  /** Reset: the time of the last failure is kept. */
  function Cleared(b: Breaker): Breaker {
    b.(mode := Closed, failures := 0, successes := 0)
  }

  // ---- Runs ----

  datatype Event = Checked(now: int) | Failed(now: int) | Succeeded | WasCleared

  function Apply(b: Breaker, cfg: Settings, e: Event): Breaker {
    match e
    case Checked(now) => Check(b, cfg, now).0
    case Failed(now) => Fail(b, cfg, now)
    case Succeeded => Succeed(b, cfg)
    case WasCleared => Cleared(b)
  }

  function After(cfg: Settings, es: seq<Event>): Breaker {
    if es == [] then INITIAL else Apply(After(cfg, es[..|es| - 1]), cfg, es[|es| - 1])
  }

  lemma AfterNext(cfg: Settings, es: seq<Event>, e: Event)
    ensures After(cfg, es + [e]) == Apply(After(cfg, es), cfg, e)
  {
    assert (es + [e])[..|es|] == es;
  }

  /** The breaker object. Its history is the list of calls it has served. */
  class CircuitBreaker {
    const config: Settings
    var currentState: Mode
    var failureCount: int
    var successCount: int
    var lastFailureTime: int
    ghost var history: seq<Event>

    ghost function Value(): Breaker
      reads this
    {
      Breaker(currentState, failureCount, successCount, lastFailureTime)
    }

    ghost predicate Valid()
      reads this
    {
      Value() == After(config, history)
    }

    constructor (config: Settings)
      ensures Valid() && history == [] && this.config == config
    {
      this.config := config;
      currentState := Closed;
      failureCount, successCount, lastFailureTime := 0, 0, 0;
      history := [];
    }

    method IsOpen(now: int) returns (refused: bool)
      requires Valid()
      modifies this
      ensures Valid() && history == old(history) + [Checked(now)]
      ensures refused <==> old(currentState) == Open && now - old(lastFailureTime) <= config.timeout
      ensures refused == Check(After(config, old(history)), config, now).1
    {
      history := history + [Checked(now)];
      AfterNext(config, old(history), history[|history| - 1]);
      hide After;
      match currentState {
        case Open =>
          if now - lastFailureTime > config.timeout {
            currentState := HalfOpen;
            successCount := 0;
            return false;
          }
          return true;
        case HalfOpen => return false;
        case Closed => return false;
      }
    }

    method RecordFailure(now: int)
      requires Valid()
      modifies this
      ensures Valid() && history == old(history) + [Failed(now)]
    {
      history := history + [Failed(now)];
      AfterNext(config, old(history), history[|history| - 1]);
      hide After;
      failureCount := failureCount + 1;
      lastFailureTime := now;
      match currentState {
        case Closed =>
          if failureCount >= config.threshold {
            currentState := Open;
          }
        case HalfOpen =>
          currentState := Open;
          successCount := 0;
        case Open =>
      }
    }

    method RecordSuccess()
      requires Valid()
      modifies this
      ensures Valid() && history == old(history) + [Succeeded]
    {
      history := history + [Succeeded];
      AfterNext(config, old(history), history[|history| - 1]);
      hide After;
      match currentState {
        case HalfOpen =>
          successCount := successCount + 1;
          if successCount >= config.threshold / 2 {
            currentState := Closed;
            failureCount := 0;
            successCount := 0;
          }
        case Closed =>
          if failureCount > 0 {
            failureCount := failureCount - 1;
          }
        case Open =>
      }
    }

    /** The part of the allocator's Reset that concerns the breaker. */
    method Clear()
      requires Valid()
      modifies this
      ensures Valid() && history == old(history) + [WasCleared]
    {
      history := history + [WasCleared];
      AfterNext(config, old(history), history[|history| - 1]);
      hide After;
      currentState := Closed;
      failureCount := 0;
      successCount := 0;
    }
  }

  /** The failures (true) and successes (false) since the mode last changed or was cleared. */
  function Outcomes(cfg: Settings, es: seq<Event>): seq<bool> {
    if es == [] then []
    else
      var before, e := es[..|es| - 1], es[|es| - 1];
      if e.WasCleared? || After(cfg, es).mode != After(cfg, before).mode then []
      else if e.Checked? then Outcomes(cfg, before)
      else Outcomes(cfg, before) + [e.Failed?]
  }

  function LastFailure(es: seq<Event>): Option<int> {
    if es == [] then None
    else if es[|es| - 1].Failed? then Some(es[|es| - 1].now)
    else LastFailure(es[..|es| - 1])
  }

  /** How many successes close a half-open breaker. */
  function Needed(cfg: Settings): int {
    if cfg.threshold / 2 > 1 then cfg.threshold / 2 else 1
  }

  /** What holds after every run: the mode agrees with the counters, the closed counter is
      the leaky count of the outcomes since closing, a half-open breaker has seen nothing
      but successes, and a breaker that is not closed remembers its last failure. */
  ghost predicate Consistent(cfg: Settings, es: seq<Event>) {
    var b, h := After(cfg, es), Outcomes(cfg, es);
    match b.mode
    case Closed => 0 <= b.failures < cfg.threshold && b.successes == 0 && b.failures == Count(h)
    case Open => b.failures >= cfg.threshold && b.successes == 0 && LastFailure(es) == Some(b.lastFailure)
    case HalfOpen =>
      && b.failures >= cfg.threshold && LastFailure(es) == Some(b.lastFailure)
      && 0 <= b.successes == |h| < Needed(cfg)
      && (forall i :: 0 <= i < |h| ==> !h[i])
  }

  lemma {:induction false} EveryRunConsistent(cfg: Settings, es: seq<Event>)
    requires cfg.threshold >= 1
    ensures Consistent(cfg, es)
  {
    if es != [] {
      var before, e := es[..|es| - 1], es[|es| - 1];
      EveryRunConsistent(cfg, before);
      var h := Outcomes(cfg, before);
      if !e.Checked? {
        assert (h + [e.Failed?])[..|h|] == h;
      }
    }
  }

  /** The failures since the breaker last opened from closed, without that one. */
  function FailuresBeyond(cfg: Settings, es: seq<Event>): nat {
    if es == [] || After(cfg, es).mode == Closed then 0
    else
      var before := es[..|es| - 1];
      FailuresBeyond(cfg, before) + if es[|es| - 1].Failed? && After(cfg, before).mode != Closed then 1 else 0
  }

  /** After every run the breaker has the time of the last failure, which neither a success
      nor Reset forgets, and until it closes it goes on counting failures. */
  lemma {:induction false} EveryRunRemembers(cfg: Settings, es: seq<Event>)
    requires cfg.threshold >= 1
    ensures After(cfg, es).lastFailure == if LastFailure(es).Some? then LastFailure(es).value else 0
    ensures After(cfg, es).mode != Closed ==> After(cfg, es).failures == cfg.threshold + FailuresBeyond(cfg, es)
  {
    EveryRunConsistent(cfg, es);
    if es != [] {
      EveryRunConsistent(cfg, es[..|es| - 1]);
      EveryRunRemembers(cfg, es[..|es| - 1]);
    }
  }

  /** A closed breaker opens on an event if and only if the event is a failure and some
      window of outcomes since closing, ending with it, has at least threshold more
      failures than successes. No earlier window had. */
  lemma OpensExactlyWhen(cfg: Settings, es: seq<Event>, e: Event)
    requires cfg.threshold >= 1 && After(cfg, es).mode == Closed && !e.WasCleared?
    ensures After(cfg, es + [e]).mode != Closed <==>
      e.Failed? && SomeWindow(Outcomes(cfg, es) + [e.Failed?], cfg.threshold)
    ensures After(cfg, es + [e]).mode != Closed ==> After(cfg, es + [e]).mode == Open
    ensures !SomeWindow(Outcomes(cfg, es), cfg.threshold)
  {
    hide SomeWindow, Outcomes, LastFailure, Count, After;
    EveryRunConsistent(cfg, es);
    AfterNext(cfg, es, e);
    var h := Outcomes(cfg, es);
    WindowExactlyWhen(h, cfg.threshold);
    WindowExactlyWhen(h + [e.Failed?], cfg.threshold);
    CountNext(h, e.Failed?);
  }

  /** An open breaker is left if and only if a check comes more than the recovery timeout
      after the latest failure of the run, and then it is half-open. */
  lemma OpenIsLeftExactlyWhen(cfg: Settings, es: seq<Event>, e: Event)
    requires cfg.threshold >= 1 && After(cfg, es).mode == Open && !e.WasCleared?
    ensures LastFailure(es).Some?
    ensures After(cfg, es + [e]).mode != Open <==> e.Checked? && e.now - LastFailure(es).value > cfg.timeout
    ensures After(cfg, es + [e]).mode != Open ==> After(cfg, es + [e]).mode == HalfOpen
  {
    EveryRunConsistent(cfg, es);
    assert (es + [e])[..|es|] == es;
  }

  /** A half-open breaker closes if and only if the event is the Needed-th success since
      it became half-open, all outcomes since then being successes; any failure reopens it. */
  lemma HalfOpenResolves(cfg: Settings, es: seq<Event>, e: Event)
    requires cfg.threshold >= 1 && After(cfg, es).mode == HalfOpen && !e.WasCleared?
    ensures forall i :: 0 <= i < |Outcomes(cfg, es)| ==> !Outcomes(cfg, es)[i]
    ensures After(cfg, es + [e]).mode == Closed <==> e.Succeeded? && |Outcomes(cfg, es)| + 1 == Needed(cfg)
    ensures After(cfg, es + [e]).mode == Open <==> e.Failed?
  {
    EveryRunConsistent(cfg, es);
    assert (es + [e])[..|es|] == es;
  }

  /** Without a failure the breaker never leaves its initial state. */
  lemma {:induction false} NoFailureNoChange(cfg: Settings, es: seq<Event>)
    requires forall i :: 0 <= i < |es| ==> !es[i].Failed?
    ensures After(cfg, es) == INITIAL
  {
    if es != [] {
      NoFailureNoChange(cfg, es[..|es| - 1]);
    }
  }

  /** A check that refuses leaves the breaker open; a check that lets a request through,
      followed by a failure, opens it or brings it one failure closer. */
  lemma OutageStep(cfg: Settings, es: seq<Event>, checkedAt: int, failedAt: int)
    ensures var b, checked := After(cfg, es), es + [Checked(checkedAt)];
      var after := After(cfg, checked + [Failed(failedAt)]);
      if Check(b, cfg, checkedAt).1 then After(cfg, checked).mode == Open
      else after.mode == Open || (b.mode == Closed && after.mode == Closed && after.failures == b.failures + 1)
  {
    var checked := es + [Checked(checkedAt)];
    assert checked[..|es|] == es;
    assert (checked + [Failed(failedAt)])[..|checked|] == checked;
  }

  // ---- Checks interleaved with other callers ----

  /** What a check read under the read lock. */
  datatype Snapshot = Snapshot(mode: Mode, lastFailure: int)

  datatype Shared = Shared(breaker: Breaker, reading: map<nat, Snapshot>)

  /** A check is two steps: a read of the shared fields and, after the clock has been read,
      an upgrade that looks at the mode again but not at the time of the last failure. */
  datatype Action = Read(thread: nat) | Upgrade(thread: nat, now: int) | FailNow(now: int) | SucceedNow

  function Act(s: Shared, cfg: Settings, a: Action): Shared {
    match a
    case Read(t) => s.(reading := s.reading[t := Snapshot(s.breaker.mode, s.breaker.lastFailure)])
    case Upgrade(t, now) =>
      if t !in s.reading then s
      else
        var snap := s.reading[t];
        var done := s.(reading := s.reading - {t});
        if snap.mode == Open && now - snap.lastFailure > cfg.timeout && s.breaker.mode == Open
        then done.(breaker := s.breaker.(mode := HalfOpen, successes := 0))
        else done
    case FailNow(now) => s.(breaker := Fail(s.breaker, cfg, now))
    case SucceedNow => s.(breaker := Succeed(s.breaker, cfg))
  }

  function ActAll(s: Shared, cfg: Settings, actions: seq<Action>): Shared {
    if actions == [] then s else Act(ActAll(s, cfg, actions[..|actions| - 1]), cfg, actions[|actions| - 1])
  }

  /** With nobody in between, the two steps are the check of the machine. */
  lemma LoneCheckIsCheck(s: Shared, cfg: Settings, t: nat, now: int)
    ensures ActAll(s, cfg, [Read(t), Upgrade(t, now)]).breaker == Check(s.breaker, cfg, now).0
  {
    var actions := [Read(t), Upgrade(t, now)];
    assert actions[..1] == [Read(t)] && [Read(t)][..0] == [];
    assert ActAll(s, cfg, [Read(t)]) == Act(s, cfg, Read(t));
  }

  const IDLE := Shared(INITIAL, map[])

  /** The time of the latest failure recorded after the thread's latest read, if any. */
  function FailureSinceRead(actions: seq<Action>, t: nat): Option<int> {
    if actions == [] then None
    else
      match actions[|actions| - 1]
      case FailNow(now) => Some(now)
      case Read(u) => if u == t then None else FailureSinceRead(actions[..|actions| - 1], t)
      case _ => FailureSinceRead(actions[..|actions| - 1], t)
  }

  lemma {:induction false} SnapshotsAge(cfg: Settings, actions: seq<Action>, t: nat)
    ensures var s := ActAll(IDLE, cfg, actions);
      t in s.reading ==>
        match FailureSinceRead(actions, t)
        case Some(at) => s.breaker.lastFailure == at
        case None => s.reading[t].lastFailure == s.breaker.lastFailure
  {
    if actions != [] {
      SnapshotsAge(cfg, actions[..|actions| - 1], t);
    }
  }

  /** The time of the latest failure recorded by anybody, if any. */
  function LatestFailure(actions: seq<Action>): Option<int> {
    if actions == [] then None
    else if actions[|actions| - 1].FailNow? then Some(actions[|actions| - 1].now)
    else LatestFailure(actions[..|actions| - 1])
  }

  lemma {:induction false} OpenRemembersFailure(cfg: Settings, actions: seq<Action>)
    requires cfg.threshold >= 1
    ensures var b := ActAll(IDLE, cfg, actions).breaker;
      && (b.mode != Closed ==> LatestFailure(actions).Some?)
      && (LatestFailure(actions).Some? ==> b.lastFailure == LatestFailure(actions).value)
      && (b.mode == Closed ==> b.failures < cfg.threshold)
  {
    if actions != [] {
      OpenRemembersFailure(cfg, actions[..|actions| - 1]);
    }
  }

  /** The upgrade leaves the open mode although at most the timeout has passed since the
      latest failure. */
  ghost predicate UpgradesEarly(cfg: Settings, actions: seq<Action>, t: nat, now: int) {
    var s := ActAll(IDLE, cfg, actions);
    && s.breaker.mode == Open && Act(s, cfg, Upgrade(t, now)).breaker.mode != Open
    && LatestFailure(actions).Some? && now - LatestFailure(actions).value <= cfg.timeout
  }

  /** Interleaved with other callers, a check of an open breaker that has done its read
      upgrades early if and only if what it read was an open breaker whose timeout had
      passed, and since then somebody recorded a failure that is at most the timeout old. */
  lemma EarlyUpgradeExactlyWhen(cfg: Settings, actions: seq<Action>, t: nat, now: int)
    requires cfg.threshold >= 1
    requires ActAll(IDLE, cfg, actions).breaker.mode == Open && t in ActAll(IDLE, cfg, actions).reading
    ensures var snap, since := ActAll(IDLE, cfg, actions).reading[t], FailureSinceRead(actions, t);
      UpgradesEarly(cfg, actions, t, now) <==>
        snap.mode == Open && now - snap.lastFailure > cfg.timeout && since.Some? && now - since.value <= cfg.timeout
  {
    hide ActAll;
    SnapshotsAge(cfg, actions, t);
    OpenRemembersFailure(cfg, actions);
  }

  /** If nobody recorded a failure since its read, no check ever upgrades early. */
  lemma NoFailureNoEarlyUpgrade(cfg: Settings, actions: seq<Action>, t: nat, now: int)
    requires cfg.threshold >= 1 && FailureSinceRead(actions, t).None?
    ensures !UpgradesEarly(cfg, actions, t, now)
  {
    hide ActAll;
    SnapshotsAge(cfg, actions, t);
    OpenRemembersFailure(cfg, actions);
  }

  /** Such a run exists: thread 1 reads an expired open breaker, thread 2 half-opens it and
      its failure reopens it, then thread 1 half-opens it again at once. */
  lemma EarlyUpgradeHappens()
    ensures var cfg := Settings(1, 10);
      var actions := [FailNow(0), Read(1), Read(2), Upgrade(2, 11), FailNow(11)];
      var s := ActAll(IDLE, cfg, actions);
      && s.breaker.mode == Open && s.breaker.lastFailure == 11
      && Act(s, cfg, Upgrade(1, 11)).breaker.mode == HalfOpen
  {
    var cfg := Settings(1, 10);
    var a1 := [FailNow(0)];
    var a2 := a1 + [Read(1)];
    var a3 := a2 + [Read(2)];
    var a4 := a3 + [Upgrade(2, 11)];
    var a5 := a4 + [FailNow(11)];
    assert a1[..0] == [] && a2[..1] == a1 && a3[..2] == a2 && a4[..3] == a3 && a5[..4] == a4;
    assert a5 == [FailNow(0), Read(1), Read(2), Upgrade(2, 11), FailNow(11)];
    assert ActAll(IDLE, cfg, a1).breaker == Breaker(Open, 1, 0, 0);
    assert ActAll(IDLE, cfg, a3).reading == map[1 := Snapshot(Open, 0), 2 := Snapshot(Open, 0)];
    assert ActAll(IDLE, cfg, a4).breaker.mode == HalfOpen;
  }
}
