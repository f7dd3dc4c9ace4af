/** The admission of ZK verifications: at most 20 starts in any minute, and one verification at a time. */
module Limiter {
  const WINDOW: int := 60_000
  const MOST_STARTS: nat := 20

  datatype Gate = Gate(inflight: bool, starts: seq<int>)

  /** The starts still inside the window that ends at `now`. */
  function Recent(starts: seq<int>, now: int): seq<int> {
    if starts == [] then []
    else
      var n := |starts| - 1;
      Recent(starts[..n], now) + if starts[n] > now - WINDOW then [starts[n]] else []
  }

  predicate Admits(g: Gate, now: int) {
    !g.inflight && |Recent(g.starts, now)| < MOST_STARTS
  }

  /** A refused request drops the old starts too. */
  function Request(g: Gate, now: int): Gate {
    if Admits(g, now) then Gate(true, Recent(g.starts, now) + [now]) else g.(starts := Recent(g.starts, now))
  }

  // ------------------------------------------------------------------ runs

  /** `Ends(k)` is the end of the k-th admitted verification, whatever its outcome. */
  datatype Event = Asks(now: int) | Ends(k: nat)

  /** The gate with its history: when each verification was admitted and which are still running. */
  datatype Run = Run(gate: Gate, clock: int, admitted: seq<int>, running: set<nat>)

  function Fresh(clock: int): Run { Run(Gate(false, []), clock, [], {}) }

  function Step(r: Run, e: Event): Run {
    match e
    case Asks(now) =>
      var admitted := Admits(r.gate, now);
      Run(Request(r.gate, now), now,
          if admitted then r.admitted + [now] else r.admitted,
          if admitted then r.running + {|r.admitted|} else r.running)
    case Ends(k) =>
      if k in r.running then r.(gate := r.gate.(inflight := false), running := r.running - {k}) else r
  }

  function Steps(r: Run, events: seq<Event>): Run {
    if events == [] then r else Step(Steps(r, events[..|events| - 1]), events[|events| - 1])
  }

  /** No request reads an earlier clock than the one before it. */
  predicate ClockForward(clock: int, events: seq<Event>) {
    if events == [] then true
    else
      var n := |events| - 1;
      ClockForward(clock, events[..n]) && (events[n].Asks? ==> LastClock(clock, events[..n]) <= events[n].now)
  }

  function LastClock(clock: int, events: seq<Event>): int {
    if events == [] then clock
    else if events[|events| - 1].Asks? then events[|events| - 1].now
    else LastClock(clock, events[..|events| - 1])
  }

  /** How many of `times` lie in the window (t - 60000, t]. */
  function InWindow(times: seq<int>, t: int): nat {
    if times == [] then 0
    else
      var n := |times| - 1;
      InWindow(times[..n], t) + if t - 60_000 < times[n] <= t then 1 else 0
  }

  // ------------------------------------------------------------------ the bound

  lemma {:induction false} DroppedStartsDoNotCount(starts: seq<int>, now: int, t: int)
    requires now <= t
    ensures InWindow(Recent(starts, now), t) == InWindow(starts, t)
  {
    if starts != [] {
      var n := |starts| - 1;
      DroppedStartsDoNotCount(starts[..n], now, t);
      var kept := Recent(starts[..n], now);
      if starts[n] > now - WINDOW { assert (kept + [starts[n]])[..|kept|] == kept; }
      else { assert kept + [] == kept; }
    }
  }

  lemma {:induction false} InWindowAtMostAll(times: seq<int>, t: int)
    ensures InWindow(times, t) <= |times|
  {
    if times != [] { InWindowAtMostAll(times[..|times| - 1], t); }
  }

  lemma InWindowAppend(times: seq<int>, x: int, t: int)
    ensures InWindow(times + [x], t) == InWindow(times, t) + if t - WINDOW < x <= t then 1 else 0
  {
    assert (times + [x])[..|times|] == times;
  }

  /** What the starts kept stand for: the same count as the whole history in every window from now on. */
  ghost predicate Faithful(r: Run) {
    && |r.gate.starts| <= 20
    && (forall t :: r.clock <= t ==> InWindow(r.gate.starts, t) == InWindow(r.admitted, t))
    && (forall t :: InWindow(r.admitted, t) <= 20)
  }

  ghost predicate OneAtATime(r: Run) {
    && (forall k, l :: k in r.running && l in r.running ==> k == l)
    && (r.gate.inflight <==> r.running != {})
    && (forall k :: k in r.running ==> k < |r.admitted|)
  }

  lemma {:induction false} RecentIsShorter(starts: seq<int>, now: int)
    ensures |Recent(starts, now)| <= |starts|
  {
    if starts != [] { RecentIsShorter(starts[..|starts| - 1], now); }
  }

  lemma AskKeepsFaithful(r: Run, now: int)
    requires Faithful(r) && r.clock <= now
    ensures Faithful(Step(r, Asks(now)))
  {
    var u := Step(r, Asks(now));
    var kept := Recent(r.gate.starts, now);
    RecentIsShorter(r.gate.starts, now);
    forall t | now <= t
      ensures InWindow(u.gate.starts, t) == InWindow(u.admitted, t) && InWindow(u.admitted, t) <= MOST_STARTS
    {
      DroppedStartsDoNotCount(r.gate.starts, now, t);
      InWindowAppend(kept, now, t);
      InWindowAppend(r.admitted, now, t);
      InWindowAtMostAll(u.gate.starts, t);
    }
    forall t | t < now ensures InWindow(u.admitted, t) <= MOST_STARTS {
      InWindowAppend(r.admitted, now, t);
    }
  }

  /** With a clock that never goes back, no window of a minute ever holds more than 20 admissions,
      although older starts are forgotten, and no two verifications ever run at once. */
  lemma {:induction false} NeverMoreThanTwenty(clock: int, events: seq<Event>)
    requires ClockForward(clock, events)
    ensures Steps(Fresh(clock), events).clock == LastClock(clock, events)
    ensures Faithful(Steps(Fresh(clock), events)) && OneAtATime(Steps(Fresh(clock), events))
  {
    if events != [] {
      var n := |events| - 1;
      NeverMoreThanTwenty(clock, events[..n]);
      var r := Steps(Fresh(clock), events[..n]);
      match events[n] {
        case Asks(now) =>
          AskKeepsFaithful(r, now);
        case Ends(k) =>
      }
    }
  }

  lemma {:induction false} RecentCounts(starts: seq<int>, now: int)
    requires forall i :: 0 <= i < |starts| ==> starts[i] <= now
    ensures |Recent(starts, now)| == InWindow(starts, now)
  {
    if starts != [] { RecentCounts(starts[..|starts| - 1], now); }
  }

  lemma {:induction false} RecentWithin(starts: seq<int>, now: int, bound: int)
    requires forall i :: 0 <= i < |starts| ==> starts[i] <= bound
    ensures forall i :: 0 <= i < |Recent(starts, now)| ==> Recent(starts, now)[i] <= bound
  {
    if starts != [] { RecentWithin(starts[..|starts| - 1], now, bound); }
  }

  /** With such a clock no start lies after the latest reading. */
  lemma {:induction false} StartsBehind(clock: int, events: seq<Event>)
    requires ClockForward(clock, events)
    ensures var r := Steps(Fresh(clock), events); forall i :: 0 <= i < |r.gate.starts| ==> r.gate.starts[i] <= r.clock
    ensures Steps(Fresh(clock), events).clock == LastClock(clock, events)
  {
    if events != [] {
      var n := |events| - 1;
      StartsBehind(clock, events[..n]);
      var r := Steps(Fresh(clock), events[..n]);
      if events[n].Asks? { RecentWithin(r.gate.starts, events[n].now, r.clock); }
    }
  }

  /** A request is turned away exactly when a verification is running or 20 were admitted in the minute up to it. */
  lemma AdmittedExactly(clock: int, events: seq<Event>, now: int)
    requires ClockForward(clock, events) && LastClock(clock, events) <= now
    ensures var r := Steps(Fresh(clock), events);
      Step(r, Asks(now)).admitted
      == if r.running == {} && InWindow(r.admitted, now) < 20 then r.admitted + [now] else r.admitted
  {
    NeverMoreThanTwenty(clock, events);
    StartsBehind(clock, events);
    RecentCounts(Steps(Fresh(clock), events).gate.starts, now);
  }

  // ------------------------------------------------------------------ when the clock goes back

  /** `n` verifications asked for and ended at time `t`. */
  function Burst(t: int, n: nat): seq<Event> {
    if n == 0 then [] else Burst(t, n - 1) + [Asks(t), Ends(n - 1)]
  }

  function Same(t: int, n: nat): (r: seq<int>)
    ensures |r| == n
  {
    if n == 0 then [] else Same(t, n - 1) + [t]
  }

  lemma SamePrefix(t: int, n: nat)
    requires n > 0
    ensures Same(t, n)[..n - 1] == Same(t, n - 1) && Same(t, n)[n - 1] == t
  {
  }

  lemma {:induction false} SameRecent(t: int, n: nat, at: int)
    ensures Recent(Same(t, n), at) == if t > at - WINDOW then Same(t, n) else []
  {
    if n > 0 {
      SameRecent(t, n - 1, at);
      SamePrefix(t, n);
    }
  }

  lemma {:induction false} SameInWindow(t: int, n: nat, at: int)
    ensures InWindow(Same(t, n), at) == if at - WINDOW < t <= at then n else 0
  {
    if n > 0 {
      SameInWindow(t, n - 1, at);
      SamePrefix(t, n);
    }
  }

  lemma StepsAppend(r: Run, events: seq<Event>, e: Event)
    ensures Steps(r, events + [e]) == Step(Steps(r, events), e)
  {
    assert (events + [e])[..|events|] == events;
  }

  function AfterBurst(t: int, n: nat): Run { Run(Gate(false, Same(t, n)), t, Same(t, n), {}) }

  lemma OneMore(t: int, n: nat)
    requires n < MOST_STARTS
    ensures Step(Step(AfterBurst(t, n), Asks(t)), Ends(n)) == AfterBurst(t, n + 1)
  {
    SameRecent(t, n, t);
    var asked := Step(AfterBurst(t, n), Asks(t));
    assert asked == Run(Gate(true, Same(t, n) + [t]), t, Same(t, n) + [t], {n});
  }

  lemma {:induction false} BurstRun(t: int, n: nat)
    requires n <= MOST_STARTS
    ensures Steps(Fresh(t), Burst(t, n)) == AfterBurst(t, n)
  {
    hide Step, Steps, Recent;
    EmptySteps(t);
    if n > 0 {
      BurstRun(t, n - 1);
      OneMore(t, n - 1);
      StepsTwice(Fresh(t), Burst(t, n - 1), Asks(t), Ends(n - 1));
    }
  }

  lemma EmptySteps(t: int)
    ensures Steps(Fresh(t), []) == Fresh(t) == AfterBurst(t, 0)
  {
  }

  lemma StepsTwice(r: Run, events: seq<Event>, e: Event, f: Event)
    ensures Steps(r, events + [e, f]) == Step(Step(Steps(r, events), e), f)
  {
    hide Step;
    StepsAppend(r, events, e);
    StepsAppend(r, events + [e], f);
    assert events + [e] + [f] == events + [e, f];
  }

  lemma {:induction false} BurstForward(t: int, n: nat)
    ensures ClockForward(t, Burst(t, n)) && LastClock(t, Burst(t, n)) == t
  {
    if n > 0 {
      BurstForward(t, n - 1);
      BurstClock(t, Burst(t, n - 1), n - 1);
    }
  }

  lemma BurstClock(t: int, before: seq<Event>, k: nat)
    requires ClockForward(t, before) && LastClock(t, before) == t
    ensures ClockForward(t, before + [Asks(t), Ends(k)]) && LastClock(t, before + [Asks(t), Ends(k)]) == t
  {
    var asked, ended := before + [Asks(t)], before + [Asks(t), Ends(k)];
    assert ended[..|asked|] == asked && asked[..|before|] == before;
  }

  /** The clock condition cannot be weakened by a single step: whatever times `a` and `b < a`, there is a
      run whose clock goes forward up to `a` and then once back to `b`, after which the window ending
      at `b` holds twenty-one admissions. */
  lemma EveryStepBackAdmitsMore(a: int, b: int) returns (start: int, before: seq<Event>)
    requires b < a
    ensures start <= b && ClockForward(start, before) && LastClock(start, before) == a
    ensures InWindow(Steps(Fresh(start), before + [Asks(b)]).admitted, b) == 21
  {
    start := if b < a - WINDOW then b else a - WINDOW;
    var full := Burst(start, 20);
    BurstRun(start, 20);
    BurstForward(start, 20);
    before := full + [Asks(a), Ends(20)];
    ForwardTo(start, full, a);
    ForgetAndReturn(start, a, b);
    var asked := full + [Asks(a)];
    assert before == asked + [Ends(20)];
    StepsAppend(Fresh(start), full, Asks(a));
    StepsAppend(Fresh(start), asked, Ends(20));
    StepsAppend(Fresh(start), before, Asks(b));
  }

  lemma ForwardTo(start: int, full: seq<Event>, a: int)
    requires ClockForward(start, full) && LastClock(start, full) <= a
    ensures ClockForward(start, full + [Asks(a), Ends(20)]) && LastClock(start, full + [Asks(a), Ends(20)]) == a
  {
    var asked, ended := full + [Asks(a)], full + [Asks(a), Ends(20)];
    assert ended[..|asked|] == asked && asked[..|full|] == full;
  }

  /** At `a` all twenty starts are forgotten; back at `b` one more is admitted. */
  lemma ForgetAndReturn(start: int, a: int, b: int)
    requires start <= b < a && start <= a - WINDOW && b - WINDOW < start
    ensures var r := Step(Step(Step(AfterBurst(start, 20), Asks(a)), Ends(20)), Asks(b));
      r.admitted == Same(start, 20) + [a] + [b] && InWindow(r.admitted, b) == 21
  {
    SameRecent(start, 20, a);
    SameInWindow(start, 20, b);
    var r1 := Step(AfterBurst(start, 20), Asks(a));
    assert r1 == Run(Gate(true, [a]), a, Same(start, 20) + [a], {20});
    var r2 := Step(r1, Ends(20));
    assert r2 == Run(Gate(false, [a]), a, Same(start, 20) + [a], {});
    assert [a][..0] == [] && |Recent([a], b)| <= 1;
    InWindowAppend(Same(start, 20), a, b);
    InWindowAppend(Same(start, 20) + [a], b, b);
  }

  // ------------------------------------------------------------------ the module state

  class VerificationGate {
    var inflight: bool
    var starts: seq<int>

    ghost function State(): Gate
      reads this
    {
      Gate(inflight, starts)
    }

    constructor ()
      ensures State() == Gate(false, [])
    {
      inflight, starts := false, [];
    }

    /** The synchronous part of `boundedVerify`, up to its first await. */
    method Begin(now: int) returns (admitted: bool)
      modifies this
      ensures admitted == Admits(old(State()), now) && State() == Request(old(State()), now)
    {
      starts := Recent(starts, now);
      if inflight || |starts| >= MOST_STARTS { return false; }
      inflight := true;
      starts := starts + [now];
      return true;
    }

    /** The `finally` block of an admitted call. */
    method Finish()
      modifies this
      ensures State() == old(State()).(inflight := false)
    {
      inflight := false;
    }
  }
}
