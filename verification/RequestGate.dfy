/** The MCP server's rate window and active-request counter (apps/server/src/http.ts). */
module RequestGate {

  type Millis = int

  datatype Limits = Limits(windowMs: Millis, maxRequests: nat, maxConcurrent: nat)

  /** `released` holds the flag of every admitted request, in order of admission. */
  datatype State = State(startedAt: Millis, requests: nat, active: nat, released: seq<bool>)

  datatype Call = Request(authorized: bool, now: Millis) | Release(id: nat)

  datatype Verdict = Unauthorized | RateLimited | Busy | Admitted(id: nat) | Noted

  datatype Outcome = Outcome(state: State, verdict: Verdict)

  function Rolled(s: State, now: Millis, limits: Limits): State {
    if now < s.startedAt || now - s.startedAt >= limits.windowMs then s.(startedAt := now, requests := 0) else s
  }

  function NotBelowZero(n: int): nat { if n < 0 then 0 else n }

  function Handle(s: State, call: Call, limits: Limits): Outcome {
    match call
    case Request(authorized, now) =>
      if !authorized then Outcome(s, Unauthorized)
      else
        var rolled := Rolled(s, now, limits);
        if rolled.requests >= limits.maxRequests then Outcome(rolled, RateLimited)
        else
          var counted := rolled.(requests := rolled.requests + 1);
          if counted.active >= limits.maxConcurrent then Outcome(counted, Busy)
          else Outcome(counted.(active := counted.active + 1, released := counted.released + [false]),
                       Admitted(|counted.released|))
    case Release(id) =>
      if id >= |s.released| || s.released[id] then Outcome(s, Noted)
      else Outcome(s.(active := NotBelowZero(s.active - 1), released := s.released[id := true]), Noted)
  }

  /** Admitted requests not yet released. */
  function Open(released: seq<bool>): nat {
    if released == [] then 0 else Open(released[..|released| - 1]) + (if released[|released| - 1] then 0 else 1)
  }

  lemma {:induction false} ReleasingOne(released: seq<bool>, id: nat)
    requires id < |released| && !released[id]
    ensures Open(released) > 0 && Open(released[id := true]) == Open(released) - 1
  {
    var n := |released| - 1;
    if id < n {
      ReleasingOne(released[..n], id);
      assert released[id := true][..n] == released[..n][id := true];
    } else {
      assert released[id := true][..n] == released[..n];
    }
  }

  ghost predicate Sound(s: State, limits: Limits) {
    s.requests <= limits.maxRequests && s.active == Open(s.released) <= limits.maxConcurrent
  }

  /** The active counter is the number of admitted requests not yet released, and keeps to its
      limit; the counter never has to be stopped at zero. */
  lemma HandleKeepsSound(s: State, call: Call, limits: Limits)
    requires Sound(s, limits)
    ensures Sound(Handle(s, call, limits).state, limits)
    ensures call.Release? && call.id < |s.released| && !s.released[call.id] ==> s.active > 0
  {
    match call
    case Request(_, _) =>
      assert (s.released + [false])[..|s.released|] == s.released;
    case Release(id) =>
      if id < |s.released| && !s.released[id] { ReleasingOne(s.released, id); }
  }

  /** Without authorization nothing is looked at; a request over the rate of its window is not counted,
      one that finds too many active is, and the others are let in. */
  lemma RequestsAreAnswered(s: State, authorized: bool, now: Millis, limits: Limits)
    ensures var outcome := Handle(s, Request(authorized, now), limits);
            var current := s.startedAt <= now < s.startedAt + limits.windowMs;
            var used := if current then s.requests else 0;
            var after, window := outcome.state, if current then s.startedAt else now;
            if !authorized then outcome == Outcome(s, Unauthorized)
            else if used >= limits.maxRequests then
              outcome.verdict == RateLimited && after == State(window, used, s.active, s.released)
            else if s.active >= limits.maxConcurrent then
              outcome.verdict == Busy && after == State(window, used + 1, s.active, s.released)
            else
              && outcome.verdict == Admitted(|s.released|)
              && after == State(window, used + 1, s.active + 1, s.released + [false])
  {
  }

  /** A response releases its request once, however often it reports its end. */
  lemma ReleasesAreAnswered(s: State, id: nat, limits: Limits)
    requires Sound(s, limits)
    ensures var outcome := Handle(s, Release(id), limits);
            && outcome.verdict == Noted
            && (if id < |s.released| && !s.released[id] then
                  s.active > 0 && outcome.state == s.(active := s.active - 1, released := s.released[id := true])
                else outcome.state == s)
            && Handle(outcome.state, Release(id), limits).state == outcome.state
  {
    HandleKeepsSound(s, Release(id), limits);
  }

  // ----- histories -----

  ghost predicate IsRun(states: seq<State>, calls: seq<Call>, limits: Limits) {
    && |states| == |calls| + 1 && Sound(states[0], limits) && limits.windowMs > 0
    && (forall n :: 0 <= n < |calls| ==> states[n + 1] == Handle(states[n], calls[n], limits).state)
    && (forall m, n :: 0 <= m < n < |calls| && calls[m].Request? && calls[n].Request? ==> calls[m].now <= calls[n].now)
    && (forall n :: 0 <= n < |calls| && calls[n].Request? ==> states[0].startedAt <= calls[n].now)
  }

  predicate Counts(s: State, call: Call, limits: Limits) {
    var verdict := Handle(s, call, limits).verdict;
    verdict.Busy? || verdict.Admitted?
  }

  function CountedIn(states: seq<State>, calls: seq<Call>, limits: Limits, i: nat, j: nat): nat
    requires i <= j <= |calls| < |states|
  {
    if i == j then 0
    else CountedIn(states, calls, limits, i, j - 1) + (if Counts(states[j - 1], calls[j - 1], limits) then 1 else 0)
  }

  lemma {:induction false} RunStaysSound(states: seq<State>, calls: seq<Call>, limits: Limits, n: nat)
    requires IsRun(states, calls, limits) && n < |states|
    ensures Sound(states[n], limits)
    ensures forall m :: n <= m < |calls| && calls[m].Request? ==> states[n].startedAt <= calls[m].now
  {
    if n > 0 {
      RunStaysSound(states, calls, limits, n - 1);
      HandleKeepsSound(states[n - 1], calls[n - 1], limits);
    }
  }

  ghost predicate OneWindowLong(calls: seq<Call>, i: nat, j: nat, start: Millis, limits: Limits)
    requires j <= |calls|
  {
    forall n :: i <= n < j && calls[n].Request? ==> start <= calls[n].now < start + limits.windowMs
  }

  lemma {:induction false} IntervalIsCounted(states: seq<State>, calls: seq<Call>, limits: Limits, i: nat, j: nat,
                                             start: Millis)
    requires IsRun(states, calls, limits) && i <= j <= |calls| && OneWindowLong(calls, i, j, start, limits)
    ensures var s, count := states[j], CountedIn(states, calls, limits, i, j);
            if s.startedAt >= start then count <= limits.maxRequests + s.requests else count <= s.requests
  {
    RunStaysSound(states, calls, limits, j);
    if i < j {
      RunStaysSound(states, calls, limits, j - 1);
      IntervalIsCounted(states, calls, limits, i, j - 1, start);
    }
  }

  /** Any interval one window long counts at most twice the maximum of requests. */
  lemma AtMostTwiceTheMaximum(states: seq<State>, calls: seq<Call>, limits: Limits, i: nat, j: nat, start: Millis)
    requires IsRun(states, calls, limits) && i <= j <= |calls| && OneWindowLong(calls, i, j, start, limits)
    ensures CountedIn(states, calls, limits, i, j) <= 2 * limits.maxRequests
  {
    IntervalIsCounted(states, calls, limits, i, j, start);
    RunStaysSound(states, calls, limits, j);
  }

  /** Twice is reached: with a maximum of one, the last request of a window and the first of the
      next are one millisecond apart. */
  lemma TwiceIsReached()
    ensures var limits := Limits(60_000, 1, 9);
            var s0 := State(0, 0, 0, []);
            var s1 := Handle(s0, Request(true, 59_999), limits).state;
            Counts(s0, Request(true, 59_999), limits) && Counts(s1, Request(true, 60_000), limits)
  {
  }

  class Gate {
    const limits: Limits
    var rateWindowStartedAt: Millis
    var rateWindowRequests: nat
    var activeRequests: nat
    var released: seq<bool>

    function Vars(): State
      reads this
    {
      State(rateWindowStartedAt, rateWindowRequests, activeRequests, released)
    }

    constructor (limits: Limits, now: Millis)
      ensures this.limits == limits && Vars() == State(now, 0, 0, []) && Sound(Vars(), limits)
    {
      this.limits := limits;
      rateWindowStartedAt, rateWindowRequests, activeRequests, released := now, 0, 0, [];
    }

    method OnRequest(authorized: bool, now: Millis) returns (verdict: Verdict)
      requires Sound(Vars(), limits)
      modifies this
      ensures Sound(Vars(), limits) && Outcome(Vars(), verdict) == Handle(old(Vars()), Request(authorized, now), limits)
    {
      hide Open;
      HandleKeepsSound(Vars(), Request(authorized, now), limits);
      if !authorized { return Unauthorized; }
      if now < rateWindowStartedAt || now - rateWindowStartedAt >= limits.windowMs {
        rateWindowStartedAt := now;
        rateWindowRequests := 0;
      }
      if rateWindowRequests >= limits.maxRequests { return RateLimited; }
      rateWindowRequests := rateWindowRequests + 1;
      if activeRequests >= limits.maxConcurrent { return Busy; }
      activeRequests := activeRequests + 1;
      released := released + [false];
      verdict := Admitted(|released| - 1);
    }

    /** Called when the response finishes and again when it closes. */
    method OnRelease(id: nat)
      requires Sound(Vars(), limits) && id < |released|
      modifies this
      ensures Sound(Vars(), limits) && Vars() == Handle(old(Vars()), Release(id), limits).state
    {
      hide Open;
      HandleKeepsSound(Vars(), Release(id), limits);
      if released[id] { return; }
      released := released[id := true];
      activeRequests := NotBelowZero(activeRequests - 1);
    }
  }
}
