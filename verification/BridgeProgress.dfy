/** What the bridge does when it is left to do it: starts, stops, cycles and tracked calls come to
    their end, through every wait on the way. */
module BridgeProgress {
  import opened Wrappers
  import opened BridgeLifecycle

  ghost predicate IsPlay(bs: seq<Bridge>, events: seq<Event>, options: Options) {
    |bs| == |events| + 1 && forall i :: 0 <= i < |events| ==> bs[i + 1] == Step(bs[i], events[i], options)
  }

  // ----- starting -----

  /** What an undisturbed start waits for, in order. */
  function StartWaitsFor(options: Options): seq<StartWait> {
    [HeartbeatTimeout] + (if options.ownership then [ReadMarker, WriteMarker] else []) + [Register] +
    (if options.privateCallback then [PrivateCallback] else []) +
    [RecordRegistration, FirstHeartbeat, RecordHeartbeat, FirstPoll]
  }

  /** The start waits: it has sent the register from that wait on, and runs from the first poll on. */
  predicate StartsAt(b: Bridge, wait: StartWait) {
    && b.active == Start(wait) && !b.startupFailure && b.startupInProgress && b.queue == [] && !b.stopRequested
    && b.state == (if wait == FirstPoll then Running else Starting)
    && b.seen.registerSent == (wait !in {HeartbeatTimeout, ReadMarker, WriteMarker})
    && b.registration == (wait !in {HeartbeatTimeout, ReadMarker, WriteMarker, Register})
    && (wait.Register? ==> b.lifecycle.Unknown?) && (b.registration ==> b.lifecycle.Registered?)
  }

  predicate StartIsOver(b: Bridge) {
    b.state.Running? && b.registration && b.lifecycle.Registered? && b.active.NoTask? && !b.startupInProgress
  }

  /** The k-th of the waits, or the end. */
  predicate StartIsAt(b: Bridge, k: nat, options: Options) {
    var waits := StartWaitsFor(options);
    if k < |waits| then StartsAt(b, waits[k]) else StartIsOver(b)
  }

  /** What follows a wait, if anything. */
  function AfterStartWait(wait: StartWait, options: Options): Option<StartWait> {
    match wait
    case HeartbeatTimeout => Some(if options.ownership then ReadMarker else Register)
    case ReadMarker => Some(WriteMarker)
    case WriteMarker => Some(Register)
    case Register => Some(if options.privateCallback then PrivateCallback else RecordRegistration)
    case PrivateCallback => Some(RecordRegistration)
    case RecordRegistration => Some(FirstHeartbeat)
    case FirstHeartbeat => Some(RecordHeartbeat)
    case RecordHeartbeat => Some(FirstPoll)
    case _ => None
  }

  lemma StartWaitsFollow(k: nat, options: Options)
    requires k < |StartWaitsFor(options)|
    ensures AfterStartWait(StartWaitsFor(options)[k], options) ==
            if k + 1 < |StartWaitsFor(options)| then Some(StartWaitsFor(options)[k + 1]) else None
    ensures StartWaitsFor(options)[k] !in {RecordUnknown, RecordFailure, CloseAfterFailure}
  {
  }

  lemma StartGoesOn(b: Bridge, wait: StartWait, options: Options)
    requires StartsAt(b, wait) && wait !in {RecordUnknown, RecordFailure, CloseAfterFailure}
    ensures var after, next := ResumeStart(b, wait, true, false, options), AfterStartWait(wait, options);
            if next.Some? then StartsAt(after, next.value) else StartIsOver(after)
  {
    hide Grows, SameWork;
    match wait
    case HeartbeatTimeout => {}
    case ReadMarker => {}
    case WriteMarker => {}
    case Register => {}
    case PrivateCallback => {}
    case RecordRegistration => {}
    case FirstHeartbeat => {}
    case RecordHeartbeat => {}
    case FirstPoll => {}
  }

  /** A start of an idle bridge that nothing disturbs passes all its waits and leaves the bridge
      running and registered. */
  lemma {:induction false} AnUndisturbedStartRuns(b: Bridge, k: nat, options: Options)
    requires b.state.Idle? && b.active.NoTask? && b.queue == [] && !b.stopRequested
    requires !b.registration && !b.seen.registerSent && k <= |StartWaitsFor(options)|
    ensures var begun := Step(Step(b, CallStart, options), BeginTask, options);
            StartIsAt(Resumed(begun, k, options), k, options)
  {
    hide Step, StartWaitsFor, StartsAt, StartIsOver;
    var begun := Step(Step(b, CallStart, options), BeginTask, options);
    if k == 0 {
      StartBegins(b, options);
    } else {
      AnUndisturbedStartRuns(b, k - 1, options);
      OneMoreResume(begun, k - 1, options);
      var before, wait := Resumed(begun, k - 1, options), StartWaitsFor(options)[k - 1];
      StartWaitsFollow(k - 1, options);
      StartGoesOn(before, wait, options);
      OneResume(before, options);
      StartResumes(before, wait, options);
    }
  }

  lemma StartResumes(b: Bridge, wait: StartWait, options: Options)
    requires StartsAt(b, wait)
    ensures Step(b, TaskResumes(true, false), options) == ResumeStart(b, wait, true, false, options)
  {
    hide ResumeStart, Grows, SameWork;
  }

  lemma StartBegins(b: Bridge, options: Options)
    requires b.state.Idle? && b.active.NoTask? && b.queue == [] && !b.stopRequested
    requires !b.registration && !b.seen.registerSent
    ensures StartIsAt(Step(Step(b, CallStart, options), BeginTask, options), 0, options)
  {
    assert ([] + [StartTask])[1..] == [];
  }

  /** A start that is refused or finds the bridge failed before it polls is recorded, closes an owned
      client that has no row, and ends failed; if the bridge failed closed meanwhile it stays degraded. */
  lemma AFailedStartEnds(b: Bridge, wait: StartWait, options: Options)
    requires b.active == Start(wait) && wait !in {RecordUnknown, RecordFailure, CloseAfterFailure}
    ensures var failing := Step(b, TaskResumes(false, false), options);
            var unknown := b.state.Degraded? && b.startupFailure;
            var closes := !unknown && options.ownsClient && !b.registration;
            var ended := Resumed(failing, if closes then 2 else 1, options);
            && failing.active == Start(if unknown then RecordUnknown else RecordFailure)
            && failing.state == b.state && (b.registration ==> failing.lifecycle.Unknown?)
            && ended.active.NoTask? && !ended.startupInProgress
            && ended.state == (if unknown then b.state else Failed)
            && ended.seen == b.seen.(clientClosed := b.seen.clientClosed || closes)
            && (closes ==> Resumed(failing, 1, options).active == Start(CloseAfterFailure))
  {
    hide Grows, SameWork, StartWaits, StartRegisters, RegistrationArrives, NowRunning, ResumeStart, StartFails;
    FailsAtOnce(b, wait, options);
    var failing := StartFails(b);
    var unknown := b.state.Degraded? && b.startupFailure;
    Unsure(b);
    var next := Step(failing, TaskResumes(true, false), options);
    OneResume(failing, options);
    if unknown {
      UnknownIsRecorded(failing, options);
    } else {
      FailureIsRecorded(failing, options);
      if options.ownsClient && !b.registration { TwoResumes(failing, 0, options); }
    }
  }

  lemma OneResume(b: Bridge, options: Options)
    ensures Resumed(b, 1, options) == Step(b, TaskResumes(true, false), options)
  {
    hide Step;
    assert Resumed(b, 1, options) == Resumed(Step(b, TaskResumes(true, false), options), 0, options);
  }

  lemma UnknownIsRecorded(b: Bridge, options: Options)
    requires b.active == Start(RecordUnknown)
    ensures Step(b, TaskResumes(true, false), options) == b.(startupInProgress := false, active := NoTask)
  {
  }

  lemma FailureIsRecorded(b: Bridge, options: Options)
    requires b.active == Start(RecordFailure)
    ensures var next := Step(b, TaskResumes(true, false), options);
            if options.ownsClient && !b.registration then
              && next == b.(seen := b.seen.(clientClosed := true), active := Start(CloseAfterFailure))
              && Step(next, TaskResumes(true, false), options) ==
                 next.(state := Failed, startupInProgress := false, active := NoTask)
            else next == b.(state := Failed, startupInProgress := false, active := NoTask)
  {
  }

  lemma Unsure(b: Bridge)
    ensures var failing := StartFails(b);
            && failing.active == Start(if b.state.Degraded? && b.startupFailure then RecordUnknown else RecordFailure)
            && failing == b.(active := failing.active, lifecycle := if b.registration then Unknown else b.lifecycle)
  {
  }

  lemma FailsAtOnce(b: Bridge, wait: StartWait, options: Options)
    requires b.active == Start(wait) && wait !in {RecordUnknown, RecordFailure, CloseAfterFailure}
    ensures Step(b, TaskResumes(false, false), options) == StartFails(b)
  {
    hide Grows, StartFails, RegistrationArrives, NowRunning;
  }

  /** The first poll reads on while there is more, unless the bridge has failed. */
  lemma TheFirstPollReadsOn(b: Bridge, options: Options)
    requires b.active == Start(FirstPoll)
    ensures Step(b, TaskResumes(true, true), options) == b <==> b.state.Running? || b.state.Stopping?
  {
    hide Grows, SameWork;
    if !b.state.Running? && !b.state.Stopping? {
      assert Step(b, TaskResumes(true, true), options).active != b.active;
    }
  }

  /** A start goes on only while it is healthy: a bridge that failed closed meanwhile is not revived. */
  lemma AnUnhealthyStartFails(b: Bridge, wait: StartWait, more: bool, options: Options)
    requires b.active == Start(wait) && wait !in {RecordUnknown, RecordFailure, CloseAfterFailure}
    requires b.startupFailure && b.state.Degraded?
    ensures Step(b, TaskResumes(true, more), options).active == Start(RecordUnknown)
  {
  }

  // ----- stopping -----

  /** What an undisturbed stop of a running bridge waits for, in order. */
  function StopWaitsFor(options: Options): seq<StopWait> {
    [Operations, Unregister] + (if options.closesRuntime then [CloseRuntime(true)] else []) +
    (if options.ownsClient then [CloseClient(true)] else []) +
    (if options.ownership then [RecordStop(true, true)] else [])
  }

  predicate StopsAt(b: Bridge, wait: StopWait, force: bool, options: Options) {
    && b.active == Stop(force, Running, wait) && b.state.Stopping? && b.registration && b.operations == map[]
    && (wait !in {Operations, Unregister} ==> b.lifecycle.Unregistered? && b.seen.acknowledged)
    && (wait.CloseClient? || (options.ownsClient && wait.RecordStop?) ==> b.seen.clientClosed)
  }

  predicate StopIsOver(b: Bridge, options: Options) {
    CleanlyStopped(b) && b.stopSettled && (options.ownsClient ==> b.seen.clientClosed)
  }

  /** The first of the waits from the k-th on, or the end. */
  predicate StopIsAt(b: Bridge, k: nat, force: bool, options: Options) {
    var waits := StopWaitsFor(options);
    if k < |waits| then StopsAt(b, waits[k], force, options) else StopIsOver(b, options)
  }

  /** What follows a wait, if anything. */
  function AfterStopWait(wait: StopWait, options: Options): Option<StopWait> {
    var recorded := if options.ownership then Some(RecordStop(true, true)) else None;
    var closed := if options.ownsClient then Some(CloseClient(true)) else recorded;
    match wait
    case Operations => Some(Unregister)
    case Unregister => if options.closesRuntime then Some(CloseRuntime(true)) else closed
    case CloseRuntime(_) => closed
    case CloseClient(_) => recorded
    case _ => None
  }

  lemma StopWaitsFollow(k: nat, options: Options)
    requires k < |StopWaitsFor(options)|
    ensures AfterStopWait(StopWaitsFor(options)[k], options) ==
            if k + 1 < |StopWaitsFor(options)| then Some(StopWaitsFor(options)[k + 1]) else None
    ensures StopWaitsFor(options)[k] in
              {Operations, Unregister, CloseRuntime(true), CloseClient(true), RecordStop(true, true)}
  {
  }

  predicate Follows(after: Bridge, next: Option<StopWait>, force: bool, options: Options) {
    if next.Some? then StopsAt(after, next.value, force, options) else StopIsOver(after, options)
  }

  lemma JudgedNext(b: Bridge, force: bool, options: Options)
    requires RowGone(b) && b.state.Stopping? && b.operations == map[] && (options.ownsClient ==> b.seen.clientClosed)
    ensures Follows(JudgeStop(b, force, Running, true, options), AfterStopWait(CloseClient(true), options), force,
                    options)
  {
    hide Grows;
    if options.ownership {
      assert JudgeStop(b, force, Running, true, options) == b.(active := Stop(force, Running, RecordStop(true, true)));
    } else {
      assert JudgeStop(b, force, Running, true, options) == b.(state := Stopped, active := NoTask, stopSettled := true);
    }
  }

  lemma ClientNext(b: Bridge, force: bool, options: Options)
    requires RowGone(b) && b.state.Stopping? && b.operations == map[]
    ensures Follows(CloseOwnedClient(b, force, Running, true, options), AfterStopWait(CloseRuntime(true), options),
                    force, options)
  {
    hide JudgeStop, Grows;
    if options.ownsClient {
      assert CloseOwnedClient(b, force, Running, true, options) ==
             b.(seen := b.seen.(clientClosed := true), active := Stop(force, Running, CloseClient(true)));
    } else {
      JudgedNext(b, force, options);
    }
  }

  lemma RuntimeNext(b: Bridge, force: bool, options: Options)
    requires RowGone(b) && b.state.Stopping? && b.operations == map[]
    ensures Follows(CloseOwnedRuntime(b, force, Running, true, options), AfterStopWait(Unregister, options), force,
                    options)
  {
    hide CloseOwnedClient, Grows;
    if options.closesRuntime {
      assert CloseOwnedRuntime(b, force, Running, true, options) ==
             b.(active := Stop(force, Running, CloseRuntime(true)));
    } else {
      ClientNext(b, force, options);
    }
  }

  lemma StopGoesOn(b: Bridge, wait: StopWait, force: bool, options: Options)
    requires StopsAt(b, wait, force, options)
    requires wait in {Operations, Unregister, CloseRuntime(true), CloseClient(true), RecordStop(true, true)}
    ensures Follows(Step(b, TaskResumes(true, false), options), AfterStopWait(wait, options), force, options)
  {
    hide Follows, AfterStopWait, CloseOwnedRuntime, CloseOwnedClient, JudgeStop, Grows;
    match wait
    case Operations => Decided(b, force, options);
    case Unregister => RuntimeNext(AnswerUnregister(b, true), force, options);
    case CloseRuntime(_) => ClientNext(b, force, options);
    case CloseClient(_) => JudgedNext(b, force, options);
    case RecordStop(_, _) => Finished(b, force, options);
  }

  lemma Decided(b: Bridge, force: bool, options: Options)
    requires StopsAt(b, Operations, force, options)
    ensures Follows(ResumeStop(b, force, Running, Operations, true, options), AfterStopWait(Operations, options),
                    force, options)
  {
    hide Grows, CloseOwnedRuntime;
    assert ResumeStop(b, force, Running, Operations, true, options) == SendUnregister(b, force, Running);
  }

  lemma Finished(b: Bridge, force: bool, options: Options)
    requires StopsAt(b, RecordStop(true, true), force, options)
    ensures Follows(ResumeStop(b, force, Running, RecordStop(true, true), true, options),
                    AfterStopWait(RecordStop(true, true), options), force, options)
  {
    hide Grows;
    assert ResumeStop(b, force, Running, RecordStop(true, true), true, options) ==
           b.(state := Stopped, active := NoTask, stopSettled := true);
  }

  /** A stop that nothing disturbs unregisters, closes what the bridge owns, in that order, records it
      and ends stopped. */
  lemma {:induction false} AnUndisturbedStopPassesItsWaits(b: Bridge, k: nat, force: bool, options: Options)
    requires b.state.Running? && b.registration && b.cycle.None? && b.operations == map[]
    requires b.active.NoTask? && b.queue == [] && !b.stopPromise && k <= |StopWaitsFor(options)|
    ensures var begun := Step(Step(b, CallStop(force), options), BeginTask, options);
            StopIsAt(Resumed(begun, k, options), k, force, options)
  {
    hide Step, StopWaitsFor, StopsAt, StopIsOver;
    var begun := Step(Step(b, CallStop(force), options), BeginTask, options);
    if k == 0 {
      StopBegins(b, force, options);
    } else {
      AnUndisturbedStopPassesItsWaits(b, k - 1, force, options);
      OneMoreResume(begun, k - 1, options);
      var before := Resumed(begun, k - 1, options);
      StopWaitsFollow(k - 1, options);
      StopGoesOn(before, StopWaitsFor(options)[k - 1], force, options);
      OneResume(before, options);
    }
  }

  lemma StopBegins(b: Bridge, force: bool, options: Options)
    requires b.state.Running? && b.registration && b.cycle.None? && b.operations == map[]
    requires b.active.NoTask? && b.queue == [] && !b.stopPromise
    ensures StopIsAt(Step(Step(b, CallStop(force), options), BeginTask, options), 0, force, options)
  {
    assert ([] + [StopTask(force)])[1..] == [];
  }

  /** A row may be released by the bridge itself if it ran or was starting and has not failed, or if it is
      told to regardless. */
  predicate Releases(b: Bridge, force: bool) { b.registration && (force || b.state.Running? || b.state.Starting?) }

  /** No row is left: none was asked for, or it is gone. */
  predicate NoRow(b: Bridge) {
    if b.registration then b.lifecycle.Unregistered? else b.lifecycle in {NotAttempted, Unregistered}
  }

  /** An owned client is closed. */
  predicate Closes(registration: bool, lifecycle: BrokerLifecycle, options: Options) {
    options.ownsClient && (lifecycle.Unregistered? || !registration)
  }

  /** The stop has ended, with what was known of the row when its closing began. */
  predicate EndsAs(registration: bool, lifecycle: BrokerLifecycle, seen: Seen, after: Bridge, stopped: bool,
                   options: Options) {
    && after.active.NoTask? && after.stopSettled && after.state == (if stopped then Stopped else Degraded)
    && after.registration == registration && after.lifecycle == lifecycle
    && after.seen == seen.(clientClosed := seen.clientClosed || Closes(registration, lifecycle, options))
  }

  lemma ResumedFirst(b: Bridge, n: nat, options: Options)
    ensures Resumed(b, n + 1, options) == Resumed(Step(b, TaskResumes(true, false), options), n, options)
  {
  }

  lemma JudgedEnds(b: Bridge, force: bool, before: BridgeState, clean: bool, options: Options)
    requires Closes(b.registration, b.lifecycle, options) ==> b.seen.clientClosed
    ensures EndsAs(b.registration, b.lifecycle, b.seen,
                   Resumed(JudgeStop(b, force, before, clean, options), if options.ownership then 1 else 0, options),
                   clean && NoRow(b), options)
  {
    hide Grows, SameWork;
    if options.ownership { OneResume(JudgeStop(b, force, before, clean, options), options); }
  }

  lemma ClientCloses(b: Bridge, force: bool, before: BridgeState, clean: bool, options: Options)
    ensures var closed := b.(seen := b.seen.(clientClosed := true), active := Stop(force, before, CloseClient(clean)));
            if Closes(b.registration, b.lifecycle, options) then
              && CloseOwnedClient(b, force, before, clean, options) == closed
              && Step(closed, TaskResumes(true, false), options) == JudgeStop(closed, force, before, clean, options)
            else CloseOwnedClient(b, force, before, clean, options) == JudgeStop(b, force, before, clean, options)
  {
    hide Grows, SameWork, JudgeStop;
  }

  lemma ClientEnds(b: Bridge, force: bool, before: BridgeState, clean: bool, options: Options) returns (n: nat)
    ensures n <= 2
    ensures EndsAs(b.registration, b.lifecycle, b.seen,
                   Resumed(CloseOwnedClient(b, force, before, clean, options), n, options), clean && NoRow(b), options)
  {
    hide Grows, SameWork, JudgeStop, CloseOwnedClient, Step, Resumed;
    ClientCloses(b, force, before, clean, options);
    n := if options.ownership then 1 else 0;
    if Closes(b.registration, b.lifecycle, options) {
      var closed := b.(seen := b.seen.(clientClosed := true), active := Stop(force, before, CloseClient(clean)));
      JudgedEnds(closed, force, before, clean, options);
      ResumedFirst(closed, n, options);
      n := n + 1;
    } else {
      JudgedEnds(b, force, before, clean, options);
    }
  }

  lemma RuntimeCloses(b: Bridge, force: bool, before: BridgeState, clean: bool, options: Options)
    ensures var closed := b.(active := Stop(force, before, CloseRuntime(clean)));
            if options.closesRuntime then
              && CloseOwnedRuntime(b, force, before, clean, options) == closed
              && Step(closed, TaskResumes(true, false), options) ==
                 CloseOwnedClient(closed, force, before, clean, options)
            else CloseOwnedRuntime(b, force, before, clean, options) ==
                 CloseOwnedClient(b, force, before, clean, options)
  {
    hide Grows, SameWork, CloseOwnedClient;
  }

  lemma RuntimeEnds(b: Bridge, force: bool, before: BridgeState, clean: bool, options: Options) returns (n: nat)
    ensures n <= 3
    ensures EndsAs(b.registration, b.lifecycle, b.seen,
                   Resumed(CloseOwnedRuntime(b, force, before, clean, options), n, options), clean && NoRow(b), options)
  {
    hide Grows, SameWork, CloseOwnedRuntime, CloseOwnedClient, Step, Resumed, EndsAs;
    RuntimeCloses(b, force, before, clean, options);
    if options.closesRuntime {
      var closed := b.(active := Stop(force, before, CloseRuntime(clean)));
      n := ClientEnds(closed, force, before, clean, options);
      ResumedFirst(closed, n, options);
      n := n + 1;
    } else {
      n := ClientEnds(b, force, before, clean, options);
    }
  }

  /** A stop with nothing outstanding has begun. */
  function Begun(b: Bridge, force: bool): Bridge {
    b.(stopRequested := true, stopPromise := true, active := Stop(force, b.state, Operations),
       state := if b.state.Idle? || b.state.Failed? then b.state else Stopping)
  }

  lemma StopBeginsAnywhere(b: Bridge, force: bool, options: Options)
    requires b.cycle.None? && b.active.NoTask? && b.queue == [] && !b.stopPromise && !b.state.Stopped?
    ensures Step(Step(b, CallStop(force), options), BeginTask, options) == Begun(b, force)
  {
    hide Grows, SameWork;
    assert ([] + [StopTask(force)])[1..] == [];
  }

  lemma StopIsDecided(b: Bridge, force: bool, options: Options)
    requires b.operations == map[] && !b.state.Stopped?
    ensures var begun := Begun(b, force);
            var decided := Step(begun, TaskResumes(true, false), options);
            if Releases(b, force) then
              && decided == SendUnregister(begun, force, b.state)
              && Step(decided, TaskResumes(true, false), options) ==
                 CloseOwnedRuntime(AnswerUnregister(decided, true), force, b.state, true, options)
            else decided ==
                 CloseOwnedRuntime(begun, force, b.state, !b.registration || b.lifecycle.Unregistered?, options)
  {
    hide Grows, SameWork, CloseOwnedRuntime;
  }

  /** A stop in any state, with nothing outstanding and nothing going wrong, comes to its end. It ends
      stopped exactly if it releases the row, or there is none; an owned client is closed just then. */
  lemma EveryUndisturbedStopEnds(b: Bridge, force: bool, options: Options) returns (n: nat)
    requires b.cycle.None? && b.operations == map[] && b.active.NoTask? && b.queue == [] && !b.stopPromise
    requires !b.state.Stopped?
    ensures n <= 5
    ensures var begun := Step(Step(b, CallStop(force), options), BeginTask, options);
            var after := Resumed(begun, n, options);
            && after.active.NoTask? && after.stopSettled
            && after.state == (if Releases(b, force) || NoRow(b) then Stopped else Degraded)
            && after.lifecycle == (if Releases(b, force) then Unregistered else b.lifecycle)
            && after.seen.unregistersSent == b.seen.unregistersSent + (if Releases(b, force) then 1 else 0)
            && after.seen.acknowledged == (b.seen.acknowledged || Releases(b, force))
            && (after.seen.clientClosed <==>
                b.seen.clientClosed || Closes(b.registration, after.lifecycle, options))
  {
    hide Grows, SameWork, CloseOwnedRuntime, Step, Resumed;
    StopBeginsAnywhere(b, force, options);
    StopIsDecided(b, force, options);
    var begun := Begun(b, force);
    if Releases(b, force) {
      var decided := SendUnregister(begun, force, b.state);
      n := RuntimeEnds(AnswerUnregister(decided, true), force, b.state, true, options);
      ResumedFirst(decided, n, options);
      ResumedFirst(begun, n + 1, options);
      n := n + 2;
    } else {
      n := RuntimeEnds(begun, force, b.state, !b.registration || b.lifecycle.Unregistered?, options);
      ResumedFirst(begun, n, options);
      n := n + 1;
    }
  }

  /** An unregister that is not acknowledged leaves the row unknown and the bridge degraded, with its
      client open. */
  lemma AFailedUnregisterEndsDegraded(b: Bridge, force: bool, before: BridgeState, options: Options) returns (n: nat)
    requires b.active == Stop(force, before, Unregister) && b.registration
    ensures n <= 3
    ensures var after := Resumed(Step(b, TaskResumes(false, false), options), n, options);
            && after.active.NoTask? && after.stopSettled && after.state.Degraded? && after.lifecycle.Unknown?
            && after.registration && after.seen == b.seen
  {
    hide Grows, SameWork, CloseOwnedRuntime, Resumed;
    var answered := AnswerUnregister(b, false);
    assert Step(b, TaskResumes(false, false), options) == CloseOwnedRuntime(answered, force, before, false, options);
    n := RuntimeEnds(answered, force, before, false, options);
  }

  /** A stop waits for the cycle under way, and then for the tracked calls. */
  lemma AStopWaitsForWork(b: Bridge, ok: bool, more: bool, force: bool, before: BridgeState, options: Options)
    ensures b.active == Stop(force, before, Cycle) ==>
              Step(b, TaskResumes(ok, more), options) ==
              if b.cycle.Some? then b else b.(active := Stop(force, before, Operations))
    ensures b.active == Stop(force, before, Operations) ==>
              (Step(b, TaskResumes(ok, more), options) == b <==> b.operations != map[])
  {
  }

  // ----- cycles -----

  /** A cycle of a running bridge that nothing stops or fails reads the inbox, after the heartbeat if
      one is due, and ends with the bridge as it was. */
  lemma AnUndisturbedCyclePolls(b: Bridge, due: bool, polls: nat, options: Options)
    requires b.state.Running? && b.registration && b.cycle.None?
    ensures var begun := Step(b, CallCycle(due), options);
            var known := if due then b.(lifecycle := Registered) else b;
            var polling := if due then Cycled(begun, 2, false, options) else begun;
            && begun.cycle == Some(if due then CycleHeartbeat else CyclePoll)
            && (due ==> Cycled(begun, 1, false, options).cycle == Some(CycleRecord))
            && polling == known.(cycle := Some(CyclePoll))
            && Cycled(polling, polls, true, options) == polling
            && Step(polling, CycleResumes(true, false), options) == known
  {
    var begun := Step(b, CallCycle(due), options);
    var polling := if due then Cycled(begun, 2, false, options) else begun;
    if due {
      assert Cycled(begun, 1, false, options) == Step(begun, CycleResumes(true, false), options);
      assert polling == Cycled(Step(begun, CycleResumes(true, false), options), 1, false, options);
    }
    PollsGoOn(polling, polls, options);
  }

  /** The bridge after the cycle's wait has ended well `n` times. */
  function Cycled(b: Bridge, n: nat, more: bool, options: Options): Bridge
    decreases n
  {
    if n == 0 then b else Cycled(Step(b, CycleResumes(true, more), options), n - 1, more, options)
  }

  lemma {:induction false} PollsGoOn(b: Bridge, polls: nat, options: Options)
    requires b.state.Running? && b.cycle == Some(CyclePoll)
    ensures Cycled(b, polls, true, options) == b
    decreases polls
  {
    if polls > 0 { PollsGoOn(b, polls - 1, options); }
  }

  /** The inbox is read after the heartbeat is recorded, and last. */
  function NextCycleWait(wait: CycleWait): Option<CycleWait> {
    match wait
    case CycleHeartbeat => Some(CycleRecord)
    case CycleRecord => Some(CyclePoll)
    case _ => None
  }

  /** Whatever else happens, as long as the bridge stays running the cycle moves only by its own waits,
      one at a time, and a call in between joins it. */
  lemma CyclesMoveByTheirWaits(b: Bridge, event: Event, options: Options)
    requires b.state.Running? && Step(b, event, options).state.Running? && b.cycle.Some?
             && b.cycle != Some(CycleFailing)
    ensures var after := Step(b, event, options);
            if !event.CycleResumes? then after.cycle == b.cycle
            else if b.cycle == Some(CyclePoll) && event.more then after.cycle == b.cycle
            else after.cycle == NextCycleWait(b.cycle.value)
    ensures event.CycleResumes? ==> event.ok
  {
    hide ResumeStart, ResumeStop, ResumeOperation, BeginOperation, BeginStart, BeginStop, Enqueue, RequestStop, Grows;
    match event
    case RuntimeExits => {}
    case CallCycle(_) => {}
    case CycleResumes(ok, more) => OneWaitOfACycle(b, b.cycle.value, ok, more);
    case CallOperation(_, _) => {}
    case OperationResumes(_, _) => {}
    case _ => TasksKeepWork(b, event, options);
  }

  lemma OneWaitOfACycle(b: Bridge, wait: CycleWait, ok: bool, more: bool)
    requires b.state.Running? && b.cycle == Some(wait) && wait != CycleFailing
    ensures var after := ResumeCycle(b, wait, ok, more);
            if !ok then after.state.Degraded?
            else if wait == CyclePoll && more then after == b
            else after.state.Running? && after.cycle == NextCycleWait(wait)
  {
    hide Grows;
  }

  lemma TasksKeepWork(b: Bridge, event: Event, options: Options)
    requires event.TaskResumes? || event.BeginTask? || event.CallStart? || event.CallStop? || event.ForcedStopAgain?
    ensures SameWork(b, Step(b, event, options))
  {
    hide ResumeStart, ResumeStop, BeginStart, BeginStop, Grows;
  }

  /** A cycle that ends while the bridge has been running all along has read the inbox. */
  lemma {:induction false} ACycleEndsAfterAPoll(bs: seq<Bridge>, events: seq<Event>, options: Options, i: nat, j: nat)
    requires IsPlay(bs, events, options) && i < j < |events|
    requires forall k :: i <= k <= j + 1 ==> bs[k].state.Running?
    requires bs[i].cycle.None? && (forall k :: i < k <= j ==> bs[k].cycle.Some?) && bs[j + 1].cycle.None?
    ensures bs[j].cycle == Some(CyclePoll) && events[j] == CycleResumes(true, false)
  {
    hide Step;
    NoCycleFails(bs, events, options, i, j);
    CyclesMoveByTheirWaits(bs[j], events[j], options);
  }

  lemma {:induction false} NoCycleFails(bs: seq<Bridge>, events: seq<Event>, options: Options, i: nat, j: nat)
    requires IsPlay(bs, events, options) && i < j < |events|
    requires forall k :: i <= k <= j + 1 ==> bs[k].state.Running?
    requires bs[i].cycle.None? && forall k :: i < k <= j ==> bs[k].cycle.Some?
    ensures bs[j].cycle != Some(CycleFailing)
    decreases j
  {
    hide Step;
    if i + 1 < j {
      assert bs[j] == Step(bs[j - 1], events[j - 1], options);
      NoCycleFails(bs, events, options, i, j - 1);
      CyclesMoveByTheirWaits(bs[j - 1], events[j - 1], options);
    } else {
      assert bs[j] == Step(bs[i], events[i], options);
      CyclesBeginWell(bs[i], events[i], options);
    }
  }

  lemma CyclesBeginWell(b: Bridge, event: Event, options: Options)
    requires b.cycle.None? && Step(b, event, options).cycle.Some?
    ensures event.CallCycle?
    ensures Step(b, event, options).cycle == Some(if event.heartbeatDue then CycleHeartbeat else CyclePoll)
  {
    hide ResumeStart, ResumeStop, ResumeOperation, BeginOperation, BeginStart, BeginStop, Enqueue, RequestStop, Grows;
    match event
    case RuntimeExits => {}
    case CallCycle(_) => {}
    case CycleResumes(_, _) => {}
    case CallOperation(_, _) => {}
    case OperationResumes(_, _) => {}
    case _ => TasksKeepWork(b, event, options);
  }

  // ----- tracked calls -----

  /** A call of a running, registered bridge that is not asked to stop, and that nothing disturbs, sends
      its heartbeat, records it, reaches the broker and ends with the bridge as it was. */
  lemma AnUndisturbedCallReachesTheBroker(b: Bridge, id: nat, options: Options)
    requires b.state.Running? && b.registration && !b.stopRequested && id !in b.operations
    ensures var begun := Step(b, CallOperation(id, true), options);
            var known := b.(lifecycle := Registered);
            && begun == b.(operations := b.operations[id := CallHeartbeat(true)])
            && Called(begun, id, 1, options) == known.(operations := b.operations[id := CallRecord(true)])
            && Called(begun, id, 2, options) == known.(operations := b.operations[id := CallBroker])
            && Called(begun, id, 3, options) == known
  {
    var begun := Step(b, CallOperation(id, true), options);
    var first := Step(begun, OperationResumes(id, true), options);
    var second := Step(first, OperationResumes(id, true), options);
    var third := Step(second, OperationResumes(id, true), options);
    assert Called(begun, id, 1, options) == first;
    assert Called(begun, id, 2, options) == Called(first, id, 1, options) == second;
    assert Called(begun, id, 3, options) == Called(first, id, 2, options) == Called(second, id, 1, options) == third;
    assert third.operations == b.operations;
  }

  function Called(b: Bridge, id: nat, n: nat, options: Options): Bridge
    decreases n
  {
    if n == 0 then b else Called(Step(b, OperationResumes(id, true), options), id, n - 1, options)
  }

  /** The call is on its way to the broker. */
  predicate OnItsWay(b: Bridge, id: nat) {
    id in b.operations && b.operations[id] in {CallHeartbeat(true), CallRecord(true), CallBroker}
  }

  /** Whatever else happens, as long as the bridge stays running the call moves only by its own waits. */
  lemma CallsMoveByTheirWaits(b: Bridge, event: Event, options: Options, id: nat)
    requires b.state.Running? && Step(b, event, options).state.Running? && OnItsWay(b, id)
    ensures var after := Step(b, event, options);
            if !(event.OperationResumes? && event.id == id) then
              id in after.operations && after.operations[id] == b.operations[id]
            else
              match b.operations[id]
              case CallHeartbeat(_) => id in after.operations && after.operations[id] == CallRecord(true)
              case CallRecord(_) => id in after.operations && after.operations[id] == CallBroker
              case _ => id !in after.operations
  {
    hide ResumeStart, ResumeStop, ResumeCycle, ResumeOperation, BeginStart, BeginStop, Enqueue, RequestStop, Grows;
    match event
    case RuntimeExits => {}
    case CallCycle(_) => {}
    case CycleResumes(ok, more) => {}
    case CallOperation(other, more) => {}
    case OperationResumes(other, ok) =>
      if other in b.operations { OneWaitOfACall(b, id, other, b.operations[other], ok); }
    case _ => TasksKeepWork(b, event, options);
  }

  lemma OneWaitOfACall(b: Bridge, id: nat, other: nat, wait: OperationWait, ok: bool)
    requires b.state.Running? && OnItsWay(b, id) && other in b.operations && b.operations[other] == wait
    requires ResumeOperation(b, other, wait, ok).state.Running?
    ensures var after := ResumeOperation(b, other, wait, ok);
            if other != id then id in after.operations && after.operations[id] == b.operations[id]
            else
              match wait
              case CallHeartbeat(_) => id in after.operations && after.operations[id] == CallRecord(true)
              case CallRecord(_) => id in after.operations && after.operations[id] == CallBroker
              case _ => id !in after.operations
  {
    hide Grows;
  }

  /** A call that leaves while the bridge has been running all along leaves after its broker call. */
  lemma {:induction false} ACallEndsAtTheBroker(bs: seq<Bridge>, events: seq<Event>, options: Options, id: nat,
                                               i: nat, j: nat)
    requires IsPlay(bs, events, options) && i < j < |events|
    requires forall k :: i <= k <= j + 1 ==> bs[k].state.Running?
    requires events[i] == CallOperation(id, true) && id !in bs[i].operations
    requires (forall k :: i < k <= j ==> id in bs[k].operations) && id !in bs[j + 1].operations
    ensures bs[j].operations[id] == CallBroker
  {
    hide Step;
    StaysOnItsWay(bs, events, options, id, i, j);
    CallsMoveByTheirWaits(bs[j], events[j], options, id);
  }

  lemma {:induction false} StaysOnItsWay(bs: seq<Bridge>, events: seq<Event>, options: Options, id: nat, i: nat, j: nat)
    requires IsPlay(bs, events, options) && i < j < |events|
    requires forall k :: i <= k <= j + 1 ==> bs[k].state.Running?
    requires events[i] == CallOperation(id, true) && id !in bs[i].operations
    requires forall k :: i < k <= j ==> id in bs[k].operations
    ensures OnItsWay(bs[j], id)
    decreases j
  {
    hide Step;
    if i + 1 < j {
      assert bs[j] == Step(bs[j - 1], events[j - 1], options);
      StaysOnItsWay(bs, events, options, id, i, j - 1);
      CallsMoveByTheirWaits(bs[j - 1], events[j - 1], options, id);
    } else {
      assert bs[j] == Step(bs[i], events[i], options);
      CallBegins(bs[i], id, options);
    }
  }

  lemma CallBegins(b: Bridge, id: nat, options: Options)
    requires id !in b.operations && id in Step(b, CallOperation(id, true), options).operations
    ensures OnItsWay(Step(b, CallOperation(id, true), options), id)
  {
  }

  /** Work that is under way when a stop begins is let finish: a cycle records its heartbeat and reads on
      in its inbox, but does not begin to, and a call goes on to the broker. */
  lemma AStopLetsWorkFinish(b: Bridge, more: bool, id: nat, options: Options)
    requires b.state.Stopping?
    ensures b.cycle.Some? ==>
              var after := Step(b, CycleResumes(true, more), options);
              && after.state.Stopping? && after.seen == b.seen
              && after.cycle == match b.cycle.value
                                case CycleHeartbeat => Some(CycleRecord)
                                case CyclePoll => if more then Some(CyclePoll) else None
                                case _ => None
    ensures OnItsWay(b, id) ==>
              var after := Step(b, OperationResumes(id, true), options);
              && after.state.Stopping? && after.seen == b.seen
              && match b.operations[id]
                 case CallHeartbeat(_) => after.operations == b.operations[id := CallRecord(true)]
                 case CallRecord(_) => after.operations == b.operations[id := CallBroker]
                 case _ => after.operations == b.operations - {id}
  {
    hide Grows;
    if b.cycle.Some? { CycleFinishes(b, b.cycle.value, more); }
    if OnItsWay(b, id) { CallFinishes(b, id, b.operations[id]); }
  }

  lemma CycleFinishes(b: Bridge, wait: CycleWait, more: bool)
    requires b.state.Stopping? && b.cycle == Some(wait)
    ensures var after := ResumeCycle(b, wait, true, more);
            && after.state.Stopping? && after.seen == b.seen
            && after.cycle == match wait
                              case CycleHeartbeat => Some(CycleRecord)
                              case CyclePoll => if more then Some(CyclePoll) else None
                              case _ => None
  {
    hide Grows;
  }

  lemma CallFinishes(b: Bridge, id: nat, wait: OperationWait)
    requires b.state.Stopping? && wait in {CallHeartbeat(true), CallRecord(true), CallBroker}
    ensures var after := ResumeOperation(b, id, wait, true);
            && after.state.Stopping? && after.seen == b.seen
            && match wait
               case CallHeartbeat(_) => after.operations == b.operations[id := CallRecord(true)]
               case CallRecord(_) => after.operations == b.operations[id := CallBroker]
               case _ => after.operations == b.operations - {id}
  {
    hide Grows;
  }

  // ----- what is let in, and what fails closed -----

  /** Calls from outside change the bridge only when they are let in. */
  lemma CallsAreLetIn(b: Bridge, options: Options, due: bool, id: nat, more: bool)
    requires b.state.Running? ==> b.registration
    ensures Step(b, CallCycle(due), options) != b <==> b.state.Running? && b.cycle.None?
    ensures Step(b, CallOperation(id, more), options) != b <==>
            && !b.stopRequested && id !in b.operations
            && (b.state.Running? || (b.state.Starting? && !more))
  {
  }

  lemma RequestsAreLetIn(b: Bridge, options: Options, force: bool)
    ensures Step(b, CallStop(force), options) ==
            if b.stopPromise then b
            else b.(stopRequested := true, stopPromise := true, queue := b.queue + [StopTask(force)])
    ensures Step(b, ForcedStopAgain, options) ==
            if b.stopSettled && b.registration && b.lifecycle != Unregistered
            then b.(stopRequested := true, stopPromise := true, queue := b.queue + [StopTask(true)]) else b
    ensures Step(b, RuntimeExits, options) != b <==> !b.state.Stopped? && !b.state.Failed?
  {
  }

  /** A running bridge fails closed on whatever fails, an exit of the runtime, a cycle or a call, and a
      starting one on what may happen to it; what failed ends once that is recorded. */
  lemma FailuresCloseTheBridge(b: Bridge, event: Event, options: Options)
    requires b.state.Running? || (b.state.Starting? && !event.CycleResumes?)
    requires event.RuntimeExits?
             || (event.CycleResumes? && !event.ok && b.cycle.Some? && b.cycle != Some(CycleFailing))
             || (event.OperationResumes? && !event.ok && event.id in b.operations
                 && !b.operations[event.id].CallFailing?)
    ensures var after := Step(b, event, options);
            && after.state.Degraded? && after.lifecycle.Unknown? && after.seen.failures == b.seen.failures + 1
            && after.startupFailure == (b.startupFailure || b.startupInProgress)
            && (event.CycleResumes? ==>
                  after.cycle == Some(CycleFailing)
                  && forall ok, more :: Step(after, CycleResumes(ok, more), options) == after.(cycle := None))
            && (event.OperationResumes? ==>
                  after.operations == b.operations[event.id := CallFailing]
                  && forall ok :: Step(after, OperationResumes(event.id, ok), options) ==
                                  after.(operations := after.operations - {event.id}))
  {
    hide Grows, SameWork;
    match event
    case RuntimeExits => {}
    case CycleResumes(_, _) => FailedCycle(b, b.cycle.value);
    case OperationResumes(id, _) => FailedCall(b, id, b.operations[id]);
  }

  lemma FailedCycle(b: Bridge, wait: CycleWait)
    requires wait != CycleFailing
    ensures ResumeCycle(b, wait, false, false) == ResumeCycle(b, wait, false, true) == CycleFails(b)
  {
  }

  lemma FailedCall(b: Bridge, id: nat, wait: OperationWait)
    requires (b.state.Running? || b.state.Starting?) && !wait.CallFailing?
    ensures ResumeOperation(b, id, wait, false) == FailClosed(b).(operations := b.operations[id := CallFailing])
  {
  }

  /** What the broker answers after the bridge has failed closed or ended is not taken over: a cycle
      fails again, a call ends, and the row stays unknown. */
  lemma LateResultsAreRefused(b: Bridge, ok: bool, more: bool, options: Options)
    requires b.state.Degraded? || b.state.Failed? || b.state.Stopped? || b.state.Idle?
    ensures b.cycle == Some(CycleHeartbeat) || b.cycle == Some(CycleRecord) ==>
              Step(b, CycleResumes(ok, more), options) ==
              b.(cycle := Some(CycleFailing), lifecycle := Unknown, state := Degraded,
                 startupFailure := b.startupFailure || b.startupInProgress,
                 seen := b.seen.(failures := b.seen.failures + 1))
  {
    hide Grows, SameWork, ResumeCycle, ResumeOperation;
    if b.cycle.Some? { LateCycle(b, b.cycle.value, ok, more); }
  }

  lemma LateCallsEnd(b: Bridge, ok: bool, id: nat, options: Options)
    requires b.state.Degraded? || b.state.Failed? || b.state.Stopped? || b.state.Idle?
    requires id in b.operations
    ensures Step(b, OperationResumes(id, ok), options) == b.(operations := b.operations - {id})
  {
    hide Grows, SameWork, ResumeCycle, ResumeOperation;
    LateCall(b, id, b.operations[id], ok);
  }

  lemma LateCycle(b: Bridge, wait: CycleWait, ok: bool, more: bool)
    requires b.state.Degraded? || b.state.Failed? || b.state.Stopped? || b.state.Idle?
    ensures wait == CycleHeartbeat || wait == CycleRecord ==> ResumeCycle(b, wait, ok, more) == CycleFails(b)
  {
  }

  lemma LateCall(b: Bridge, id: nat, wait: OperationWait, ok: bool)
    requires b.state.Degraded? || b.state.Failed? || b.state.Stopped? || b.state.Idle?
    ensures ResumeOperation(b, id, wait, ok) == b.(operations := b.operations - {id})
  {
  }

  /** A heartbeat on demand ends once it is recorded; without a registration it fails closed. */
  lemma AHeartbeatOnDemandEnds(b: Bridge, id: nat, options: Options)
    requires b.state.Running? || b.state.Starting?
    requires !b.stopRequested && id !in b.operations
    ensures var begun := Step(b, CallOperation(id, false), options);
            if b.registration then
              && begun == b.(operations := b.operations[id := CallHeartbeat(false)])
              && Called(begun, id, 1, options) ==
                 b.(lifecycle := Registered, operations := b.operations[id := CallRecord(false)])
              && Called(begun, id, 2, options) == b.(lifecycle := Registered)
            else
              && begun == b.(operations := b.operations[id := CallUnregistered])
              && Step(begun, OperationResumes(id, true), options).state.Degraded?
  {
    var begun := Step(b, CallOperation(id, false), options);
    var first := Step(begun, OperationResumes(id, true), options);
    if b.registration {
      var second := Step(first, OperationResumes(id, true), options);
      assert Called(begun, id, 1, options) == first;
      assert Called(begun, id, 2, options) == Called(first, id, 1, options) == second;
      assert second.operations == b.operations;
    }
  }
}
