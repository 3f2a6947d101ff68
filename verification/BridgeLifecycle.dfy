/** The bridge supervisor's lifecycle (packages/bridge/src/supervisor.ts) as a state machine.
    Every await is a step boundary: a task, a cycle or a tracked call runs to its next await,
    and in between anything else may run. */
module BridgeLifecycle {
  import opened Wrappers

  datatype BridgeState = Idle | Starting | Running | Stopping | Stopped | Degraded | Failed

  datatype BrokerLifecycle = NotAttempted | Unknown | Registered | Unregistered

  /** What performStart waits for. */
  datatype StartWait =
    | HeartbeatTimeout | ReadMarker | WriteMarker | Register | PrivateCallback | RecordRegistration
    | FirstHeartbeat | RecordHeartbeat | FirstPoll
    | RecordUnknown | RecordFailure | CloseAfterFailure

  /** What performStop waits for, with the values it has computed by then. */
  datatype StopWait =
    | Cycle | Operations | Unregister | CloseRuntime(clean: bool) | CloseClient(clean: bool)
    | RecordStop(clean: bool, brokerClean: bool)

  /** Lifecycle operations run one at a time, in the order they were asked for. */
  datatype Task = StartTask | StopTask(force: bool)
  datatype Active = NoTask | Start(startWait: StartWait) | Stop(force: bool, before: BridgeState, stopWait: StopWait)

  datatype CycleWait = CycleHeartbeat | CycleRecord | CyclePoll | CycleFailing

  /** A tracked call: `more` if a broker call follows its heartbeat. Without a registration its
      heartbeat is refused, which it learns at its next continuation. */
  datatype OperationWait =
    | CallUnregistered
    | CallHeartbeat(more: bool)
    | CallRecord(more: bool)
    | CallBroker
    | CallFailing

  datatype Options = Options(ownership: bool, ownsClient: bool, privateCallback: bool, closesRuntime: bool)

  /** What the broker and the client have seen, for the record. */
  datatype Seen = Seen(registerSent: bool, unregistersSent: nat, acknowledged: bool, failures: nat, clientClosed: bool)
  {
    /** The bridge has failed closed at least once. */
    predicate FailedClosed() { failures > 0 }
  }

  datatype Bridge = Bridge(
    state: BridgeState, lifecycle: BrokerLifecycle, registration: bool, stopRequested: bool,
    startupInProgress: bool, startupFailure: bool, cycle: Option<CycleWait>, operations: map<nat, OperationWait>,
    queue: seq<Task>, active: Active, stopPromise: bool, stopSettled: bool, seen: Seen)

  const NEW := Bridge(Idle, NotAttempted, false, false, false, false, None, map[], [], NoTask, false, false,
                      Seen(false, 0, false, 0, false))

  /** What has been seen is not forgotten. */
  predicate Grows(seen: Seen, later: Seen) {
    && (seen.registerSent ==> later.registerSent) && seen.unregistersSent <= later.unregistersSent
    && (seen.acknowledged ==> later.acknowledged) && seen.failures <= later.failures
    && (seen.clientClosed ==> later.clientClosed)
  }

  /** Cycle and tracked calls are left alone. */
  predicate SameWork(b: Bridge, after: Bridge) { after.cycle == b.cycle && after.operations == b.operations }

  // ----- pieces shared by the operations -----

  function FailClosed(b: Bridge): (r: Bridge)
    ensures r.seen == b.seen.(failures := b.seen.failures + 1)
    ensures SameWork(b, r)
  {
    b.(startupFailure := b.startupFailure || b.startupInProgress, lifecycle := Unknown, state := Degraded,
       seen := b.seen.(failures := b.seen.failures + 1))
  }

  /** ensureBrokerResultApplicable does not throw. */
  predicate Applicable(state: BridgeState) { state.Starting? || state.Running? || state.Stopping? }

  predicate CanContinueCycle(state: BridgeState) { state.Running? || state.Stopping? }

  /** ensureStartupHealthy does not throw. */
  predicate Healthy(startupFailure: bool, state: BridgeState) { !startupFailure && (state.Starting? || state.Running?) }

  // ----- start -----

  function StartEnds(b: Bridge): (r: Bridge)
    ensures r.seen == b.seen
    ensures SameWork(b, r)
  {
    b.(startupInProgress := false, active := NoTask)
  }

  /** performStart's catch, up to its first await. */
  function StartFails(b: Bridge): (r: Bridge)
    ensures r.seen == b.seen
    ensures SameWork(b, r)
  {
    var unsure := if b.registration then b.(lifecycle := Unknown) else b;
    unsure.(active := Start(if b.state.Degraded? && b.startupFailure then RecordUnknown else RecordFailure))
  }

  function BeginStart(b: Bridge): (r: Bridge)
    ensures r.seen == b.seen
    ensures SameWork(b, r)
  {
    if !b.state.Idle? then b.(active := NoTask)
    else b.(startupInProgress := true, startupFailure := false, state := Starting, active := Start(HeartbeatTimeout))
  }

  function SendRegister(b: Bridge): (r: Bridge)
    ensures r.seen == b.seen.(registerSent := true)
    ensures SameWork(b, r)
  {
    b.(lifecycle := Unknown, seen := b.seen.(registerSent := true), active := Start(Register))
  }

  function RegistrationArrives(b: Bridge, options: Options): (r: Bridge)
    ensures r.seen == b.seen
    ensures SameWork(b, r)
  {
    var known := b.(registration := true, lifecycle := Registered);
    if !Healthy(known.startupFailure, known.state) then StartFails(known)
    else known.(active := Start(if options.privateCallback then PrivateCallback else RecordRegistration))
  }

  /** An owned client is kept if a registration was obtained: a forced stop may need it. */
  function AfterFailure(b: Bridge, options: Options): (r: Bridge)
    ensures Grows(b.seen, r.seen) && r.seen.unregistersSent == b.seen.unregistersSent
    ensures SameWork(b, r)
  {
    if options.ownsClient && !b.registration
    then b.(seen := b.seen.(clientClosed := true), active := Start(CloseAfterFailure))
    else StartEnds(b.(state := Failed))
  }

  /** ensureStartupHealthy, then on to the next wait. */
  function StartWaits(b: Bridge, ok: bool, next: StartWait): (r: Bridge)
    ensures r.seen == b.seen
    ensures SameWork(b, r)
  {
    if !ok || !Healthy(b.startupFailure, b.state) then StartFails(b) else b.(active := Start(next))
  }

  function StartRegisters(b: Bridge, ok: bool): (r: Bridge)
    ensures Grows(b.seen, r.seen) && r.seen.unregistersSent == b.seen.unregistersSent
    ensures SameWork(b, r)
  {
    if !ok || !Healthy(b.startupFailure, b.state) then StartFails(b) else SendRegister(b)
  }

  function NowRunning(b: Bridge): (r: Bridge)
    ensures r.seen == b.seen
    ensures SameWork(b, r)
  {
    var running := b.(state := Running);
    if b.stopRequested then StartEnds(running) else running.(active := Start(FirstPoll))
  }

  function ResumeStart(b: Bridge, wait: StartWait, ok: bool, more: bool, options: Options): (r: Bridge)
    ensures Grows(b.seen, r.seen) && r.seen.unregistersSent == b.seen.unregistersSent
    ensures SameWork(b, r)
  {
    hide StartFails, StartEnds, StartWaits, StartRegisters, RegistrationArrives, NowRunning, AfterFailure, Healthy,
         Applicable, CanContinueCycle;
    match wait
    case HeartbeatTimeout => if options.ownership then StartWaits(b, ok, ReadMarker) else StartRegisters(b, ok)
    case ReadMarker => StartWaits(b, ok, WriteMarker)
    case WriteMarker => StartRegisters(b, ok)
    case Register => if !ok then StartFails(b) else RegistrationArrives(b, options)
    case PrivateCallback => StartWaits(b, ok, RecordRegistration)
    case RecordRegistration => StartWaits(b, ok, FirstHeartbeat)
    case FirstHeartbeat =>
      if !ok || !Applicable(b.state) then StartFails(b)
      else b.(lifecycle := Registered, active := Start(RecordHeartbeat))
    case RecordHeartbeat =>
      if !ok || !Applicable(b.state) || !Healthy(b.startupFailure, b.state) then StartFails(b) else NowRunning(b)
    case FirstPoll =>
      if !ok then StartFails(b)
      else if more && CanContinueCycle(b.state) then b
      else if !Healthy(b.startupFailure, b.state) then StartFails(b)
      else StartEnds(b)
    case RecordUnknown => StartEnds(b)
    case RecordFailure => AfterFailure(b, options)
    case CloseAfterFailure => StartEnds(b.(state := Failed))
  }

  // ----- stop -----

  function StopEnds(b: Bridge): (r: Bridge)
    ensures r.seen == b.seen
    ensures SameWork(b, r)
  {
    b.(active := NoTask, stopSettled := true)
  }

  function BeginStop(b: Bridge, force: bool): (r: Bridge)
    ensures r.seen == b.seen
    ensures SameWork(b, r)
  {
    if b.state.Stopped? then StopEnds(b)
    else
      b.(state := if b.state.Idle? || b.state.Failed? then b.state else Stopping,
         active := Stop(force, b.state, if b.cycle.Some? then Cycle else Operations))
  }

  function FinishStop(b: Bridge, clean: bool): (r: Bridge)
    ensures r.seen == b.seen
    ensures SameWork(b, r)
  {
    StopEnds(b.(state := if clean then Stopped else Degraded))
  }

  /** As far as the bridge knows, the broker holds no row of it. */
  predicate BrokerClean(registration: bool, lifecycle: BrokerLifecycle) {
    if registration then lifecycle.Unregistered? else lifecycle.NotAttempted? || lifecycle.Unregistered?
  }

  /** After the client: the broker's part is judged before the ownership record is written. */
  function JudgeStop(b: Bridge, force: bool, before: BridgeState, clean: bool, options: Options): (r: Bridge)
    ensures r.seen == b.seen
    ensures SameWork(b, r)
  {
    var brokerClean := BrokerClean(b.registration, b.lifecycle);
    if options.ownership then b.(active := Stop(force, before, RecordStop(clean, brokerClean)))
    else FinishStop(b, clean && brokerClean)
  }

  predicate NoRowKnown(registration: bool, lifecycle: BrokerLifecycle) { lifecycle.Unregistered? || !registration }

  function CloseOwnedClient(b: Bridge, force: bool, before: BridgeState, clean: bool, options: Options): (r: Bridge)
    ensures Grows(b.seen, r.seen) && r.seen.unregistersSent == b.seen.unregistersSent
    ensures SameWork(b, r)
  {
    if options.ownsClient && NoRowKnown(b.registration, b.lifecycle)
    then b.(seen := b.seen.(clientClosed := true), active := Stop(force, before, CloseClient(clean)))
    else JudgeStop(b, force, before, clean, options)
  }

  function CloseOwnedRuntime(b: Bridge, force: bool, before: BridgeState, clean: bool, options: Options): (r: Bridge)
    ensures Grows(b.seen, r.seen) && r.seen.unregistersSent == b.seen.unregistersSent
    ensures SameWork(b, r)
  {
    if options.closesRuntime then b.(active := Stop(force, before, CloseRuntime(clean)))
    else CloseOwnedClient(b, force, before, clean, options)
  }

  predicate ShouldUnregister(registration: bool, state: BridgeState, force: bool, before: BridgeState) {
    registration && (force || (!state.Degraded? && !state.Failed? && (before.Running? || before.Starting?)))
  }

  function SendUnregister(b: Bridge, force: bool, before: BridgeState): (r: Bridge)
    ensures Grows(b.seen, r.seen)
    ensures SameWork(b, r)
  {
    b.(active := Stop(force, before, Unregister),
       seen := b.seen.(unregistersSent := b.seen.unregistersSent + 1))
  }

  /** All work is waited for. */
  function DecideStop(b: Bridge, force: bool, before: BridgeState, options: Options): (r: Bridge)
    ensures Grows(b.seen, r.seen)
    ensures SameWork(b, r)
  {
    if ShouldUnregister(b.registration, b.state, force, before) then SendUnregister(b, force, before)
    else CloseOwnedRuntime(b, force, before, !b.registration || b.lifecycle.Unregistered?, options)
  }

  function AnswerUnregister(b: Bridge, ok: bool): (r: Bridge)
    ensures Grows(b.seen, r.seen) && r.seen.unregistersSent == b.seen.unregistersSent
    ensures SameWork(b, r)
  {
    b.(lifecycle := if ok then Unregistered else Unknown, seen := b.seen.(acknowledged := b.seen.acknowledged || ok))
  }

  function ResumeStop(b: Bridge, force: bool, before: BridgeState, wait: StopWait, ok: bool,
                      options: Options): (r: Bridge)
    ensures Grows(b.seen, r.seen)
    ensures SameWork(b, r)
  {
    match wait
    case Cycle => if b.cycle.Some? then b else b.(active := Stop(force, before, Operations))
    case Operations => if b.operations != map[] then b else DecideStop(b, force, before, options)
    case Unregister => CloseOwnedRuntime(AnswerUnregister(b, ok), force, before, ok, options)
    case CloseRuntime(clean) => CloseOwnedClient(b, force, before, clean && ok, options)
    case CloseClient(clean) => JudgeStop(b, force, before, clean, options)
    case RecordStop(clean, brokerClean) => FinishStop(b, clean && ok && brokerClean)
  }

  // ----- cycles and tracked calls -----

  function CycleFails(b: Bridge): (r: Bridge)
    ensures r.seen == b.seen.(failures := b.seen.failures + 1)
    ensures r.operations == b.operations
  {
    FailClosed(b).(cycle := Some(CycleFailing))
  }

  function ResumeCycle(b: Bridge, wait: CycleWait, ok: bool, more: bool): (r: Bridge)
    ensures Grows(b.seen, r.seen) && r.seen.unregistersSent == b.seen.unregistersSent
    ensures r.operations == b.operations
  {
    match wait
    case CycleHeartbeat =>
      if !ok || !Applicable(b.state) then CycleFails(b) else b.(lifecycle := Registered, cycle := Some(CycleRecord))
    case CycleRecord =>
      if !ok || !Applicable(b.state) then CycleFails(b)
      else if !b.state.Running? then b.(cycle := None)
      else b.(cycle := Some(CyclePoll))
    case CyclePoll =>
      if !ok then CycleFails(b)
      else if more && CanContinueCycle(b.state) then b
      else b.(cycle := None)
    case CycleFailing => b.(cycle := None)
  }

  function OperationFails(b: Bridge, id: nat): (r: Bridge)
    ensures Grows(b.seen, r.seen) && r.seen.unregistersSent == b.seen.unregistersSent
    ensures r.cycle == b.cycle
  {
    if b.state.Running? || b.state.Starting? then FailClosed(b).(operations := b.operations[id := CallFailing])
    else b.(operations := b.operations - {id})
  }

  function ResumeOperation(b: Bridge, id: nat, wait: OperationWait, ok: bool): (r: Bridge)
    ensures Grows(b.seen, r.seen) && r.seen.unregistersSent == b.seen.unregistersSent
    ensures r.cycle == b.cycle
  {
    match wait
    case CallUnregistered => OperationFails(b, id)
    case CallHeartbeat(more) =>
      if !ok || !Applicable(b.state) then OperationFails(b, id)
      else b.(lifecycle := Registered, operations := b.operations[id := CallRecord(more)])
    case CallRecord(more) =>
      if !ok || !Applicable(b.state) then OperationFails(b, id)
      else if more then b.(operations := b.operations[id := CallBroker])
      else b.(operations := b.operations - {id})
    case CallBroker =>
      if !ok || !Applicable(b.state) then OperationFails(b, id) else b.(operations := b.operations - {id})
    case CallFailing => b.(operations := b.operations - {id})
  }

  // ----- one step -----

  /** Calls from outside, and continuations; `ok` is how the awaited promise settled, and `more`
      that a poll awaits again. */
  datatype Event =
    | CallStart
    | CallStop(force: bool)
    | ForcedStopAgain
    | BeginTask
    | TaskResumes(ok: bool, more: bool)
    | CallCycle(heartbeatDue: bool)
    | CycleResumes(ok: bool, more: bool)
    | CallOperation(id: nat, more: bool)
    | OperationResumes(id: nat, ok: bool)
    | RuntimeExits

  function Enqueue(b: Bridge, task: Task): (r: Bridge)
    ensures r.seen == b.seen
    ensures SameWork(b, r)
  {
    b.(queue := b.queue + [task])
  }

  function RequestStop(b: Bridge, force: bool): (r: Bridge)
    ensures r.seen == b.seen
    ensures SameWork(b, r)
  {
    Enqueue(b.(stopRequested := true, stopPromise := true), StopTask(force))
  }

  /** heartbeatNow (`more` false) may be called while starting; the other tracked calls only while
      running. */
  function BeginOperation(b: Bridge, id: nat, more: bool): (r: Bridge)
    ensures Grows(b.seen, r.seen) && r.seen.unregistersSent == b.seen.unregistersSent
    ensures r.cycle == b.cycle
  {
    if b.stopRequested || id in b.operations || !(b.state.Running? || (b.state.Starting? && !more)) then b
    else if b.registration then b.(operations := b.operations[id := CallHeartbeat(more)])
    else if more then b
    else b.(operations := b.operations[id := CallUnregistered])
  }

  function Step(b: Bridge, event: Event, options: Options): (r: Bridge)
    ensures Grows(b.seen, r.seen)
  {
    match event
    case CallStart => Enqueue(b, StartTask)
    case CallStop(force) => if b.stopPromise then b else RequestStop(b, force)
    case ForcedStopAgain =>
      if b.stopSettled && b.registration && !b.lifecycle.Unregistered? then RequestStop(b, true) else b
    case BeginTask =>
      if !b.active.NoTask? || b.queue == [] then b
      else
        var begun := b.(queue := b.queue[1..]);
        match b.queue[0] {
          case StartTask => BeginStart(begun)
          case StopTask(force) => BeginStop(begun, force)
        }
    case TaskResumes(ok, more) =>
      (match b.active
       case NoTask => b
       case Start(wait) => ResumeStart(b, wait, ok, more, options)
       case Stop(force, before, wait) => ResumeStop(b, force, before, wait, ok, options))
    case CallCycle(heartbeatDue) =>
      if !b.state.Running? || b.cycle.Some? then b
      else b.(cycle := Some(if heartbeatDue then CycleHeartbeat else CyclePoll))
    case CycleResumes(ok, more) => if b.cycle.Some? then ResumeCycle(b, b.cycle.value, ok, more) else b
    case CallOperation(id, more) => BeginOperation(b, id, more)
    case OperationResumes(id, ok) => if id in b.operations then ResumeOperation(b, id, b.operations[id], ok) else b
    case RuntimeExits => if b.state.Stopped? || b.state.Failed? then b else FailClosed(b)
  }

  // ----- what every step keeps -----

  /** A stop that found the bridge running has not yet decided. */
  predicate WillUnregister(active: Active) {
    && active.Stop? && (active.stopWait.Cycle? || active.stopWait.Operations?)
    && (active.before.Running? || active.before.Starting?)
  }

  predicate StopQueued(queue: seq<Task>) { exists i :: 0 <= i < |queue| && queue[i].StopTask? }

  /** Failing closed is for good: no way leads back to a state that accepts work. */
  predicate Closed(b: Bridge) {
    && (b.seen.FailedClosed() ==> !b.state.Idle? && !b.state.Starting? && !b.state.Running?)
    && (b.seen.FailedClosed() && WillUnregister(b.active) ==> b.state.Degraded? || b.state.Failed?)
  }

  /** Starting and running belong to the start task, or follow it; a stop moves away from both. */
  predicate Phases(b: Bridge) {
    && (b.state.Starting? ==> b.active.Start? && !b.active.startWait.FirstPoll? && !b.active.startWait.RecordUnknown?)
    && (b.active.Start? ==> !b.state.Idle? && !b.state.Stopping? && !b.state.Stopped? && b.startupInProgress)
    && (b.active.Stop? ==> !b.state.Starting? && !b.state.Running?)
    && (b.active.Stop? && b.state.Idle? ==> !b.seen.registerSent && b.active.before.Idle?)
    && (b.state.Idle? ==> !b.seen.registerSent && !b.registration)
    && (b.state.Running? ==> b.registration)
    && (b.state.Stopping? ==> b.active.Stop?)
    && (b.startupFailure ==> b.seen.FailedClosed())
    && (b.active.Start? ==> RegistrationFits(b, b.active.startWait))
  }

  /** How far a start has come with the registration. */
  predicate RegistrationFits(b: Bridge, wait: StartWait) {
    match wait
    case HeartbeatTimeout => !b.seen.registerSent && !b.registration
    case ReadMarker => !b.seen.registerSent && !b.registration
    case WriteMarker => !b.seen.registerSent && !b.registration
    case Register => b.seen.registerSent && !b.registration
    case RecordUnknown => b.seen.FailedClosed()
    case RecordFailure => true
    case CloseAfterFailure => !b.registration
    case _ => b.registration
  }

  /** A queued or running stop is requested, and once it is past its waits no work is left. */
  predicate Drained(b: Bridge) {
    && (b.state.Stopped? ==> b.cycle.None? && b.operations == map[])
    && ((b.active.Stop? || b.seen.unregistersSent > 0 || StopQueued(b.queue)) ==> b.stopRequested)
    && (b.active.Stop? && !b.active.stopWait.Cycle? ==> b.cycle.None?)
    && (b.active.Stop? && !b.active.stopWait.Cycle? && !b.active.stopWait.Operations? ==> b.operations == map[])
    && (b.seen.unregistersSent > 0 ==>
          b.cycle.None? && b.operations == map[] && !b.state.Idle? && !b.state.Starting? && !b.state.Running?)
  }

  /** What the bridge knows of its broker row, against what the broker saw. */
  predicate Broker(b: Bridge) {
    && (b.lifecycle.NotAttempted? ==> !b.seen.registerSent)
    && (b.lifecycle.Unregistered? ==> b.seen.acknowledged)
    && (b.registration ==> b.seen.registerSent)
    && (b.state.Stopped? ==> !b.seen.registerSent || b.seen.acknowledged)
    && (b.active.Stop? && b.active.stopWait.RecordStop? && b.active.stopWait.brokerClean ==>
          !b.seen.registerSent || b.seen.acknowledged)
  }

  /** An owned client is closed only with no row to release. */
  predicate ClientKept(b: Bridge) {
    && (b.seen.clientClosed ==> b.seen.acknowledged || !b.registration)
    && (b.seen.clientClosed && !b.seen.acknowledged ==>
          (b.active.Start? ==> b.active.startWait.CloseAfterFailure?) && (b.active.NoTask? ==> !b.state.Idle?))
  }

  predicate Inv(b: Bridge) { Closed(b) && Phases(b) && Drained(b) && Broker(b) && ClientKept(b) }

  lemma NewIsSound()
    ensures Inv(NEW)
  {
  }

  lemma FailClosedKeepsInv(b: Bridge)
    requires Inv(b) && !b.state.Stopped?
    ensures Inv(FailClosed(b))
  {
    hide StopQueued;
  }

  // ----- start, piece by piece -----

  /** A start waits for something else; the bridge may know its row by now. */
  lemma StartMovesOn(b: Bridge, wait: StartWait, lifecycle: BrokerLifecycle)
    requires Inv(b) && b.active.Start? && b.registration && !b.active.startWait.CloseAfterFailure?
    requires wait.PrivateCallback? || wait.RecordRegistration? || wait.FirstHeartbeat? || wait.RecordHeartbeat?
    requires lifecycle == b.lifecycle || lifecycle == Registered
    ensures Inv(b.(active := Start(wait), lifecycle := lifecycle))
  {
    hide StopQueued;
  }

  lemma StartFailsKeepsInv(b: Bridge)
    requires Inv(b) && b.active.Start? && !b.active.startWait.CloseAfterFailure?
    ensures Inv(StartFails(b))
  {
    hide StopQueued;
  }

  lemma StartEndsKeepsInv(b: Bridge, state: BridgeState)
    requires Inv(b) && b.active.Start? && (state == b.state || state == Failed) && !state.Starting?
    ensures Inv(StartEnds(b.(state := state)))
  {
    hide StopQueued;
  }

  lemma SendRegisterKeepsInv(b: Bridge, options: Options)
    requires Inv(b) && (b.active == Start(HeartbeatTimeout) || b.active == Start(ReadMarker)
                        || b.active == Start(WriteMarker)) && Healthy(b.startupFailure, b.state)
    ensures Inv(SendRegister(b)) && Inv(b.(active := Start(ReadMarker))) && Inv(b.(active := Start(WriteMarker)))
  {
    hide StopQueued;
  }

  /** The registration arrives. */
  lemma RegisteredKeepsInv(b: Bridge)
    requires Inv(b) && b.active == Start(Register)
    ensures var known := b.(registration := true, lifecycle := Registered);
            Inv(StartFails(known)) && Inv(known.(active := Start(PrivateCallback)))
            && Inv(known.(active := Start(RecordRegistration)))
  {
    hide StopQueued;
  }

  lemma NowRunningKeepsInv(b: Bridge)
    requires Inv(b) && b.active == Start(RecordHeartbeat) && Healthy(b.startupFailure, b.state)
    ensures Inv(StartEnds(b.(state := Running))) && Inv(b.(state := Running, active := Start(FirstPoll)))
  {
    hide StopQueued;
  }

  lemma FailureRecordedKeepsInv(b: Bridge)
    requires Inv(b) && b.active == Start(RecordFailure) && !b.registration
    ensures Inv(b.(seen := b.seen.(clientClosed := true), active := Start(CloseAfterFailure)))
  {
    hide StopQueued;
  }

  lemma AfterFailureKeepsInv(b: Bridge, options: Options)
    requires Inv(b) && b.active == Start(RecordFailure)
    ensures Inv(AfterFailure(b, options))
  {
    hide Inv, StartEnds;
    StartEndsKeepsInv(b, Failed);
    if !b.registration { FailureRecordedKeepsInv(b); }
  }

  lemma ArrivalKeepsInv(b: Bridge, options: Options)
    requires Inv(b) && b.active == Start(Register)
    ensures Inv(RegistrationArrives(b, options))
  {
    hide Inv, StartFails;
    RegisteredKeepsInv(b);
  }

  lemma RunningKeepsInv(b: Bridge)
    requires Inv(b) && b.active == Start(RecordHeartbeat) && Healthy(b.startupFailure, b.state)
    ensures Inv(NowRunning(b))
  {
    hide Inv, StartEnds;
    NowRunningKeepsInv(b);
  }

  /** The waits of a start that are left by going straight on to another. */
  predicate Follows(wait: StartWait, next: StartWait) {
    match wait
    case HeartbeatTimeout => next.ReadMarker?
    case ReadMarker => next.WriteMarker?
    case PrivateCallback => next.RecordRegistration?
    case RecordRegistration => next.FirstHeartbeat?
    case _ => false
  }

  lemma StartWaitsKeepsInv(b: Bridge, ok: bool, options: Options, next: StartWait)
    requires Inv(b) && b.active.Start? && Follows(b.active.startWait, next)
    ensures Inv(StartWaits(b, ok, next))
  {
    hide Inv, StartFails;
    StartFacts(b, b.active.startWait);
    StartFailsKeepsInv(b);
    if Healthy(b.startupFailure, b.state) {
      if next.ReadMarker? || next.WriteMarker? {
        SendRegisterKeepsInv(b, options);
      } else {
        StartMovesOn(b, next, b.lifecycle);
      }
    }
  }

  lemma StartRegistersKeepsInv(b: Bridge, ok: bool, options: Options)
    requires Inv(b) && (b.active == Start(HeartbeatTimeout) || b.active == Start(WriteMarker))
    ensures Inv(StartRegisters(b, ok))
  {
    hide Inv, StartFails, SendRegister;
    StartFailsKeepsInv(b);
    if Healthy(b.startupFailure, b.state) { SendRegisterKeepsInv(b, options); }
  }

  lemma FailedKeepsInv(b: Bridge)
    requires Inv(b) && b.active.Start?
    ensures Inv(b.(state := Failed))
  {
    hide StopQueued;
  }

  lemma RunningIsSound(b: Bridge)
    requires Inv(b) && b.active == Start(RecordHeartbeat) && Healthy(b.startupFailure, b.state)
    ensures Inv(b.(state := Running))
  {
    hide StopQueued;
  }

  lemma StartFacts(b: Bridge, wait: StartWait)
    requires Inv(b) && b.active == Start(wait)
    ensures RegistrationFits(b, wait)
    ensures wait.FirstPoll? || wait.RecordUnknown? ==> !b.state.Starting?
  {
    hide StopQueued;
  }

  lemma StartKeepsInv(b: Bridge, wait: StartWait, ok: bool, more: bool, options: Options)
    requires Inv(b) && b.active == Start(wait)
    ensures Inv(ResumeStart(b, wait, ok, more, options))
  {
    hide Inv, StartFails, StartEnds, StartWaits, StartRegisters, RegistrationArrives, NowRunning, AfterFailure;
    StartFacts(b, wait);
    if !wait.CloseAfterFailure? { StartFailsKeepsInv(b); }
    match wait
    case HeartbeatTimeout => {
      StartWaitsKeepsInv(b, ok, options, ReadMarker);
      StartRegistersKeepsInv(b, ok, options);
    }
    case ReadMarker => StartWaitsKeepsInv(b, ok, options, WriteMarker);
    case WriteMarker => StartRegistersKeepsInv(b, ok, options);
    case Register => ArrivalKeepsInv(b, options);
    case PrivateCallback => StartWaitsKeepsInv(b, ok, options, RecordRegistration);
    case RecordRegistration => StartWaitsKeepsInv(b, ok, options, FirstHeartbeat);
    case FirstHeartbeat => StartMovesOn(b, RecordHeartbeat, Registered);
    case RecordHeartbeat => if Healthy(b.startupFailure, b.state) { RunningKeepsInv(b); }
    case FirstPoll => StartEndsKeepsInv(b, b.state);
    case RecordUnknown => StartEndsKeepsInv(b, b.state);
    case RecordFailure => AfterFailureKeepsInv(b, options);
    case CloseAfterFailure => StartEndsKeepsInv(b, Failed);
  }

  // ----- stop, piece by piece -----

  /** A stop that has waited for all work. */
  predicate PastWaits(b: Bridge) { b.active.Stop? && b.cycle.None? && b.operations == map[] && b.stopRequested }

  lemma FinishKeepsInv(b: Bridge, clean: bool)
    requires Inv(b) && PastWaits(b) && (clean ==> !b.seen.registerSent || b.seen.acknowledged)
    ensures Inv(FinishStop(b, clean))
  {
    hide StopQueued;
  }

  lemma RecordKeepsInv(b: Bridge, force: bool, before: BridgeState, clean: bool, brokerClean: bool)
    requires Inv(b) && PastWaits(b) && b.active.before == before
             && (brokerClean ==> !b.seen.registerSent || b.seen.acknowledged)
    ensures Inv(b.(active := Stop(force, before, RecordStop(clean, brokerClean))))
  {
    hide StopQueued;
  }

  lemma JudgementIsRight(b: Bridge)
    requires Inv(b)
    ensures BrokerClean(b.registration, b.lifecycle) ==> !b.seen.registerSent || b.seen.acknowledged
  {
    hide StopQueued;
  }

  lemma JudgeKeepsInv(b: Bridge, force: bool, before: BridgeState, clean: bool, options: Options)
    requires Inv(b) && PastWaits(b) && b.active.before == before
    ensures Inv(JudgeStop(b, force, before, clean, options))
  {
    hide Inv, FinishStop, BrokerClean;
    JudgementIsRight(b);
    var brokerClean := BrokerClean(b.registration, b.lifecycle);
    RecordKeepsInv(b, force, before, clean, brokerClean);
    FinishKeepsInv(b, clean && brokerClean);
  }

  lemma CloseClientKeepsInv(b: Bridge, force: bool, before: BridgeState, clean: bool)
    requires Inv(b) && PastWaits(b) && b.active.before == before
    ensures Inv(b.(active := Stop(force, before, CloseRuntime(clean))))
    ensures b.lifecycle.Unregistered? || !b.registration ==>
              Inv(b.(seen := b.seen.(clientClosed := true), active := Stop(force, before, CloseClient(clean))))
  {
    hide StopQueued;
  }

  lemma CloseKeepsInv(b: Bridge, force: bool, before: BridgeState, clean: bool, options: Options)
    requires Inv(b) && PastWaits(b) && b.active.before == before
    ensures Inv(CloseOwnedClient(b, force, before, clean, options))
            && Inv(CloseOwnedRuntime(b, force, before, clean, options))
  {
    hide Inv, JudgeStop;
    JudgeKeepsInv(b, force, before, clean, options);
    CloseClientKeepsInv(b, force, before, clean);
  }

  lemma SendUnregisterKeepsInv(b: Bridge, force: bool, before: BridgeState)
    requires Inv(b) && PastWaits(b) && b.active == Stop(force, before, Operations)
             && ShouldUnregister(b.registration, b.state, force, before)
    ensures Inv(SendUnregister(b, force, before))
  {
    hide StopQueued;
  }

  lemma DecideKeepsInv(b: Bridge, force: bool, before: BridgeState, options: Options)
    requires Inv(b) && PastWaits(b) && b.active == Stop(force, before, Operations)
    ensures Inv(DecideStop(b, force, before, options))
  {
    hide Inv, CloseOwnedRuntime, SendUnregister;
    if ShouldUnregister(b.registration, b.state, force, before) { SendUnregisterKeepsInv(b, force, before); }
    CloseKeepsInv(b, force, before, !b.registration || b.lifecycle.Unregistered?, options);
  }

  lemma AnswerKeepsInv(b: Bridge, ok: bool)
    requires Inv(b) && b.active.Stop? && b.active.stopWait.Unregister?
    ensures Inv(AnswerUnregister(b, ok))
  {
    hide StopQueued;
  }

  lemma StopFacts(b: Bridge, wait: StopWait)
    requires Inv(b) && b.active.Stop? && b.active.stopWait == wait
    ensures !wait.Cycle? && (wait.Operations? ==> b.operations == map[]) ==> PastWaits(b)
    ensures wait.RecordStop? && wait.brokerClean ==> !b.seen.registerSent || b.seen.acknowledged
    ensures b.cycle.None? ==> Inv(b.(active := b.active.(stopWait := Operations))) || !wait.Cycle?
  {
    hide StopQueued;
  }

  lemma StopKeepsInv(b: Bridge, force: bool, before: BridgeState, wait: StopWait, ok: bool, options: Options)
    requires Inv(b) && b.active == Stop(force, before, wait)
    ensures Inv(ResumeStop(b, force, before, wait, ok, options))
  {
    hide Inv, CloseOwnedRuntime, CloseOwnedClient, JudgeStop, FinishStop, DecideStop;
    StopFacts(b, wait);
    match wait
    case Cycle => {}
    case Operations => {
      if b.operations == map[] {
        DecideKeepsInv(b, force, before, options);
      }
    }
    case Unregister => {
      AnswerKeepsInv(b, ok);
      CloseKeepsInv(AnswerUnregister(b, ok), force, before, ok, options);
    }
    case CloseRuntime(clean) => CloseKeepsInv(b, force, before, clean && ok, options);
    case CloseClient(clean) => JudgeKeepsInv(b, force, before, clean, options);
    case RecordStop(clean, brokerClean) => FinishKeepsInv(b, clean && ok && brokerClean);
  }

  // ----- cycles and tracked calls, piece by piece -----

  lemma CycleMoves(b: Bridge, lifecycle: BrokerLifecycle, cycle: Option<CycleWait>)
    requires Inv(b) && b.cycle.Some? && (lifecycle == b.lifecycle || lifecycle == Registered)
    ensures Inv(b.(lifecycle := lifecycle, cycle := cycle))
  {
    hide StopQueued;
  }

  lemma CycleFailsKeepsInv(b: Bridge)
    requires Inv(b) && b.cycle.Some?
    ensures Inv(CycleFails(b))
  {
    hide StopQueued;
  }

  lemma CycleKeepsInv(b: Bridge, wait: CycleWait, ok: bool, more: bool)
    requires Inv(b) && b.cycle == Some(wait)
    ensures Inv(ResumeCycle(b, wait, ok, more))
  {
    hide Inv, CycleFails;
    CycleFailsKeepsInv(b);
    CycleMoves(b, b.lifecycle, None);
    match wait
    case CycleHeartbeat => CycleMoves(b, Registered, Some(CycleRecord));
    case CycleRecord => CycleMoves(b, b.lifecycle, Some(CyclePoll));
    case CyclePoll => {}
    case CycleFailing => {}
  }

  lemma OperationMoves(b: Bridge, lifecycle: BrokerLifecycle, operations: map<nat, OperationWait>)
    requires Inv(b) && b.operations != map[] && (lifecycle == b.lifecycle || lifecycle == Registered)
    ensures Inv(b.(lifecycle := lifecycle, operations := operations))
  {
    hide StopQueued;
  }

  lemma OperationFailsKeepsInv(b: Bridge, id: nat)
    requires Inv(b) && id in b.operations
    ensures Inv(OperationFails(b, id))
  {
    hide Inv;
    OperationMoves(b, b.lifecycle, b.operations - {id});
    OperationMoves(b, b.lifecycle, b.operations[id := CallFailing]);
    if !b.state.Stopped? { FailClosedKeepsInv(b.(operations := b.operations[id := CallFailing])); }
  }

  lemma OperationKeepsInv(b: Bridge, id: nat, wait: OperationWait, ok: bool)
    requires Inv(b) && id in b.operations && b.operations[id] == wait
    ensures Inv(ResumeOperation(b, id, wait, ok))
  {
    hide Inv, OperationFails;
    OperationFailsKeepsInv(b, id);
    OperationMoves(b, b.lifecycle, b.operations - {id});
    match wait
    case CallUnregistered => {}
    case CallHeartbeat(more) => OperationMoves(b, Registered, b.operations[id := CallRecord(more)]);
    case CallRecord(more) => OperationMoves(b, b.lifecycle, b.operations[id := CallBroker]);
    case CallBroker => {}
    case CallFailing => {}
  }

  // ----- requests and the queue -----

  lemma PopKeepsInv(b: Bridge)
    requires Inv(b) && b.active.NoTask? && b.queue != []
    ensures Inv(b.(queue := b.queue[1..])) && (b.queue[0].StopTask? ==> b.stopRequested)
  {
    TasksQueued(b.queue);
    hide StopQueued;
  }

  lemma BeginStartKeepsInv(b: Bridge)
    requires Inv(b) && b.active.NoTask?
    ensures Inv(BeginStart(b))
  {
    hide StopQueued;
  }

  lemma BeginStopKeepsInv(b: Bridge, force: bool)
    requires Inv(b) && b.active.NoTask? && b.stopRequested
    ensures Inv(BeginStop(b, force))
  {
    hide StopQueued;
  }

  lemma BeginTaskKeepsInv(b: Bridge, options: Options)
    requires Inv(b)
    ensures Inv(Step(b, BeginTask, options))
  {
    hide Inv, BeginStart, BeginStop;
    if b.active.NoTask? && b.queue != [] {
      var begun := b.(queue := b.queue[1..]);
      PopKeepsInv(b);
      match b.queue[0]
      case StartTask => BeginStartKeepsInv(begun);
      case StopTask(force) => BeginStopKeepsInv(begun, force);
    }
  }

  lemma TasksQueued(queue: seq<Task>)
    requires queue != []
    ensures StopQueued(queue[1..]) || queue[0].StopTask? ==> StopQueued(queue)
    ensures StopQueued(queue + [StartTask]) ==> StopQueued(queue)
  {
    if StopQueued(queue[1..]) {
      var i :| 0 <= i < |queue[1..]| && queue[1..][i].StopTask?;
      assert queue[i + 1].StopTask?;
    }
    if i :| 0 <= i < |queue + [StartTask]| && (queue + [StartTask])[i].StopTask? { assert queue[i].StopTask?; }
  }

  lemma RequestsKeepInv(b: Bridge, event: Event, options: Options)
    requires Inv(b) && (event.CallStart? || event.CallStop? || event.ForcedStopAgain?)
    ensures Inv(Step(b, event, options))
  {
    assert StopQueued(b.queue + [StartTask]) ==> StopQueued(b.queue);
  }

  lemma CallsKeepInv(b: Bridge, event: Event, options: Options)
    requires Inv(b) && (event.CallCycle? || event.CallOperation? || event.RuntimeExits?)
    ensures Inv(Step(b, event, options))
  {
    hide StopQueued;
  }

  lemma StepKeepsInv(b: Bridge, event: Event, options: Options)
    requires Inv(b)
    ensures Inv(Step(b, event, options))
  {
    hide Inv, ResumeStart, ResumeStop, ResumeCycle, ResumeOperation;
    match event
    case BeginTask => BeginTaskKeepsInv(b, options);
    case TaskResumes(ok, more) => {
      match b.active
      case NoTask => {}
      case Start(wait) => StartKeepsInv(b, wait, ok, more, options);
      case Stop(force, before, wait) => StopKeepsInv(b, force, before, wait, ok, options);
    }
    case CycleResumes(ok, more) => if b.cycle.Some? { CycleKeepsInv(b, b.cycle.value, ok, more); }
    case OperationResumes(id, ok) => if id in b.operations { OperationKeepsInv(b, id, b.operations[id], ok); }
    case CallCycle(_) => CallsKeepInv(b, event, options);
    case CallOperation(_, _) => CallsKeepInv(b, event, options);
    case RuntimeExits => CallsKeepInv(b, event, options);
    case _ => RequestsKeepInv(b, event, options);
  }

  /** What a caller may rely on at any time: a bridge that has failed closed does not run, one that
      reports `stopped` has left no row, a closed client has no known row, and after an unregister
      no work is outstanding. */
  predicate Promises(b: Bridge) {
    && (b.seen.FailedClosed() ==> !b.state.Running? && !b.state.Starting?)
    && (b.state.Stopped? ==> !b.seen.registerSent || b.seen.acknowledged)
    && (b.seen.clientClosed ==> b.seen.acknowledged || !b.registration)
    && (b.seen.unregistersSent > 0 ==> b.cycle.None? && b.operations == map[])
  }

  lemma WorkMeansNotStopped(b: Bridge)
    requires Inv(b) && (b.cycle.Some? || b.operations != map[])
    ensures !b.state.Stopped?
  {
    hide StopQueued;
  }

  lemma InvPromises(b: Bridge)
    requires Inv(b)
    ensures Promises(b)
  {
    hide StopQueued;
  }

  lemma StepKeepsPromises(b: Bridge, event: Event, options: Options)
    requires Inv(b)
    ensures Inv(Step(b, event, options)) && Promises(Step(b, event, options))
    ensures !event.TaskResumes? ==> Step(b, event, options).seen.unregistersSent == b.seen.unregistersSent
  {
    hide Inv, Step, Promises;
    StepKeepsInv(b, event, options);
    InvPromises(Step(b, event, options));
    if !event.TaskResumes? { OnlyTasksUnregister(b, event, options); }
  }

  lemma OnlyTasksUnregister(b: Bridge, event: Event, options: Options)
    requires !event.TaskResumes?
    ensures Step(b, event, options).seen.unregistersSent == b.seen.unregistersSent
  {
    hide ResumeCycle, ResumeOperation, BeginOperation, BeginStart, BeginStop, FailClosed, Enqueue, RequestStop,
         SameWork, Grows;
  }

  // ----- whole runs -----

  predicate IsRun(bs: seq<Bridge>, events: seq<Event>, options: Options) {
    && |bs| == |events| + 1 && bs[0] == NEW
    && forall i :: 0 <= i < |events| ==> bs[i + 1] == Step(bs[i], events[i], options)
  }

  lemma {:induction false} RunKeepsInv(bs: seq<Bridge>, events: seq<Event>, options: Options, i: nat)
    requires IsRun(bs, events, options) && i < |bs|
    ensures Inv(bs[i])
  {
    hide Inv, Step;
    if i == 0 {
      NewIsSound();
    } else {
      RunKeepsInv(bs, events, options, i - 1);
      StepKeepsInv(bs[i - 1], events[i - 1], options);
    }
  }

  predicate SendsUnregister(b: Bridge, event: Event, options: Options) {
    Step(b, event, options).seen.unregistersSent != b.seen.unregistersSent
  }

  /** An unregister is sent only by a stop that has waited for all work, for a registration, and
      only if it is forced once the bridge has failed closed. */
  lemma WhenUnregisterIsSent(b: Bridge, event: Event, options: Options)
    requires Inv(b) && SendsUnregister(b, event, options)
    ensures b.active.Stop? && b.active.stopWait.Operations? && b.cycle.None? && b.operations == map[] && b.registration
    ensures b.seen.FailedClosed() ==> b.active.force
  {
    hide StopQueued, ResumeStart, ResumeCycle, ResumeOperation, BeginOperation, BeginStart, BeginStop, FailClosed,
         Enqueue, RequestStop, CloseOwnedRuntime, CloseOwnedClient, JudgeStop, FinishStop;
    match event
    case TaskResumes(ok, more) => {}
    case _ => {}
  }

  /** The same of one segment of a stop. */
  lemma StopSegmentPromises(b: Bridge, force: bool, before: BridgeState, wait: StopWait, ok: bool, options: Options)
    requires Inv(b) && b.active == Stop(force, before, wait)
    ensures var after := ResumeStop(b, force, before, wait, ok, options);
            && Inv(after) && Promises(after)
            && (after.seen.unregistersSent != b.seen.unregistersSent ==>
                  b.cycle.None? && b.operations == map[] && b.registration && (b.seen.FailedClosed() ==> force))
  {
    hide Inv, Promises, ResumeStop;
    StopKeepsInv(b, force, before, wait, ok, options);
    InvPromises(ResumeStop(b, force, before, wait, ok, options));
    if SendsUnregister(b, TaskResumes(ok, false), options) { WhenUnregisterIsSent(b, TaskResumes(ok, false), options); }
  }

  lemma {:induction false} SeenStaysInRuns(bs: seq<Bridge>, events: seq<Event>, options: Options, i: nat, j: nat)
    requires IsRun(bs, events, options) && i <= j < |bs|
    ensures bs[i].seen.FailedClosed() ==> bs[j].seen.FailedClosed()
    ensures bs[i].seen.unregistersSent <= bs[j].seen.unregistersSent
  {
    hide Step;
    if i < j {
      SeenStaysInRuns(bs, events, options, i, j - 1);
    }
  }

  /** Once the bridge has failed closed, nothing makes it run again, and no unforced stop sends
      an unregister. */
  lemma FailedClosedIsForGood(bs: seq<Bridge>, events: seq<Event>, options: Options, i: nat, j: nat)
    requires IsRun(bs, events, options) && i <= j < |bs| && bs[i].seen.FailedClosed()
    ensures !bs[j].state.Running? && !bs[j].state.Starting?
    ensures j < |events| && SendsUnregister(bs[j], events[j], options) ==> bs[j].active.Stop? && bs[j].active.force
  {
    hide Step, StopQueued, IsRun;
    SeenStaysInRuns(bs, events, options, i, j);
    RunKeepsInv(bs, events, options, j);
    if j < |events| && SendsUnregister(bs[j], events[j], options) { WhenUnregisterIsSent(bs[j], events[j], options); }
  }

  /** `stopped` is reported only if no register was ever sent or an unregister was acknowledged. */
  lemma StoppedMeansNoRow(bs: seq<Bridge>, events: seq<Event>, options: Options, i: nat)
    requires IsRun(bs, events, options) && i < |bs| && bs[i].state.Stopped?
    ensures !bs[i].seen.registerSent || bs[i].seen.acknowledged
  {
    hide IsRun, StopQueued;
    RunKeepsInv(bs, events, options, i);
  }

  /** When an unregister is sent no cycle and no tracked call is outstanding, and none is at any
      later time. */
  lemma UnregisterIsDrained(bs: seq<Bridge>, events: seq<Event>, options: Options, i: nat, j: nat)
    requires IsRun(bs, events, options) && i < |events| && SendsUnregister(bs[i], events[i], options)
    requires i <= j < |bs|
    ensures bs[j].cycle.None? && bs[j].operations == map[]
  {
    hide Step, StopQueued;
    RunKeepsInv(bs, events, options, i);
    WhenUnregisterIsSent(bs[i], events[i], options);
    if i < j {
      SeenStaysInRuns(bs, events, options, i + 1, j);
      RunKeepsInv(bs, events, options, j);
    }
  }

  /** An owned client is closed only after an acknowledged unregister or without any registration,
      and that stays so. */
  lemma ClosedClientHasNoRow(bs: seq<Bridge>, events: seq<Event>, options: Options, i: nat)
    requires IsRun(bs, events, options) && i < |bs| && bs[i].seen.clientClosed
    ensures bs[i].seen.acknowledged || !bs[i].registration
  {
    hide IsRun, StopQueued;
    RunKeepsInv(bs, events, options, i);
  }

  /** The state after the running lifecycle operation has had what it waits for `n` times. */
  function Resumed(b: Bridge, n: nat, options: Options): Bridge
    decreases n
  {
    if n == 0 then b else Resumed(Step(b, TaskResumes(true, false), options), n - 1, options)
  }

  predicate CleanlyStopped(b: Bridge) { b.state.Stopped? && b.seen.acknowledged && b.active.NoTask? }

  /** The row is gone as far as bridge and broker know. */
  predicate RowGone(b: Bridge) { b.registration && b.lifecycle.Unregistered? && b.seen.acknowledged }

  lemma StaysStopped(b: Bridge, n: nat, options: Options)
    requires CleanlyStopped(b)
    ensures Resumed(b, n, options) == b
  {
  }

  lemma JudgedClean(b: Bridge, force: bool, before: BridgeState, options: Options)
    requires RowGone(b)
    ensures CleanlyStopped(Resumed(JudgeStop(b, force, before, true, options), 1, options))
  {
    StaysStopped(FinishStop(b, true), 1, options);
  }

  lemma ClosedClean(b: Bridge, force: bool, before: BridgeState, options: Options)
    requires RowGone(b)
    ensures CleanlyStopped(Resumed(CloseOwnedClient(b, force, before, true, options), 2, options))
  {
    hide JudgeStop;
    var closed := CloseOwnedClient(b, force, before, true, options);
    JudgedClean(b, force, before, options);
    if options.ownsClient {
      assert Step(closed, TaskResumes(true, false), options) == JudgeStop(closed, force, before, true, options);
      JudgedClean(closed, force, before, options);
    } else {
      OneMoreResume(closed, 1, options);
      StaysStopped(Resumed(closed, 1, options), 1, options);
    }
  }

  lemma {:induction false} OneMoreResume(b: Bridge, n: nat, options: Options)
    ensures Resumed(b, n + 1, options) == Resumed(Resumed(b, n, options), 1, options)
    decreases n
  {
    hide Step;
    if n > 0 { OneMoreResume(Step(b, TaskResumes(true, false), options), n - 1, options); }
  }

  lemma FinishedClean(b: Bridge, force: bool, before: BridgeState, options: Options)
    requires RowGone(b)
    ensures CleanlyStopped(Resumed(CloseOwnedRuntime(b, force, before, true, options), 3, options))
  {
    hide CloseOwnedClient;
    var closed := CloseOwnedRuntime(b, force, before, true, options);
    ClosedClean(b, force, before, options);
    if options.closesRuntime {
      assert Step(closed, TaskResumes(true, false), options) == CloseOwnedClient(closed, force, before, true, options);
      ClosedClean(closed, force, before, options);
    } else {
      OneMoreResume(closed, 2, options);
      StaysStopped(Resumed(closed, 2, options), 1, options);
    }
  }

  /** A stop while running, with nothing outstanding and nothing going wrong, sends the
      unregister and, once that is acknowledged, ends in `stopped` whatever there is to close. */
  lemma AnUndisturbedStopEndsStopped(b: Bridge, force: bool, options: Options)
    requires b.state.Running? && b.registration && b.cycle.None? && b.operations == map[]
    requires b.active.NoTask? && b.queue == [] && !b.stopPromise
    ensures var stopping := Step(Step(b, CallStop(force), options), BeginTask, options);
            && SendsUnregister(stopping, TaskResumes(true, false), options)
            && CleanlyStopped(Resumed(stopping, 5, options))
  {
    hide CloseOwnedRuntime, Resumed;
    assert ([] + [StopTask(force)])[1..] == [];
    var stopping := Step(Step(b, CallStop(force), options), BeginTask, options);
    assert stopping.active == Stop(force, Running, Operations) && stopping.operations == map[];
    var sent := Step(stopping, TaskResumes(true, false), options);
    assert sent == SendUnregister(stopping, force, Running);
    var answered := AnswerUnregister(sent, true);
    assert Step(sent, TaskResumes(true, false), options) == CloseOwnedRuntime(answered, force, Running, true, options);
    FinishedClean(answered, force, Running, options);
    TwoResumes(stopping, 3, options);
  }

  lemma TwoResumes(b: Bridge, n: nat, options: Options)
    ensures Resumed(b, n + 2, options) ==
            Resumed(Step(Step(b, TaskResumes(true, false), options), TaskResumes(true, false), options), n, options)
  {
    hide Step;
  }

  // ----- failing closed and the message work of a cycle -----

  /** The event begins a stop that moves the state to `stopping`. */
  predicate BeginsStop(b: Bridge, event: Event) {
    && event.BeginTask? && b.active.NoTask? && b.queue != [] && b.queue[0].StopTask?
    && !b.state.Idle? && !b.state.Failed? && !b.state.Stopped?
  }

  lemma BeginningStops(b: Bridge, event: Event, options: Options)
    requires BeginsStop(b, event)
    ensures var after := Step(b, event, options); after.state.Stopping? && after.active.Stop? && after.seen == b.seen
  {
  }

  /** In `stopping` one stays until the stop ends or the bridge fails closed. */
  lemma StoppingStays(b: Bridge, event: Event, options: Options)
    requires Inv(b) && b.state.Stopping?
    ensures var after := Step(b, event, options);
            after.state.Stopping? <==> after.active.Stop? && after.seen.failures == b.seen.failures
  {
    hide StopQueued, Grows, ResumeStart, ResumeStop, ResumeCycle, ResumeOperation, BeginStart, BeginStop;
    match event
    case TaskResumes(ok, more) =>
      if b.active.Stop? { StopLeaves(b, b.active.force, b.active.before, b.active.stopWait, ok, options); }
    case CycleResumes(ok, more) => if b.cycle.Some? { CycleLeavesStopping(b, b.cycle.value, ok, more); }
    case OperationResumes(id, ok) => if id in b.operations { OperationKeepsStopping(b, id, b.operations[id], ok); }
    case _ => {}
  }

  /** A segment of a stop leaves the state alone, or ends the stop in `stopped` or `degraded`. */
  predicate LeavesOrEnds(b: Bridge, after: Bridge) {
    && after.seen.failures == b.seen.failures
    && ((after.active.Stop? && after.state == b.state)
        || (after.active.NoTask? && (after.state.Stopped? || after.state.Degraded?)))
  }

  lemma JudgeLeaves(b: Bridge, force: bool, before: BridgeState, clean: bool, options: Options)
    ensures LeavesOrEnds(b, JudgeStop(b, force, before, clean, options))
  {
    hide BrokerClean;
  }

  lemma CloseLeaves(b: Bridge, force: bool, before: BridgeState, clean: bool, options: Options)
    ensures LeavesOrEnds(b, CloseOwnedClient(b, force, before, clean, options))
    ensures LeavesOrEnds(b, CloseOwnedRuntime(b, force, before, clean, options))
  {
    hide JudgeStop, NoRowKnown, Grows;
    JudgeLeaves(b, force, before, clean, options);
  }

  lemma StopLeaves(b: Bridge, force: bool, before: BridgeState, wait: StopWait, ok: bool, options: Options)
    requires b.active == Stop(force, before, wait)
    ensures LeavesOrEnds(b, ResumeStop(b, force, before, wait, ok, options))
  {
    hide CloseOwnedRuntime, CloseOwnedClient, JudgeStop, FinishStop, DecideStop, AnswerUnregister, LeavesOrEnds, Grows;
    StopPieces(b, force, before, wait, ok, options);
    match wait
    case Cycle => {}
    case Operations => {}
    case Unregister => AnsweredLeaves(b, force, before, ok, options);
    case CloseRuntime(clean) => CloseLeaves(b, force, before, clean && ok, options);
    case CloseClient(clean) => JudgeLeaves(b, force, before, clean, options);
    case RecordStop(clean, brokerClean) => {}
  }

  lemma StopPieces(b: Bridge, force: bool, before: BridgeState, wait: StopWait, ok: bool, options: Options)
    requires b.active == Stop(force, before, wait)
    ensures LeavesOrEnds(b, b) && LeavesOrEnds(b, b.(active := Stop(force, before, Operations)))
    ensures LeavesOrEnds(b, FinishStop(b, true)) && LeavesOrEnds(b, FinishStop(b, false))
    ensures LeavesOrEnds(b, DecideStop(b, force, before, options))
  {
    hide CloseOwnedRuntime, ShouldUnregister, Grows;
    CloseLeaves(b, force, before, !b.registration || b.lifecycle.Unregistered?, options);
  }

  lemma AnsweredLeaves(b: Bridge, force: bool, before: BridgeState, ok: bool, options: Options)
    ensures LeavesOrEnds(b, CloseOwnedRuntime(AnswerUnregister(b, ok), force, before, ok, options))
  {
    hide CloseOwnedRuntime, Grows;
    CloseLeaves(AnswerUnregister(b, ok), force, before, ok, options);
  }

  lemma CycleLeavesStopping(b: Bridge, wait: CycleWait, ok: bool, more: bool)
    requires b.state.Stopping? && b.active.Stop?
    ensures var after := ResumeCycle(b, wait, ok, more);
            after.active == b.active && (after.state.Stopping? <==> after.seen.failures == b.seen.failures)
  {
    hide Grows;
    match wait
    case CycleHeartbeat => {}
    case CycleRecord => {}
    case CyclePoll => {}
    case CycleFailing => {}
  }

  lemma OperationKeepsStopping(b: Bridge, id: nat, wait: OperationWait, ok: bool)
    requires b.state.Stopping? && b.active.Stop?
    ensures var after := ResumeOperation(b, id, wait, ok);
            after.active == b.active && after.state.Stopping? && after.seen.failures == b.seen.failures
  {
    hide Grows;
    match wait
    case CallUnregistered => {}
    case CallHeartbeat(more) => {}
    case CallRecord(more) => {}
    case CallBroker => {}
    case CallFailing => {}
  }

  /** Only the beginning of a stop leads to `stopping`. */
  lemma OnlyStopsStop(b: Bridge, event: Event, options: Options)
    requires Inv(b) && !b.state.Stopping? && Step(b, event, options).state.Stopping?
    ensures BeginsStop(b, event)
  {
    hide StopQueued, Grows, ResumeStart, ResumeStop, ResumeCycle, ResumeOperation;
    match event
    case TaskResumes(ok, more) => {
      match b.active
      case NoTask => {}
      case Start(wait) => StartNeverStops(b, wait, ok, more, options);
      case Stop(force, before, wait) => StopLeaves(b, force, before, wait, ok, options);
    }
    case CycleResumes(ok, more) => if b.cycle.Some? { CycleNeverStops(b, b.cycle.value, ok, more); }
    case OperationResumes(id, ok) => if id in b.operations { OperationNeverStops(b, id, b.operations[id], ok); }
    case _ => {}
  }

  lemma StartNeverStops(b: Bridge, wait: StartWait, ok: bool, more: bool, options: Options)
    requires !b.state.Stopping?
    ensures !ResumeStart(b, wait, ok, more, options).state.Stopping?
  {
    hide Grows, Healthy, Applicable, CanContinueCycle, StartFails, StartEnds, StartWaits, StartRegisters,
         RegistrationArrives, NowRunning, AfterFailure;
    StartPieces(b, ok, wait, options);
    StartPieces(b.(state := Failed), ok, wait, options);
    match wait
    case HeartbeatTimeout => StartPieces(b, ok, ReadMarker, options);
    case ReadMarker => StartPieces(b, ok, WriteMarker, options);
    case WriteMarker => {}
    case Register => {}
    case PrivateCallback => StartPieces(b, ok, RecordRegistration, options);
    case RecordRegistration => StartPieces(b, ok, FirstHeartbeat, options);
    case FirstHeartbeat => {}
    case RecordHeartbeat => {}
    case FirstPoll => {}
    case RecordUnknown => {}
    case RecordFailure => {}
    case CloseAfterFailure => {}
  }

  lemma StartPieces(b: Bridge, ok: bool, next: StartWait, options: Options)
    requires !b.state.Stopping?
    ensures !StartFails(b).state.Stopping? && !StartEnds(b).state.Stopping? && !StartWaits(b, ok, next).state.Stopping?
    ensures !StartRegisters(b, ok).state.Stopping? && !RegistrationArrives(b, options).state.Stopping?
    ensures !NowRunning(b).state.Stopping? && !AfterFailure(b, options).state.Stopping?
  {
    hide Healthy, Grows, StartFails, StartEnds, SendRegister;
    StartAtoms(b);
    StartAtoms(b.(registration := true, lifecycle := Registered));
    StartAtoms(b.(state := Running));
    StartAtoms(b.(state := Failed));
  }

  lemma StartAtoms(b: Bridge)
    ensures StartFails(b).state == StartEnds(b).state == SendRegister(b).state == b.state
  {
  }

  lemma CycleNeverStops(b: Bridge, wait: CycleWait, ok: bool, more: bool)
    requires !b.state.Stopping?
    ensures !ResumeCycle(b, wait, ok, more).state.Stopping?
  {
    hide Grows;
    match wait
    case CycleHeartbeat => {}
    case CycleRecord => {}
    case CyclePoll => {}
    case CycleFailing => {}
  }

  lemma OperationNeverStops(b: Bridge, id: nat, wait: OperationWait, ok: bool)
    requires !b.state.Stopping?
    ensures !ResumeOperation(b, id, wait, ok).state.Stopping?
  {
    hide Grows, OperationFails, Applicable;
    FailedOperationNeverStops(b, id);
    match wait
    case CallUnregistered => {}
    case CallHeartbeat(more) => {}
    case CallRecord(more) => {}
    case CallBroker => {}
    case CallFailing => {}
  }

  lemma FailedOperationNeverStops(b: Bridge, id: nat)
    requires !b.state.Stopping?
    ensures !OperationFails(b, id).state.Stopping?
  {
    hide Grows;
  }

  /** The stop that began in step `k` has not ended before step `j`, and the bridge has not failed
      closed since it began. */
  predicate StopUnderWay(bs: seq<Bridge>, events: seq<Event>, k: nat, j: nat)
    requires |bs| == |events| + 1 && j < |bs|
  {
    && k < j && BeginsStop(bs[k], events[k])
    && (forall m :: k < m <= j ==> bs[m].active.Stop?)
    && bs[j].seen.failures == bs[k].seen.failures
  }

  /** The state is `stopping` exactly while a stop is under way that the bridge has not failed
      closed under. */
  lemma {:induction false} StoppingExactlyWhile(bs: seq<Bridge>, events: seq<Event>, options: Options, j: nat)
    requires IsRun(bs, events, options) && j < |bs|
    ensures bs[j].state.Stopping? <==> exists k: nat :: StopUnderWay(bs, events, k, j)
  {
    hide Step, StopQueued, Inv, BeginsStop;
    if j > 0 {
      StoppingExactlyWhile(bs, events, options, j - 1);
      RunKeepsInv(bs, events, options, j - 1);
      if bs[j].state.Stopping? {
        if bs[j - 1].state.Stopping? {
          StoppingStays(bs[j - 1], events[j - 1], options);
          var k: nat :| StopUnderWay(bs, events, k, j - 1);
          assert StopUnderWay(bs, events, k, j);
        } else {
          OnlyStopsStop(bs[j - 1], events[j - 1], options);
          BeginningStops(bs[j - 1], events[j - 1], options);
          assert StopUnderWay(bs, events, j - 1, j);
        }
      } else if k: nat :| StopUnderWay(bs, events, k, j) {
        WhileUnderWay(bs, events, options, k, j);
      }
    }
  }

  lemma {:induction false} WhileUnderWay(bs: seq<Bridge>, events: seq<Event>, options: Options, k: nat, j: nat)
    requires IsRun(bs, events, options) && j < |bs| && StopUnderWay(bs, events, k, j)
    ensures bs[j].state.Stopping?
  {
    hide Step, StopQueued, Inv, BeginsStop;
    BeginningStops(bs[k], events[k], options);
    if k + 1 < j {
      FailuresGrow(bs, events, options, k, j - 1);
      FailuresGrow(bs, events, options, j - 1, j);
      WhileUnderWay(bs, events, options, k, j - 1);
      RunKeepsInv(bs, events, options, j - 1);
      StoppingStays(bs[j - 1], events[j - 1], options);
    }
  }

  lemma {:induction false} FailuresGrow(bs: seq<Bridge>, events: seq<Event>, options: Options, i: nat, j: nat)
    requires IsRun(bs, events, options) && i <= j < |bs|
    ensures bs[i].seen.failures <= bs[j].seen.failures
  {
    hide Step;
    if i < j { FailuresGrow(bs, events, options, i, j - 1); }
  }

  /** A cycle of a bridge that has failed closed goes on with its messages exactly if a stop has
      begun since the last failure and has not ended. */
  lemma AFailedCycleGoesOnExactlyWhileStopping(bs: seq<Bridge>, events: seq<Event>, options: Options, j: nat)
    requires IsRun(bs, events, options) && j < |bs| && bs[j].seen.FailedClosed() && bs[j].cycle == Some(CyclePoll)
    ensures Step(bs[j], CycleResumes(true, true), options).cycle.Some? <==> bs[j].state.Stopping?
    ensures Step(bs[j], CycleResumes(true, true), options).cycle.Some? <==>
            exists k: nat :: StopUnderWay(bs, events, k, j)
  {
    hide StopQueued, StopUnderWay, IsRun;
    RunKeepsInv(bs, events, options, j);
    StoppingExactlyWhile(bs, events, options, j);
  }

  const REVIVAL := [CallStart, BeginTask, TaskResumes(true, false), TaskResumes(true, false), TaskResumes(true, false),
                    TaskResumes(true, false), TaskResumes(true, false), TaskResumes(true, false), CallCycle(false),
                    RuntimeExits, CallStop(false), BeginTask]

  function After(events: seq<Event>, options: Options): Bridge {
    if events == [] then NEW else Step(After(events[..|events| - 1], options), events[|events| - 1], options)
  }

  lemma OneMoreEvent(events: seq<Event>, n: nat, options: Options)
    requires n < |events|
    ensures After(events[..n + 1], options) == Step(After(events[..n], options), events[n], options)
  {
    hide Step;
    assert events[..n + 1][..n] == events[..n];
  }

  lemma StatesOfARun(events: seq<Event>, options: Options)
    ensures IsRun(seq(|events| + 1, i requires 0 <= i <= |events| => After(events[..i], options)), events, options)
  {
    hide Step;
    var bs := seq(|events| + 1, i requires 0 <= i <= |events| => After(events[..i], options));
    forall i | 0 <= i < |events| ensures bs[i + 1] == Step(bs[i], events[i], options) {
      OneMoreEvent(events, i, options);
    }
  }

  /** A run in which that happens: a bridge starts, begins to poll, loses its runtime and is told
      to stop. While it is degraded the poll would end; once it is stopping, it goes on. */
  lemma AStopRevivesACycle()
    ensures var options := Options(false, false, false, false);
            var bs := seq(|REVIVAL| + 1, i requires 0 <= i <= |REVIVAL| => After(REVIVAL[..i], options));
            && IsRun(bs, REVIVAL, options)
            && bs[10].state.Degraded? && bs[10].cycle == Some(CyclePoll)
            && Step(bs[10], CycleResumes(true, true), options).cycle.None?
            && bs[12].seen.FailedClosed() && bs[12].cycle == Some(CyclePoll)
            && Step(bs[12], CycleResumes(true, true), options).cycle == Some(CyclePoll)
  {
    hide IsRun, Step, After;
    var options := Options(false, false, false, false);
    StatesOfARun(REVIVAL, options);
    Launched(options);
    FailedAndStopping(After(REVIVAL[..8], options), options);
    OneMoreEvent(REVIVAL, 8, options);
    OneMoreEvent(REVIVAL, 9, options);
    OneMoreEvent(REVIVAL, 10, options);
    OneMoreEvent(REVIVAL, 11, options);
  }

  /** A start without a hitch: eight steps to a running bridge. */
  lemma Launched(options: Options)
    requires options == Options(false, false, false, false)
    ensures var b := After(REVIVAL[..8], options);
            b.state.Running? && b.cycle.None? && b.active.NoTask? && b.queue == [] && !b.stopPromise
  {
    hide After, Grows;
    AfterNothing(options);
    OneMoreEvent(REVIVAL, 0, options);
    OneMoreEvent(REVIVAL, 1, options);
    assert ([] + [StartTask])[1..] == [];
    var starting := BeginStart(NEW);
    assert After(REVIVAL[..2], options) == starting;
    OneMoreEvent(REVIVAL, 2, options);
    var sent := SendRegister(starting);
    assert After(REVIVAL[..3], options) == sent;
    OneMoreEvent(REVIVAL, 3, options);
    var known := sent.(registration := true, lifecycle := Registered, active := Start(RecordRegistration));
    assert After(REVIVAL[..4], options) == known;
    OneMoreEvent(REVIVAL, 4, options);
    OneMoreEvent(REVIVAL, 5, options);
    OneMoreEvent(REVIVAL, 6, options);
    var running := known.(state := Running, active := Start(FirstPoll));
    assert After(REVIVAL[..7], options) == running;
    OneMoreEvent(REVIVAL, 7, options);
  }

  lemma AfterNothing(options: Options)
    ensures After(REVIVAL[..0], options) == NEW
  {
  }

  lemma FailedAndStopping(b: Bridge, options: Options)
    requires b.state.Running? && b.cycle.None? && b.active.NoTask? && b.queue == [] && !b.stopPromise
    ensures var failed := Step(Step(b, CallCycle(false), options), RuntimeExits, options);
            var stopping := Step(Step(failed, CallStop(false), options), BeginTask, options);
            && failed.state.Degraded? && failed.cycle == Some(CyclePoll)
            && Step(failed, CycleResumes(true, true), options).cycle.None?
            && stopping.seen.FailedClosed() && stopping.cycle == Some(CyclePoll)
            && Step(stopping, CycleResumes(true, true), options).cycle == Some(CyclePoll)
  {
    hide Grows;
    assert ([] + [StopTask(false)])[1..] == [];
  }
}
