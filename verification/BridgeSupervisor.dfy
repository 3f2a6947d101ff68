/** The supervisor object: its methods, each up to the next await, and the continuations that
    follow one. Every call and continuation is proved to be the step of BridgeLifecycle that it
    stands for, and to keep the lifecycle invariant and what a caller may rely on. */
module BridgeSupervisor {
  import opened Wrappers
  import opened BridgeLifecycle

  class Supervisor {
    const options: Options
    var stateValue: BridgeState
    var brokerLifecycle: BrokerLifecycle
    var registration: bool
    var stopRequested: bool
    var startupInProgress: bool
    var startupFailure: bool
    var cyclePromise: Option<CycleWait>
    var inFlightOperations: map<nat, OperationWait>
    var lifecycleTail: seq<Task>
    var active: Active
    var stopPromise: bool
    var stopSettled: bool
    ghost var seen: Seen

    ghost function Vars(): Bridge
      reads this
    {
      Bridge(stateValue, brokerLifecycle, registration, stopRequested, startupInProgress, startupFailure, cyclePromise,
             inFlightOperations, lifecycleTail, active, stopPromise, stopSettled, seen)
    }

    ghost predicate Good()
      reads this
    {
      Inv(Vars())
    }

    constructor (options: Options)
      ensures Vars() == NEW && Good() && Promises(Vars()) && this.options == options
    {
      this.options := options;
      stateValue, brokerLifecycle, registration, stopRequested := Idle, NotAttempted, false, false;
      startupInProgress, startupFailure, cyclePromise, inFlightOperations := false, false, None, map[];
      lifecycleTail, active, stopPromise, stopSettled, seen :=
        [], NoTask, false, false, Seen(false, 0, false, 0, false);
    }

    method FailClosed()
      requires Good() && !stateValue.Stopped?
      modifies this`startupFailure, this`brokerLifecycle, this`stateValue, this`seen
      ensures Vars() == BridgeLifecycle.FailClosed(old(Vars()))
      ensures Good() && Promises(Vars()) && !stateValue.Running?
    {
      hide Inv, Promises;
      FailClosedKeepsInv(Vars());
      InvPromises(BridgeLifecycle.FailClosed(Vars()));
      if startupInProgress && !startupFailure { startupFailure := true; }
      brokerLifecycle := Unknown;
      stateValue := Degraded;
      seen := seen.(failures := seen.failures + 1);
    }

    // ----- start -----

    method CallStart()
      requires Good()
      modifies this
      ensures Vars() == Step(old(Vars()), Event.CallStart, options)
      ensures Good() && Promises(Vars())
      ensures seen.unregistersSent == old(seen.unregistersSent)
    {
      hide Inv, Promises;
      StepKeepsPromises(Vars(), Event.CallStart, options);
      lifecycleTail := lifecycleTail + [StartTask];
    }

    method PerformStart()
      requires Good() && active.NoTask?
      modifies this
      ensures Vars() == BeginStart(old(Vars()))
      ensures Good()
    {
      hide Inv;
      BeginStartKeepsInv(Vars());
      if !stateValue.Idle? {
        active := NoTask;
        return;
      }
      startupInProgress := true;
      startupFailure := false;
      stateValue := Starting;
      active := Start(HeartbeatTimeout);
    }

    method StartFails()
      requires Good() && active.Start? && !active.startWait.CloseAfterFailure?
      modifies this`brokerLifecycle, this`active
      ensures Vars() == BridgeLifecycle.StartFails(old(Vars()))
      ensures Good()
    {
      hide Inv;
      StartFailsKeepsInv(Vars());
      if registration { brokerLifecycle := Unknown; }
      active := Start(if stateValue.Degraded? && startupFailure then RecordUnknown else RecordFailure);
    }

    method StartEnds()
      requires Good() && active.Start? && !stateValue.Starting?
      modifies this`startupInProgress, this`active
      ensures Vars() == BridgeLifecycle.StartEnds(old(Vars()))
      ensures Good()
    {
      hide Inv;
      StartEndsKeepsInv(Vars(), stateValue);
      startupInProgress := false;
      active := NoTask;
    }

    method SendRegister()
      requires Good() && (active == Start(HeartbeatTimeout) || active == Start(WriteMarker))
               && Healthy(startupFailure, stateValue)
      modifies this`brokerLifecycle, this`seen, this`active
      ensures Vars() == BridgeLifecycle.SendRegister(old(Vars()))
      ensures Good()
    {
      hide Inv;
      SendRegisterKeepsInv(Vars(), options);
      brokerLifecycle := Unknown;
      seen := seen.(registerSent := true);
      active := Start(Register);
    }

    method RegistrationArrives()
      requires Good() && active == Start(Register)
      modifies this`registration, this`brokerLifecycle, this`active
      ensures Vars() == BridgeLifecycle.RegistrationArrives(old(Vars()), options)
      ensures Good()
    {
      hide Inv, Grows;
      ArrivalKeepsInv(Vars(), options);
      registration := true;
      brokerLifecycle := Registered;
      if !Healthy(startupFailure, stateValue) {
        brokerLifecycle := Unknown;
        active := Start(if stateValue.Degraded? && startupFailure then RecordUnknown else RecordFailure);
      } else {
        active := Start(if options.privateCallback then PrivateCallback else RecordRegistration);
      }
    }

    method AfterFailure()
      requires Good() && active == Start(RecordFailure)
      modifies this`stateValue, this`startupInProgress, this`active, this`seen
      ensures Vars() == BridgeLifecycle.AfterFailure(old(Vars()), options)
      ensures Good()
    {
      hide Inv, BridgeLifecycle.StartEnds, Grows;
      AfterFailureKeepsInv(Vars(), options);
      if options.ownsClient && !registration {
        seen := seen.(clientClosed := true);
        active := Start(CloseAfterFailure);
      } else {
        FailedKeepsInv(Vars());
        stateValue := Failed;
        StartEnds();
      }
    }

    method StartWaits(ok: bool, next: StartWait)
      requires Good() && active.Start? && Follows(active.startWait, next)
      modifies this`brokerLifecycle, this`active
      ensures Vars() == BridgeLifecycle.StartWaits(old(Vars()), ok, next)
      ensures Good()
    {
      hide Inv, BridgeLifecycle.StartFails, Healthy;
      StartWaitsKeepsInv(Vars(), ok, options, next);
      if !ok || !Healthy(startupFailure, stateValue) { StartFails(); } else { active := Start(next); }
    }

    method StartRegisters(ok: bool)
      requires Good() && (active == Start(HeartbeatTimeout) || active == Start(WriteMarker))
      modifies this`brokerLifecycle, this`active, this`seen
      ensures Vars() == BridgeLifecycle.StartRegisters(old(Vars()), ok)
      ensures Good()
    {
      hide Inv, BridgeLifecycle.StartFails, BridgeLifecycle.SendRegister, Healthy, Grows;
      StartRegistersKeepsInv(Vars(), ok, options);
      if !ok || !Healthy(startupFailure, stateValue) { StartFails(); } else { SendRegister(); }
    }

    method NowRunning()
      requires Good() && active == Start(RecordHeartbeat) && Healthy(startupFailure, stateValue)
      modifies this`stateValue, this`startupInProgress, this`active
      ensures Vars() == BridgeLifecycle.NowRunning(old(Vars()))
      ensures Good()
    {
      hide Inv, BridgeLifecycle.StartEnds;
      RunningKeepsInv(Vars());
      RunningIsSound(Vars());
      stateValue := Running;
      if stopRequested { StartEnds(); } else { active := Start(FirstPoll); }
    }

    method ContinueStart(wait: StartWait, ok: bool, more: bool)
      requires Good() && active == Start(wait)
      modifies this`stateValue, this`brokerLifecycle, this`registration, this`startupInProgress, this`active, this`seen
      ensures Vars() == ResumeStart(old(Vars()), wait, ok, more, options)
      ensures Good() && seen.unregistersSent == old(seen.unregistersSent)
    {
      hide Inv, BridgeLifecycle.StartFails, BridgeLifecycle.StartEnds, BridgeLifecycle.StartWaits,
           BridgeLifecycle.StartRegisters, BridgeLifecycle.RegistrationArrives, BridgeLifecycle.NowRunning,
           BridgeLifecycle.AfterFailure, Healthy, Applicable, CanContinueCycle, Grows;
      StartKeepsInv(Vars(), wait, ok, more, options);
      StartFacts(Vars(), wait);
      match wait {
        case HeartbeatTimeout =>
          if options.ownership { StartWaits(ok, ReadMarker); } else { StartRegisters(ok); }
        case ReadMarker => StartWaits(ok, WriteMarker);
        case WriteMarker => StartRegisters(ok);
        case Register =>
          if !ok { StartFails(); } else { RegistrationArrives(); }
        case PrivateCallback => StartWaits(ok, RecordRegistration);
        case RecordRegistration => StartWaits(ok, FirstHeartbeat);
        case FirstHeartbeat =>
          if !ok || !Applicable(stateValue) { StartFails(); return; }
          brokerLifecycle := Registered;
          active := Start(RecordHeartbeat);
        case RecordHeartbeat =>
          if !ok || !Applicable(stateValue) || !Healthy(startupFailure, stateValue) {
            StartFails();
          } else {
            NowRunning();
          }
        case FirstPoll =>
          if !ok { StartFails(); return; }
          if more && CanContinueCycle(stateValue) { return; }
          if !Healthy(startupFailure, stateValue) { StartFails(); } else { StartEnds(); }
        case RecordUnknown => StartEnds();
        case RecordFailure => AfterFailure();
        case CloseAfterFailure =>
          FailedKeepsInv(Vars());
          stateValue := Failed;
          StartEnds();
      }
    }

    // ----- stop -----

    method RequestStop(force: bool)
      modifies this
      ensures Vars() == BridgeLifecycle.RequestStop(old(Vars()), force)
    {
      stopRequested := true;
      stopPromise := true;
      lifecycleTail := lifecycleTail + [StopTask(force)];
    }

    method CallStop(force: bool)
      requires Good()
      modifies this
      ensures Vars() == Step(old(Vars()), Event.CallStop(force), options)
      ensures Good() && Promises(Vars())
      ensures seen.unregistersSent == old(seen.unregistersSent)
    {
      hide Inv, Promises;
      StepKeepsPromises(Vars(), Event.CallStop(force), options);
      if !stopPromise { RequestStop(force); }
    }

    /** A forced stop that waited for an earlier one asks again if the row is still there. */
    method ForcedStopAgain()
      requires Good()
      modifies this
      ensures Vars() == Step(old(Vars()), Event.ForcedStopAgain, options)
      ensures Good() && Promises(Vars())
      ensures seen.unregistersSent == old(seen.unregistersSent)
    {
      hide Inv, Promises;
      StepKeepsPromises(Vars(), Event.ForcedStopAgain, options);
      if stopSettled && registration && !brokerLifecycle.Unregistered? { RequestStop(true); }
    }

    method PerformStop(force: bool)
      requires Good() && active.NoTask? && stopRequested
      modifies this
      ensures Vars() == BeginStop(old(Vars()), force)
      ensures Good()
    {
      hide Inv;
      BeginStopKeepsInv(Vars(), force);
      if stateValue.Stopped? {
        active := NoTask;
        stopSettled := true;
        return;
      }
      var stateBeforeStopping := stateValue;
      if !stateValue.Idle? && !stateValue.Failed? { stateValue := Stopping; }
      active := Stop(force, stateBeforeStopping, if cyclePromise.Some? then Cycle else Operations);
    }

    method FinishStop(clean: bool)
      requires Good() && PastWaits(Vars()) && (clean ==> !seen.registerSent || seen.acknowledged)
      modifies this`stateValue, this`active, this`stopSettled
      ensures Vars() == BridgeLifecycle.FinishStop(old(Vars()), clean)
      ensures Good()
    {
      hide Inv;
      FinishKeepsInv(Vars(), clean);
      stateValue := if clean then Stopped else Degraded;
      active := NoTask;
      stopSettled := true;
    }

    method JudgeStop(force: bool, before: BridgeState, clean: bool)
      requires Good() && PastWaits(Vars()) && active.before == before
      modifies this`stateValue, this`active, this`stopSettled
      ensures Vars() == BridgeLifecycle.JudgeStop(old(Vars()), force, before, clean, options)
      ensures Good()
    {
      hide Inv, BridgeLifecycle.FinishStop, BrokerClean, Grows;
      JudgeKeepsInv(Vars(), force, before, clean, options);
      JudgementIsRight(Vars());
      var brokerClean := BrokerClean(registration, brokerLifecycle);
      ghost var b := Vars();
      if options.ownership {
        active := Stop(force, before, RecordStop(clean, brokerClean));
        assert Vars() == b.(active := Stop(force, before, RecordStop(clean, brokerClean)));
      } else {
        FinishStop(clean && brokerClean);
      }
    }

    method CloseOwnedClient(force: bool, before: BridgeState, clean: bool)
      requires Good() && PastWaits(Vars()) && active.before == before
      modifies this`stateValue, this`active, this`stopSettled, this`seen
      ensures Vars() == BridgeLifecycle.CloseOwnedClient(old(Vars()), force, before, clean, options)
      ensures Good()
    {
      hide Inv, BridgeLifecycle.JudgeStop, Grows, NoRowKnown;
      CloseKeepsInv(Vars(), force, before, clean, options);
      if options.ownsClient && NoRowKnown(registration, brokerLifecycle) {
        seen := seen.(clientClosed := true);
        active := Stop(force, before, CloseClient(clean));
      } else {
        JudgeStop(force, before, clean);
      }
    }

    method CloseOwnedRuntime(force: bool, before: BridgeState, clean: bool)
      requires Good() && PastWaits(Vars()) && active.before == before
      modifies this`stateValue, this`active, this`stopSettled, this`seen
      ensures Vars() == BridgeLifecycle.CloseOwnedRuntime(old(Vars()), force, before, clean, options)
      ensures Good()
    {
      hide Inv, BridgeLifecycle.CloseOwnedClient;
      CloseKeepsInv(Vars(), force, before, clean, options);
      if options.closesRuntime {
        active := Stop(force, before, CloseRuntime(clean));
      } else {
        CloseOwnedClient(force, before, clean);
      }
    }

    method DecideStop(force: bool, before: BridgeState)
      requires Good() && PastWaits(Vars()) && active == Stop(force, before, Operations)
      modifies this`stateValue, this`active, this`stopSettled, this`seen
      ensures Vars() == BridgeLifecycle.DecideStop(old(Vars()), force, before, options)
      ensures Good()
    {
      hide Inv, BridgeLifecycle.CloseOwnedRuntime;
      DecideKeepsInv(Vars(), force, before, options);
      if ShouldUnregister(registration, stateValue, force, before) {
        seen := seen.(unregistersSent := seen.unregistersSent + 1);
        active := Stop(force, before, Unregister);
      } else {
        CloseOwnedRuntime(force, before, !registration || brokerLifecycle.Unregistered?);
      }
    }

    method AnswerUnregister(ok: bool)
      requires Good() && active.Stop? && active.stopWait.Unregister?
      modifies this`brokerLifecycle, this`seen
      ensures Vars() == BridgeLifecycle.AnswerUnregister(old(Vars()), ok)
      ensures Good()
    {
      hide Inv;
      AnswerKeepsInv(Vars(), ok);
      brokerLifecycle := if ok then Unregistered else Unknown;
      seen := seen.(acknowledged := seen.acknowledged || ok);
    }

    /** An unregister is sent only when all work is done, and after a failure only if it is forced;
      `stopped` is reported only with no row left. */
    method ContinueStop(force: bool, before: BridgeState, wait: StopWait, ok: bool)
      requires Good() && active == Stop(force, before, wait)
      modifies this`stateValue, this`brokerLifecycle, this`active, this`stopSettled, this`seen
      ensures Vars() == ResumeStop(old(Vars()), force, before, wait, ok, options)
      ensures Good() && Promises(Vars())
      ensures seen.unregistersSent != old(seen.unregistersSent) ==>
                old(cyclePromise.None? && inFlightOperations == map[] && registration)
                && (old(seen.FailedClosed()) ==> force)
    {
      hide Inv, Promises, BridgeLifecycle.CloseOwnedRuntime, BridgeLifecycle.CloseOwnedClient,
           BridgeLifecycle.JudgeStop, BridgeLifecycle.FinishStop, BridgeLifecycle.DecideStop,
           BridgeLifecycle.AnswerUnregister, Grows;
      StopSegmentPromises(Vars(), force, before, wait, ok, options);
      StopFacts(Vars(), wait);
      match wait {
        case Cycle =>
          if cyclePromise.None? { active := Stop(force, before, Operations); }
        case Operations =>
          if inFlightOperations == map[] { DecideStop(force, before); }
        case Unregister =>
          AnswerUnregister(ok);
          CloseOwnedRuntime(force, before, ok);
        case CloseRuntime(clean) => CloseOwnedClient(force, before, clean && ok);
        case CloseClient(clean) => JudgeStop(force, before, clean);
        case RecordStop(clean, brokerClean) => FinishStop(clean && ok && brokerClean);
      }
    }

    // ----- the queue of lifecycle operations -----

    method BeginTask()
      requires Good()
      modifies this
      ensures Vars() == Step(old(Vars()), Event.BeginTask, options)
      ensures Good() && Promises(Vars())
      ensures seen.unregistersSent == old(seen.unregistersSent)
    {
      hide Inv, Promises, BeginStart, BeginStop, ResumeStart, ResumeStop, ResumeCycle, ResumeOperation, BeginOperation,
           Grows, BridgeLifecycle.FailClosed, BridgeLifecycle.RequestStop, Enqueue;
      StepKeepsPromises(Vars(), Event.BeginTask, options);
      if active.NoTask? && lifecycleTail != [] {
        PopKeepsInv(Vars());
        var task := lifecycleTail[0];
        lifecycleTail := lifecycleTail[1..];
        match task {
          case StartTask => PerformStart();
          case StopTask(force) => PerformStop(force);
        }
      }
    }

    method ContinueTask(ok: bool, more: bool)
      requires Good()
      modifies this
      ensures Vars() == Step(old(Vars()), TaskResumes(ok, more), options)
      ensures Good() && Promises(Vars())
      ensures seen.unregistersSent != old(seen.unregistersSent) ==>
                old(active.Stop? && cyclePromise.None? && inFlightOperations == map[] && registration)
                && (old(seen.FailedClosed()) ==> old(active).force)
    {
      hide Inv, Promises, ResumeStart, ResumeStop;
      StepKeepsPromises(Vars(), TaskResumes(ok, more), options);
      if SendsUnregister(Vars(), TaskResumes(ok, more), options) {
        WhenUnregisterIsSent(Vars(), TaskResumes(ok, more), options);
      }
      match active {
        case NoTask => {}
        case Start(wait) => ContinueStart(wait, ok, more);
        case Stop(force, before, wait) => ContinueStop(force, before, wait, ok);
      }
    }

    // ----- cycles and tracked calls -----

    method RunCycle(heartbeatDue: bool)
      requires Good()
      modifies this
      ensures Vars() == Step(old(Vars()), CallCycle(heartbeatDue), options)
      ensures Good() && Promises(Vars())
      ensures seen.unregistersSent == old(seen.unregistersSent)
    {
      hide Inv, Promises;
      StepKeepsPromises(Vars(), CallCycle(heartbeatDue), options);
      if !stateValue.Running? { return; }
      if cyclePromise.None? { cyclePromise := Some(if heartbeatDue then CycleHeartbeat else CyclePoll); }
    }

    method CycleFails()
      requires Good() && cyclePromise.Some?
      modifies this
      ensures Vars() == BridgeLifecycle.CycleFails(old(Vars())) && Good()
    {
      hide Inv;
      CycleFailsKeepsInv(Vars());
      WorkMeansNotStopped(Vars());
      FailClosed();
      cyclePromise := Some(CycleFailing);
    }

    method CycleSettles(wait: CycleWait, ok: bool, more: bool)
      requires Good() && cyclePromise == Some(wait)
      modifies this
      ensures Vars() == ResumeCycle(old(Vars()), wait, ok, more)
    {
      hide Inv, BridgeLifecycle.CycleFails, Grows;
      match wait {
        case CycleHeartbeat =>
          if !ok || !Applicable(stateValue) { CycleFails(); return; }
          brokerLifecycle := Registered;
          cyclePromise := Some(CycleRecord);
        case CycleRecord =>
          if !ok || !Applicable(stateValue) { CycleFails(); return; }
          cyclePromise := if stateValue.Running? then Some(CyclePoll) else None;
        case CyclePoll =>
          if !ok { CycleFails(); return; }
          if more && CanContinueCycle(stateValue) { return; }
          cyclePromise := None;
        case CycleFailing => cyclePromise := None;
      }
    }

    method ContinueCycle(ok: bool, more: bool)
      requires Good()
      modifies this
      ensures Vars() == Step(old(Vars()), CycleResumes(ok, more), options)
      ensures Good() && Promises(Vars())
      ensures seen.unregistersSent == old(seen.unregistersSent)
    {
      hide Inv, Promises, ResumeCycle;
      StepKeepsPromises(Vars(), CycleResumes(ok, more), options);
      if cyclePromise.Some? { CycleSettles(cyclePromise.value, ok, more); }
    }

    method TrackOperation(id: nat, more: bool)
      requires Good()
      modifies this
      ensures Vars() == Step(old(Vars()), CallOperation(id, more), options)
      ensures Good() && Promises(Vars())
      ensures seen.unregistersSent == old(seen.unregistersSent)
    {
      hide Inv, Promises;
      StepKeepsPromises(Vars(), CallOperation(id, more), options);
      if stopRequested || id in inFlightOperations { return; }
      if !stateValue.Running? && (more || !stateValue.Starting?) { return; }
      if registration {
        inFlightOperations := inFlightOperations[id := CallHeartbeat(more)];
      } else if !more {
        inFlightOperations := inFlightOperations[id := CallUnregistered];
      }
    }

    method OperationFails(id: nat)
      requires Good() && id in inFlightOperations
      modifies this
      ensures Vars() == BridgeLifecycle.OperationFails(old(Vars()), id) && Good()
    {
      hide Inv, Promises, BridgeLifecycle.FailClosed, Grows;
      OperationFailsKeepsInv(Vars(), id);
      if stateValue.Running? || stateValue.Starting? {
        FailClosed();
        inFlightOperations := inFlightOperations[id := CallFailing];
      } else {
        inFlightOperations := inFlightOperations - {id};
      }
    }

    method OperationSettles(id: nat, wait: OperationWait, ok: bool)
      requires Good() && id in inFlightOperations && inFlightOperations[id] == wait
      modifies this
      ensures Vars() == ResumeOperation(old(Vars()), id, wait, ok)
    {
      hide Inv, BridgeLifecycle.OperationFails, Grows;
      if wait.CallUnregistered? || (!wait.CallFailing? && (!ok || !Applicable(stateValue))) {
        OperationFails(id);
        return;
      }
      match wait {
        case CallHeartbeat(more) =>
          brokerLifecycle := Registered;
          inFlightOperations := inFlightOperations[id := CallRecord(more)];
        case CallRecord(more) =>
          inFlightOperations := if more then inFlightOperations[id := CallBroker] else inFlightOperations - {id};
        case CallBroker => inFlightOperations := inFlightOperations - {id};
        case CallFailing => inFlightOperations := inFlightOperations - {id};
      }
    }

    method ContinueOperation(id: nat, ok: bool)
      requires Good()
      modifies this
      ensures Vars() == Step(old(Vars()), OperationResumes(id, ok), options)
      ensures Good() && Promises(Vars())
      ensures seen.unregistersSent == old(seen.unregistersSent)
    {
      hide Inv, Promises, ResumeOperation;
      StepKeepsPromises(Vars(), OperationResumes(id, ok), options);
      if id in inFlightOperations { OperationSettles(id, inFlightOperations[id], ok); }
    }

    method NotifyRuntimeExit()
      requires Good()
      modifies this
      ensures Vars() == Step(old(Vars()), RuntimeExits, options)
      ensures Good() && Promises(Vars())
      ensures seen.unregistersSent == old(seen.unregistersSent)
    {
      hide Inv, Promises;
      StepKeepsPromises(Vars(), RuntimeExits, options);
      if stateValue.Stopped? || stateValue.Failed? { return; }
      FailClosed();
    }
  }
}
