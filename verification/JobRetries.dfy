/** Retrying accepted job requests. A create or append may be sent again at any later point
    without a trace in the tables, exactly as long as maintenance has kept what it made. */
module JobRetries {
  import opened Wrappers
  import opened JobLog

  datatype Timed = At(now: Millis, op: Op)

  ghost function Play(db: Db, ops: seq<Timed>): Db {
    if ops == [] then db
    else Step(Play(db, ops[..|ops| - 1]), ops[|ops| - 1].now, ops[|ops| - 1].op).db
  }

  ghost function ReplyAt(db: Db, ops: seq<Timed>, i: nat): Reply
    requires i < |ops|
  {
    Step(Play(db, ops[..i]), ops[i].now, ops[i].op).reply
  }

  predicate Accepted(reply: Reply) { reply.JobReply? || reply.EventReply? }

  /** The same request sent by the same caller; the time, what authentication answers and, for a
      create, where the caller is registered by then may differ. */
  predicate SameRequest(a: Op, b: Op) {
    match (a, b)
    case (Create(owner, _, _, _, job), Create(owner', _, _, _, job')) => owner == owner' && job == job'
    case (Append(owner, _, target, event), Append(owner', _, target', event')) =>
      owner == owner' && target == target' && event == event'
    case _ => false
  }

  /** The caller is registered where it was. */
  predicate SamePlace(a: Op, b: Op) {
    a.Create? && b.Create? ==> a.repository == b.repository && a.worktree == b.worktree
  }

  /** The tables already hold what `op` asks for, stored as `found`. */
  ghost predicate Served(db: Db, op: Op, found: Reply) {
    match op
    case Create(owner, _, repository, worktree, input) =>
      && found.JobReply? && JobOf(db, owner, input.key) == Some(found.job)
      && found.job in db.jobs && SameJob(db.jobs[found.job], repository, worktree, input)
    case Append(owner, _, target, input) =>
      && found.EventReply? && input.Acceptable() && target in db.jobs && db.jobs[target].owner == owner
      && FindEvent(db.events, target, input.key) == Some(found.event) && SameEvent(found.event, input)
    case _ => false
  }

  lemma ServedIsANoOp(db: Db, now: Millis, op: Op, found: Reply)
    requires Served(db, op, found)
    ensures Step(db, now, op).db == db
    ensures (op.Create? || op.Append?) && op.denied.None? ==>
            Step(db, now, op).reply == if op.Append? then found else JobReply(found.job, db.jobs[found.job])
  {
  }

  /** What the tables say of an accepted request from then on: its job, while it lasts, is the
      one that was made, except that maintenance may have cleared its parent. */
  ghost predicate Remembered(db: Db, op: Op, found: Reply) {
    match op
    case Create(owner, _, repository, worktree, input) =>
      && found.JobReply? && found.job < db.nextId
      && (found.job in db.jobs ==>
            var row := db.jobs[found.job];
            && row.owner == owner && row.createKey == input.key
            && (row.parent == input.parent || row.parent == None)
            && SameJob(row.(parent := input.parent), repository, worktree, input))
    case Append(owner, _, target, input) =>
      && found.EventReply? && target < db.nextId && input.Acceptable() && SameEvent(found.event, input)
      && (target in db.jobs ==>
            db.jobs[target].owner == owner && FindEvent(db.events, target, input.key) == Some(found.event))
    case _ => false
  }

  /** Maintenance has neither deleted the job nor cleared the parent the request names. */
  ghost predicate Kept(db: Db, op: Op, found: Reply) {
    match op
    case Create(_, _, _, _, input) =>
      found.JobReply? && found.job in db.jobs && db.jobs[found.job].parent == input.parent
    case Append(_, _, target, _) => target in db.jobs
    case _ => false
  }

  lemma AcceptedIsRemembered(db: Db, now: Millis, op: Op)
    requires Valid(db) && Accepted(Step(db, now, op).reply)
    ensures Remembered(Step(db, now, op).db, op, Step(db, now, op).reply)
    ensures Kept(Step(db, now, op).db, op, Step(db, now, op).reply)
  {
    hide LogIsSound;
    var effect := Step(db, now, op);
    if effect.db != db && op.Append? {
      assert effect.db.events[..|db.events|] == db.events;
    }
    if op.Create? { JobOfIsAJob(db, op.owner, op.job.key); }
  }

  lemma RememberedAndKeptIsServed(db: Db, op: Op, found: Reply)
    requires Valid(db) && Remembered(db, op, found)
    ensures Served(db, op, found) <==> Kept(db, op, found)
  {
    hide LogIsSound;
    if op.Create? && found.job in db.jobs { KeyFindsJob(db, found.job); }
  }

  lemma KeyFindsJob(db: Db, id: Id)
    requires OneJobPerKey(db) && id in db.jobs
    ensures JobOf(db, db.jobs[id].owner, db.jobs[id].createKey) == Some(id)
  {
    assert IsJobOf(db, id, db.jobs[id].owner, db.jobs[id].createKey);
  }

  /** Apart from maintenance, a step only adds events, and keeps what a job was created with. */
  lemma StepsOnlyAdd(db: Db, now: Millis, other: Op)
    requires !other.Maintain?
    ensures db.events <= Step(db, now, other).db.events
    ensures |Step(db, now, other).db.events| <= |db.events| + 1
  {
  }

  lemma StepsKeepCreation(db: Db, now: Millis, other: Op, id: Id)
    requires !other.Maintain? && id in db.jobs && id < db.nextId
    ensures var jobs := Step(db, now, other).db.jobs;
            && id in jobs && jobs[id] == db.jobs[id].(status := jobs[id].status, updatedAt := jobs[id].updatedAt,
                                                      lastCursor := jobs[id].lastCursor,
                                                      lastSequence := jobs[id].lastSequence,
                                                      completedAt := jobs[id].completedAt)
  {
    hide FindEvent;
  }

  lemma {:induction false} KeptEventIsFound(events: seq<EventRow>, jobs: map<Id, Job>, job: Id, key: string)
    requires job in jobs
    ensures FindEvent(KeepEvents(events, jobs), job, key) == FindEvent(events, job, key)
  {
    if events != [] {
      var init, last := events[..|events| - 1], events[|events| - 1];
      KeptEventIsFound(init, jobs, job, key);
      if last.job in jobs {
        assert KeepEvents(events, jobs)[..|KeepEvents(init, jobs)|] == KeepEvents(init, jobs);
      } else {
        assert KeepEvents(events, jobs) == KeepEvents(init, jobs);
      }
    }
  }

  /** A job once deleted does not come back. */
  lemma JobsAreNew(db: Db, now: Millis, other: Op, id: Id)
    requires id < db.nextId && id !in db.jobs
    ensures id !in Step(db, now, other).db.jobs
  {
    hide FindEvent, KeepEvents, KeepAudit;
  }

  lemma IdsGrow(db: Db, now: Millis, other: Op)
    ensures db.nextId <= Step(db, now, other).db.nextId
  {
    hide FindEvent, KeepEvents, KeepAudit;
  }

  lemma MaintenanceKeepsCreation(db: Db, jobsBefore: Millis, id: Id)
    requires id in KeepJobs(db.jobs, jobsBefore)
    ensures var kept := KeepJobs(db.jobs, jobsBefore);
            && kept[id] == db.jobs[id].(parent := kept[id].parent)
            && (kept[id].parent == db.jobs[id].parent || kept[id].parent == None)
  {
  }

  lemma RememberedStays(db: Db, now: Millis, other: Op, op: Op, found: Reply)
    requires Valid(db) && Remembered(db, op, found)
    ensures Remembered(Step(db, now, other).db, op, found)
  {
    hide LogIsSound, Step, EventInput.Acceptable;
    IdsGrow(db, now, other);
    if other.Maintain? {
      RememberedStaysAtMaintenance(db, now, other, op, found);
    } else if op.Append? {
      if op.target in db.jobs {
        var after := Step(db, now, other).db;
        StepsKeepCreation(db, now, other, op.target);
        StepsOnlyAdd(db, now, other);
        if after.events != db.events { assert after.events[..|after.events| - 1] == db.events; }
      } else {
        JobsAreNew(db, now, other, op.target);
      }
    } else {
      if found.job in db.jobs {
        StepsKeepCreation(db, now, other, found.job);
      } else {
        JobsAreNew(db, now, other, found.job);
      }
    }
  }

  lemma RememberedStaysAtMaintenance(db: Db, now: Millis, other: Op, op: Op, found: Reply)
    requires Remembered(db, op, found) && other.Maintain?
    ensures Remembered(Step(db, now, other).db, op, found)
  {
    hide FindEvent, KeepEvents, KeepAudit, EventInput.Acceptable;
    var kept := KeepJobs(db.jobs, other.jobsBefore);
    if op.Append? {
      if op.target in kept {
        MaintenanceKeepsCreation(db, other.jobsBefore, op.target);
        KeptEventIsFound(db.events, kept, op.target, op.event.key);
      }
    } else {
      if found.job in kept { MaintenanceKeepsCreation(db, other.jobsBefore, found.job); }
    }
  }

  /** Only maintenance can make the tables lose what a request made. */
  lemma OnlyMaintenanceForgets(db: Db, now: Millis, other: Op, op: Op, found: Reply)
    requires Valid(db) && Remembered(db, op, found) && Kept(db, op, found) && !other.Maintain?
    ensures Kept(Step(db, now, other).db, op, found)
  {
    hide LogIsSound, Step;
    StepsKeepCreation(db, now, other, if op.Append? then op.target else found.job);
  }

  lemma JobOfIsAJob(db: Db, owner: Id, key: string)
    ensures var found := JobOf(db, owner, key); found.Some? ==> IsJobOf(db, found.value, owner, key)
  {
  }

  lemma {:induction false} PlayKeepsValid(db: Db, ops: seq<Timed>)
    requires Valid(db)
    ensures Valid(Play(db, ops))
  {
    hide Valid, Step;
    if ops != [] {
      PlayKeepsValid(db, ops[..|ops| - 1]);
      StepKeepsValid(Play(db, ops[..|ops| - 1]), ops[|ops| - 1].now, ops[|ops| - 1].op);
    }
  }

  /** What step `j` accepted is still remembered before step `i`. */
  lemma {:induction false} StillRemembered(db: Db, ops: seq<Timed>, j: nat, i: nat)
    requires Valid(db) && j < i <= |ops| && Accepted(ReplyAt(db, ops, j))
    ensures Remembered(Play(db, ops[..i]), ops[j].op, ReplyAt(db, ops, j))
    ensures (forall k :: j < k < i ==> !ops[k].op.Maintain?) ==>
              Kept(Play(db, ops[..i]), ops[j].op, ReplyAt(db, ops, j))
  {
    hide Valid, Step, Remembered, Kept;
    var before := ops[..i];
    assert before[..i - 1] == ops[..i - 1];
    PlayKeepsValid(db, ops[..i - 1]);
    if i == j + 1 {
      AcceptedIsRemembered(Play(db, ops[..j]), ops[j].now, ops[j].op);
    } else {
      StillRemembered(db, ops, j, i - 1);
      var last := ops[i - 1];
      RememberedStays(Play(db, ops[..i - 1]), last.now, last.op, ops[j].op, ReplyAt(db, ops, j));
      if forall k :: j < k < i ==> !ops[k].op.Maintain? {
        OnlyMaintenanceForgets(Play(db, ops[..i - 1]), last.now, last.op, ops[j].op, ReplyAt(db, ops, j));
      }
    }
  }

  /** Step `i` repeats the request that step `j` accepted. */
  ghost predicate Retries(db: Db, ops: seq<Timed>, i: nat, j: nat)
    requires i < |ops|
  {
    j < i && Accepted(ReplyAt(db, ops, j)) && SameRequest(ops[j].op, ops[i].op)
  }

  ghost predicate KeptUntil(db: Db, ops: seq<Timed>, i: nat, j: nat)
    requires i < |ops| && j < i
  {
    Kept(Play(db, ops[..i]), ops[j].op, ReplyAt(db, ops, j))
  }

  /** Step `i` is answered with the event, or the job, that step `j` was answered with. */
  ghost predicate AnsweredAlike(db: Db, ops: seq<Timed>, i: nat, j: nat)
    requires i < |ops| && j < i
  {
    var first, again := ReplyAt(db, ops, j), ReplyAt(db, ops, i);
    if first.EventReply? then again == first else first.JobReply? && again.JobReply? && again.job == first.job
  }

  /** A retry leaves no trace as long as what the request made is kept, even if the caller is
      registered elsewhere by then. */
  lemma KeptRetryIsANoOp(db: Db, ops: seq<Timed>, i: nat, j: nat)
    requires Valid(db) && i < |ops| && Retries(db, ops, i, j) && KeptUntil(db, ops, i, j)
    ensures Step(Play(db, ops[..i]), ops[i].now, ops[i].op).db == Play(db, ops[..i])
  {
    hide Valid, Step;
    PlayKeepsValid(db, ops[..i]);
    StillRemembered(db, ops, j, i);
    RememberedAndKeptIsServed(Play(db, ops[..i]), ops[j].op, ReplyAt(db, ops, j));
    ServedRequestIsANoOp(Play(db, ops[..i]), ops[i].now, ops[j].op, ops[i].op, ReplyAt(db, ops, j));
  }

  lemma ServedRequestIsANoOp(db: Db, now: Millis, op: Op, again: Op, found: Reply)
    requires Served(db, op, found) && SameRequest(op, again)
    ensures Step(db, now, again).db == db
  {
  }

  /** A retry that authenticates returns the original event, or the same job, exactly when what
      the request made is kept and the caller is registered where it was; it is kept if no
      maintenance ran in between. */
  lemma RetryReturnsTheOriginalExactlyWhenKept(db: Db, ops: seq<Timed>, i: nat, j: nat)
    requires Valid(db) && i < |ops| && Retries(db, ops, i, j) && ops[i].op.denied.None?
    ensures AnsweredAlike(db, ops, i, j) <==> KeptUntil(db, ops, i, j) && SamePlace(ops[j].op, ops[i].op)
    ensures (forall k :: j < k < i ==> !ops[k].op.Maintain?) ==> KeptUntil(db, ops, i, j)
  {
    hide Valid, Step;
    var state, found := Play(db, ops[..i]), ReplyAt(db, ops, j);
    PlayKeepsValid(db, ops[..i]);
    StillRemembered(db, ops, j, i);
    RememberedAndKeptIsServed(state, ops[j].op, found);
    if !KeptUntil(db, ops, i, j) {
      ForgottenIsNotReturned(state, ops[i].now, ops[j].op, ops[i].op, found);
    } else if SamePlace(ops[j].op, ops[i].op) {
      assert Served(state, ops[i].op, found);
      ServedIsANoOp(state, ops[i].now, ops[i].op, found);
    } else {
      MovedIsRefused(state, ops[i].now, ops[j].op, ops[i].op, found);
    }
  }

  lemma ForgottenIsNotReturned(db: Db, now: Millis, op: Op, again: Op, found: Reply)
    requires Valid(db) && Remembered(db, op, found) && !Kept(db, op, found) && SameRequest(op, again)
    ensures var reply := Step(db, now, again).reply;
            again.denied.None? ==> if op.Append? then reply == Err(NotFound)
                                   else !(reply.JobReply? && reply.job == found.job)
  {
    hide LogIsSound;
    if op.Create? {
      JobOfIsAJob(db, op.owner, op.job.key);
      if found.job in db.jobs { KeyFindsJob(db, found.job); }
    }
  }

  /** A create from another place than the first is refused. */
  lemma MovedIsRefused(db: Db, now: Millis, op: Op, again: Op, found: Reply)
    requires Served(db, op, found) && SameRequest(op, again) && !SamePlace(op, again)
    ensures again.denied.None? ==> Step(db, now, again).reply == Err(Conflict)
  {
  }

  /** The run without the marked steps. */
  function Erase(ops: seq<Timed>, marks: seq<bool>): seq<Timed>
    requires |marks| == |ops|
  {
    if ops == [] then []
    else Erase(ops[..|ops| - 1], marks[..|ops| - 1]) + (if marks[|ops| - 1] then [] else [ops[|ops| - 1]])
  }

  /** A run with retries ends in exactly the tables, cursors and identifiers included, of
      the run with those retries removed. */
  lemma {:induction false} RetriesLeaveNoTrace(db: Db, ops: seq<Timed>, marks: seq<bool>)
    requires Valid(db) && |marks| == |ops|
    requires forall i :: 0 <= i < |ops| && marks[i] ==>
               exists j: nat :: Retries(db, ops, i, j) && KeptUntil(db, ops, i, j)
    ensures Play(db, ops) == Play(db, Erase(ops, marks))
  {
    hide Valid, Step, Kept;
    if ops != [] {
      var n := |ops| - 1;
      var init := ops[..n];
      forall i | 0 <= i < n && marks[..n][i]
        ensures exists j: nat :: Retries(db, init, i, j) && KeptUntil(db, init, i, j) {
        var j: nat :| Retries(db, ops, i, j) && KeptUntil(db, ops, i, j);
        assert init[..j] == ops[..j] && init[..i] == ops[..i];
        assert Retries(db, init, i, j) && KeptUntil(db, init, i, j);
      }
      RetriesLeaveNoTrace(db, init, marks[..n]);
      if marks[n] {
        var j: nat :| Retries(db, ops, n, j) && KeptUntil(db, ops, n, j);
        KeptRetryIsANoOp(db, ops, n, j);
        assert Erase(ops, marks) == Erase(init, marks[..n]);
      } else {
        var erased := Erase(init, marks[..n]);
        assert (erased + [ops[n]])[..|erased|] == erased;
      }
    }
  }

  // ----- a retry that comes too late -----

  const CREATE := Create(7, None, "r", "w", JobInput("k", "build", "Build", None, None))
  const FINISH := Append(7, None, 0, EventInput("done", CompletedEvent, None, None, None))
  const LATE_RETRY := [At(0, CREATE), At(1, FINISH), At(9, Maintain(5, 5)), At(10, CREATE)]

  lemma PlayOneMore(db: Db, ops: seq<Timed>, i: nat)
    requires i < |ops|
    ensures Play(db, ops[..i + 1]) == Step(Play(db, ops[..i]), ops[i].now, ops[i].op).db
  {
    hide Step;
    assert ops[..i + 1][..i] == ops[..i];
  }

  lemma FirstIsCreated()
    ensures Step(EMPTY, 0, CREATE).reply.JobReply? && Step(EMPTY, 0, CREATE).reply.job == 0
    ensures Step(EMPTY, 0, CREATE).db.jobs == map[0 := CreatedRow(EMPTY, CREATE, 0)]
    ensures Step(EMPTY, 0, CREATE).db.nextId == 1 && FindEvent(Step(EMPTY, 0, CREATE).db.events, 0, "done").None?
  {
    assert JobOf(EMPTY, 7, "k").None?;
    assert Step(EMPTY, 0, CREATE).db.events[..0] == [];
  }

  lemma ThenFinished(db: Db)
    requires db.jobs == map[0 := CreatedRow(EMPTY, CREATE, 0)] && FindEvent(db.events, 0, "done").None?
    ensures var after := Step(db, 1, FINISH).db;
            after.nextId == db.nextId && after.jobs.Keys == {0} && after.jobs[0].status.Terminal()
            && after.jobs[0].completedAt == Some(1)
  {
    hide FindEvent;
  }

  lemma ThenPruned(db: Db)
    requires db.jobs.Keys == {0} && db.jobs[0].status.Terminal() && db.jobs[0].completedAt == Some(1)
    ensures var after := Step(db, 9, Maintain(5, 5)).db; after.nextId == db.nextId && after.jobs == map[]
  {
    hide KeepEvents, KeepAudit;
    assert forall id :: id in KeepJobs(db.jobs, 5) ==> id in db.jobs.Keys;
  }

  lemma ThenCreatedAgain(db: Db)
    requires db.jobs == map[] && db.nextId == 1
    ensures Step(db, 10, CREATE).reply.JobReply? && Step(db, 10, CREATE).reply.job == 1
  {
    JobOfIsAJob(db, 7, "k");
  }

  /** The job has finished and maintenance has deleted it: the same request makes a second job. */
  lemma ALateRetryMakesASecondJob()
    ensures Retries(EMPTY, LATE_RETRY, 3, 0) && !AnsweredAlike(EMPTY, LATE_RETRY, 3, 0)
    ensures ReplyAt(EMPTY, LATE_RETRY, 3).JobReply?
            && ReplyAt(EMPTY, LATE_RETRY, 3).job != ReplyAt(EMPTY, LATE_RETRY, 0).job
  {
    hide Step, Valid;
    var ops := LATE_RETRY;
    assert ops[0].op == CREATE && ops[1].op == FINISH && ops[2].op == Maintain(5, 5) && ops[3].op == CREATE;
    FirstIsCreated();
    PlayOneMore(EMPTY, ops, 0);
    ThenFinished(Play(EMPTY, ops[..1]));
    PlayOneMore(EMPTY, ops, 1);
    ThenPruned(Play(EMPTY, ops[..2]));
    PlayOneMore(EMPTY, ops, 2);
    ThenCreatedAgain(Play(EMPTY, ops[..3]));
  }
}
