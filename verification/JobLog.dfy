/** Durable jobs and their event log on one global audit sequence
    (packages/core/src/store.ts). As in CoordinationTables, each public method is a
    transaction from the tables before to the tables after and the reply. */
module JobLog {
  import opened Wrappers

  type Id = nat
  type Millis = int

  datatype Code = InvalidInput | NotFound | Forbidden | Conflict

  datatype JobStatus = Queued | Running | Waiting | Succeeded | Failed | Cancelled
  {
    predicate Terminal() { Succeeded? || Failed? || Cancelled? }
  }

  datatype EventKind =
    | Created | Started | ProviderReady | Working | Heartbeat | Checkpoint | WaitingForInput
    | OperationStarted | OperationFinished | CompletedEvent | FailedEvent | CancelledEvent

  /** The status after an event; none once the job is terminal. */
  function NextStatus(current: JobStatus, kind: EventKind): Option<JobStatus> {
    if current.Terminal() then None
    else
      match kind
      case Heartbeat => Some(current)
      case WaitingForInput => Some(Waiting)
      case CompletedEvent => Some(Succeeded)
      case FailedEvent => Some(Failed)
      case CancelledEvent => Some(Cancelled)
      case _ => Some(Running)
  }

  /** What an event says, as stored both in the job's log and in the audit row. */
  datatype Entry = Entry(
    cursor: nat, sequence: nat, kind: EventKind, status: JobStatus,
    phase: Option<string>, summary: Option<string>, operation: Option<string>, at: Millis)

  datatype EventRow = EventRow(job: Id, key: string, entry: Entry)

  datatype AuditRow = JobAudit(job: Id, entry: Entry) | OtherAudit(number: nat, kind: string, time: Millis)
  {
    function Cursor(): nat { if JobAudit? then entry.cursor else number }
    function At(): Millis { if JobAudit? then entry.at else time }
  }

  datatype Job = Job(
    owner: Id, repository: string, worktree: string, kind: string, displayName: string, parent: Option<Id>,
    correlation: Option<string>, createKey: string, status: JobStatus, createdAt: Millis, updatedAt: Millis,
    lastCursor: nat, lastSequence: nat, completedAt: Option<Millis>)

  const SERVER_CREATED_KEY := "__server_created__"

  /** `audit` is the audit table; `history` is every row ever written to it. */
  datatype Db = Db(jobs: map<Id, Job>, events: seq<EventRow>, audit: seq<AuditRow>, nextCursor: nat, nextId: Id,
                   history: seq<AuditRow>)

  const EMPTY := Db(map[], [], [], 1, 0, [])

  datatype JobInput = JobInput(key: string, kind: string, displayName: string, parent: Option<Id>,
                               correlation: Option<string>)

  datatype EventInput = EventInput(key: string, kind: EventKind, phase: Option<string>, summary: Option<string>,
                                   operation: Option<string>)
  {
    /** normalizedJobEventInput, apart from its checks on the texts themselves. */
    predicate Acceptable() {
      && kind != Created
      && (kind == Heartbeat ==> phase.None? && summary.None? && operation.None?)
      && (kind == Checkpoint || kind == WaitingForInput ==> summary.Some?)
      && (kind == OperationStarted || kind == OperationFinished ==> operation.Some?)
    }
  }

  /** `denied` is what authenticating the caller answers at that moment. */
  datatype Op =
    | Create(owner: Id, denied: Option<Code>, repository: string, worktree: string, job: JobInput)
    | Append(owner: Id, denied: Option<Code>, target: Id, event: EventInput)
    | RecordAudit(kind: string)
    | Maintain(jobsBefore: Millis, auditBefore: Millis)

  datatype Reply = Done | JobReply(job: Id, row: Job) | EventReply(event: EventRow) | Err(code: Code)

  datatype Effect = Effect(db: Db, reply: Reply)

  // ----- the audit sequence -----

  /** audit(): take the next cursor and append the row. */
  function Audit(db: Db, row: AuditRow): Db {
    db.(audit := db.audit + [row], nextCursor := db.nextCursor + 1, history := db.history + [row])
  }

  // ----- transactions -----

  ghost predicate IsJobOf(db: Db, id: Id, owner: Id, key: string) {
    id in db.jobs && db.jobs[id].owner == owner && db.jobs[id].createKey == key
  }

  /** The row found by the unique index on jobs(owner_agent_id, create_idempotency_key). */
  ghost function JobOf(db: Db, owner: Id, key: string): Option<Id> {
    if id :| IsJobOf(db, id, owner, key) then Some(id) else None
  }

  predicate SameJob(row: Job, repository: string, worktree: string, input: JobInput) {
    && row.repository == repository && row.worktree == worktree && row.kind == input.kind
    && row.displayName == input.displayName && row.parent == input.parent && row.correlation == input.correlation
  }

  function ParentError(db: Db, repository: string, parent: Option<Id>): Option<Code> {
    if parent.None? then None
    else if parent.value !in db.jobs then Some(NotFound)
    else if db.jobs[parent.value].repository != repository then Some(Forbidden)
    else None
  }

  function CreatedRow(db: Db, op: Op, now: Millis): Job
    requires op.Create?
  {
    Job(op.owner, op.repository, op.worktree, op.job.kind, op.job.displayName, op.job.parent, op.job.correlation,
        op.job.key, Queued, now, now, db.nextCursor, 1, None)
  }

  ghost function CreateTx(db: Db, op: Op, now: Millis): Effect
    requires op.Create?
  {
    if op.denied.Some? then Effect(db, Err(op.denied.value))
    else
      var existing := JobOf(db, op.owner, op.job.key);
      if existing.Some? then
        var row := db.jobs[existing.value];
        Effect(db, if SameJob(row, op.repository, op.worktree, op.job) then JobReply(existing.value, row)
                   else Err(Conflict))
      else
        var error := ParentError(db, op.repository, op.job.parent);
        if error.Some? then Effect(db, Err(error.value))
        else
          var id := db.nextId;
          var entry := Entry(db.nextCursor, 1, Created, Queued, None, None, None, now);
          var row := CreatedRow(db, op, now);
          Effect(Audit(db, JobAudit(id, entry)).(jobs := db.jobs[id := row], nextId := id + 1,
                                                 events := db.events + [EventRow(id, SERVER_CREATED_KEY, entry)]),
                 JobReply(id, row))
  }

  /** The row found by the unique index on job_events(job_id, event_idempotency_key). */
  function FindEvent(events: seq<EventRow>, job: Id, key: string): Option<EventRow> {
    if events == [] then None
    else
      var last := events[|events| - 1];
      var earlier := FindEvent(events[..|events| - 1], job, key);
      if earlier.Some? then earlier else if last.job == job && last.key == key then Some(last) else None
  }

  predicate SameEvent(row: EventRow, input: EventInput) {
    && row.entry.kind == input.kind && row.entry.phase == input.phase
    && row.entry.summary == input.summary && row.entry.operation == input.operation
  }

  function AppendTx(db: Db, op: Op, now: Millis): Effect
    requires op.Append?
  {
    if !op.event.Acceptable() then Effect(db, Err(InvalidInput))
    else if op.denied.Some? then Effect(db, Err(op.denied.value))
    else if op.target !in db.jobs then Effect(db, Err(NotFound))
    else
      var job := db.jobs[op.target];
      if job.owner != op.owner then Effect(db, Err(Forbidden))
      else
        var existing := FindEvent(db.events, op.target, op.event.key);
        if existing.Some? then
          Effect(db, if SameEvent(existing.value, op.event) then EventReply(existing.value) else Err(Conflict))
        else
          var status := NextStatus(job.status, op.event.kind);
          if status.None? then Effect(db, Err(Conflict))
          else
            var row := AppendedRow(db, op, status.value, now);
            Effect(Audit(db, JobAudit(op.target, row.entry)).(
                     events := db.events + [row], jobs := db.jobs[op.target := Advanced(job, row.entry)]),
                   EventReply(row))
  }

  function AppendedRow(db: Db, op: Op, status: JobStatus, now: Millis): EventRow
    requires op.Append? && op.target in db.jobs
  {
    EventRow(op.target, op.event.key,
             Entry(db.nextCursor, db.jobs[op.target].lastSequence + 1, op.event.kind, status,
                   op.event.phase, op.event.summary, op.event.operation, now))
  }

  /** The job row after one more event. */
  function Advanced(job: Job, entry: Entry): Job {
    job.(status := entry.status, updatedAt := entry.at, lastCursor := entry.cursor, lastSequence := entry.sequence,
         completedAt := if entry.status.Terminal() then Some(entry.at) else None)
  }

  predicate PrunableJob(job: Job, before: Millis) {
    job.status.Terminal() && job.completedAt.Some? && job.completedAt.value < before
  }

  function KeepEvents(events: seq<EventRow>, jobs: map<Id, Job>): seq<EventRow> {
    if events == [] then []
    else KeepEvents(events[..|events| - 1], jobs) +
         (if events[|events| - 1].job in jobs then [events[|events| - 1]] else [])
  }

  function KeepAudit(audit: seq<AuditRow>, before: Millis): seq<AuditRow> {
    if audit == [] then []
    else KeepAudit(audit[..|audit| - 1], before) +
         (if audit[|audit| - 1].At() >= before then [audit[|audit| - 1]] else [])
  }

  /** The jobs left after deleting the prunable ones; a deleted parent is set to null. */
  function KeepJobs(jobs: map<Id, Job>, before: Millis): map<Id, Job> {
    map id | id in jobs && !PrunableJob(jobs[id], before) ::
      if jobs[id].parent.Some? && jobs[id].parent.value in jobs && PrunableJob(jobs[jobs[id].parent.value], before)
      then jobs[id].(parent := None) else jobs[id]
  }

  /** Applied maintenance: finished jobs go with their events, old audit rows go, and the
      run itself is audited. */
  function MaintainTx(db: Db, jobsBefore: Millis, auditBefore: Millis, now: Millis): Effect {
    if jobsBefore >= now || auditBefore >= now then Effect(db, Err(InvalidInput))
    else
      var kept := KeepJobs(db.jobs, jobsBefore);
      Effect(Audit(db.(jobs := kept, events := KeepEvents(db.events, kept), audit := KeepAudit(db.audit, auditBefore)),
                   OtherAudit(db.nextCursor, "maintenance.completed", now)), Done)
  }

  ghost function Step(db: Db, now: Millis, op: Op): Effect {
    match op
    case Create(_, _, _, _, _) => CreateTx(db, op, now)
    case Append(_, _, _, _) => AppendTx(db, op, now)
    case RecordAudit(kind) => Effect(Audit(db, OtherAudit(db.nextCursor, kind, now)), Done)
    case Maintain(jobsBefore, auditBefore) => MaintainTx(db, jobsBefore, auditBefore, now)
  }

  // ----- the log of one job -----

  function LogOf(events: seq<EventRow>, job: Id): seq<EventRow> {
    if events == [] then []
    else LogOf(events[..|events| - 1], job) + (if events[|events| - 1].job == job then [events[|events| - 1]] else [])
  }

  /** The job's entries as the full audit history tells them. */
  function Project(history: seq<AuditRow>, job: Id): seq<Entry> {
    if history == [] then []
    else
      var last := history[|history| - 1];
      Project(history[..|history| - 1], job) + (if last.JobAudit? && last.job == job then [last.entry] else [])
  }

  function Entries(log: seq<EventRow>): seq<Entry> { seq(|log|, i requires 0 <= i < |log| => log[i].entry) }

  /** The fold of NextStatus over a log, from `Queued` at its first entry. */
  function Replay(entries: seq<Entry>): Option<JobStatus> {
    if entries == [] then None
    else if |entries| == 1 then if entries[0].kind == Created then Some(Queued) else None
    else
      var before := Replay(entries[..|entries| - 1]);
      if before.None? then None else NextStatus(before.value, entries[|entries| - 1].kind)
  }

  /** The status after each event is the replay up to it. */
  ghost predicate StatusesReplay(log: seq<EventRow>, told: seq<Entry>) {
    && Entries(log) == told
    && forall k :: 0 <= k < |log| ==> Replay(told[..k + 1]) == Some(log[k].entry.status)
  }

  /** Events are numbered from 1, in increasing cursors, created once and under distinct keys. */
  ghost predicate Numbered(log: seq<EventRow>) {
    && (forall k :: 0 <= k < |log| ==> log[k].entry.sequence == k + 1)
    && (forall k :: 0 < k < |log| ==> log[k].entry.kind != Created)
    && (forall k, l :: 0 <= k < l < |log| ==> log[k].entry.cursor < log[l].entry.cursor)
    && (forall k, l :: 0 <= k < l < |log| ==> log[k].key != log[l].key)
  }

  ghost predicate LogIsSound(job: Job, log: seq<EventRow>, told: seq<Entry>) {
    && log != []
    && StatusesReplay(log, told) && Replay(told) == Some(job.status)
    && Numbered(log)
    && job.lastSequence == |log| && job.lastCursor == log[|log| - 1].entry.cursor
    && (job.completedAt.Some? <==> job.status.Terminal())
  }

  ghost predicate Valid(db: Db) {
    && db.nextCursor == |db.history| + 1
    && (forall i :: 0 <= i < |db.history| ==> db.history[i].Cursor() == i + 1)
    && (forall i :: 0 <= i < |db.history| && db.history[i].JobAudit? ==> db.history[i].job < db.nextId)
    && (forall i :: 0 <= i < |db.events| ==> db.events[i].job in db.jobs && db.events[i].entry.cursor < db.nextCursor)
    && (forall id :: id in db.jobs ==>
          id < db.nextId && LogIsSound(db.jobs[id], LogOf(db.events, id), Project(db.history, id)))
    && OneJobPerKey(db)
  }

  ghost predicate OneJobPerKey(db: Db) {
    forall a, b ::
      (a in db.jobs && b in db.jobs && db.jobs[a].owner == db.jobs[b].owner
       && db.jobs[a].createKey == db.jobs[b].createKey) ==> a == b
  }

  // ----- every transaction keeps the logs sound -----

  lemma {:induction false} NoEventsOf(events: seq<EventRow>, job: Id)
    requires forall i :: 0 <= i < |events| ==> events[i].job != job
    ensures LogOf(events, job) == []
  {
    if events != [] { NoEventsOf(events[..|events| - 1], job); }
  }

  lemma {:induction false} NothingTold(history: seq<AuditRow>, job: Id)
    requires forall i :: 0 <= i < |history| && history[i].JobAudit? ==> history[i].job != job
    ensures Project(history, job) == []
  {
    if history != [] { NothingTold(history[..|history| - 1], job); }
  }

  lemma OneMoreEvent(events: seq<EventRow>, row: EventRow, job: Id)
    ensures LogOf(events + [row], job) == if row.job == job then LogOf(events, job) + [row] else LogOf(events, job)
  {
    assert (events + [row])[..|events|] == events;
  }

  lemma OneMoreAudit(history: seq<AuditRow>, row: AuditRow, job: Id)
    ensures Project(history + [row], job) == if row.JobAudit? && row.job == job then Project(history, job) + [row.entry]
                                             else Project(history, job)
  {
    assert (history + [row])[..|history|] == history;
  }

  lemma AuditKeepsValid(db: Db, row: AuditRow)
    requires Valid(db) && row.OtherAudit? && row.number == db.nextCursor
    ensures Valid(Audit(db, row))
  {
    hide LogIsSound, Project;
    var after := Audit(db, row);
    forall id | id in after.jobs
      ensures id < after.nextId && LogIsSound(after.jobs[id], LogOf(after.events, id), Project(after.history, id))
    {
      OneMoreAudit(db.history, row, id);
    }
  }

  /** A log grows by an event that continues it. */
  lemma LogGrows(job: Job, log: seq<EventRow>, told: seq<Entry>, row: EventRow)
    requires LogIsSound(job, log, told)
    requires row.entry.kind != Created
    requires row.entry.sequence == job.lastSequence + 1
             && NextStatus(job.status, row.entry.kind) == Some(row.entry.status)
    requires forall k :: 0 <= k < |log| ==> log[k].entry.cursor < row.entry.cursor && log[k].key != row.key
    ensures LogIsSound(Advanced(job, row.entry), log + [row], told + [row.entry])
  {
    hide StatusesReplay, Numbered;
    assert (told + [row.entry])[..|told|] == told;
    StatusesGrow(job, log, told, row);
    NumbersGrow(log, row);
  }

  lemma StatusesGrow(job: Job, log: seq<EventRow>, told: seq<Entry>, row: EventRow)
    requires log != [] && StatusesReplay(log, told) && Replay(told) == Some(job.status)
    requires NextStatus(job.status, row.entry.kind) == Some(row.entry.status)
    ensures StatusesReplay(log + [row], told + [row.entry])
  {
    var more, all := log + [row], told + [row.entry];
    assert Entries(more) == all;
    assert all[..|told|] == told;
    forall k | 0 <= k < |more| ensures Replay(all[..k + 1]) == Some(more[k].entry.status) {
      if k < |log| { assert all[..k + 1] == told[..k + 1]; } else { assert all[..k + 1] == all; }
    }
  }

  lemma NumbersGrow(log: seq<EventRow>, row: EventRow)
    requires Numbered(log) && row.entry.sequence == |log| + 1 && row.entry.kind != Created
    requires forall k :: 0 <= k < |log| ==> log[k].entry.cursor < row.entry.cursor && log[k].key != row.key
    ensures Numbered(log + [row])
  {
  }

  lemma FirstEntry(job: Job, row: EventRow)
    requires job.status == Queued && job.completedAt.None? && job.lastSequence == 1
             && job.lastCursor == row.entry.cursor
    requires row.entry.kind == Created && row.entry.status == Queued && row.entry.sequence == 1
    ensures LogIsSound(job, [row], [row.entry])
  {
    assert [row.entry][..1] == [row.entry];
  }

  /** One event is added to one job's log and told in the audit history. */
  lemma EventAdded(db: Db, id: Id, job: Job, row: EventRow, after: Db)
    requires Valid(db) && row.job == id && row.entry.cursor == db.nextCursor && id < after.nextId
             && db.nextId <= after.nextId
    requires after == Audit(db, JobAudit(id, row.entry)).(jobs := db.jobs[id := job], events := db.events + [row],
                                                          nextId := after.nextId)
    requires LogIsSound(job, LogOf(db.events, id) + [row], Project(db.history, id) + [row.entry])
    requires OneJobPerKey(after)
    ensures Valid(after)
  {
    hide LogIsSound, OneJobPerKey, LogOf, Project;
    var told := JobAudit(id, row.entry);
    forall other | other in after.jobs
      ensures other < after.nextId
              && LogIsSound(after.jobs[other], LogOf(after.events, other), Project(after.history, other))
    {
      OneMoreEvent(db.events, row, other);
      OneMoreAudit(db.history, told, other);
    }
  }

  lemma CreateKeepsValid(db: Db, op: Op, now: Millis)
    requires Valid(db) && op.Create?
    ensures Valid(CreateTx(db, op, now).db)
  {
    hide LogIsSound;
    var effect := CreateTx(db, op, now);
    if effect.db != db {
      var id := db.nextId;
      var row := effect.db.events[|db.events|];
      NoEventsOf(db.events, id);
      NothingTold(db.history, id);
      assert [] + [row] == [row] && [] + [row.entry] == [row.entry];
      FirstEntry(effect.db.jobs[id], row);
      NewJobKeepsKeys(db, op);
      EventAdded(db, id, effect.db.jobs[id], row, effect.db);
    }
  }

  lemma NewJobKeepsKeys(db: Db, op: Op)
    requires op.Create? && JobOf(db, op.owner, op.job.key).None?
    ensures forall id :: id in db.jobs && db.jobs[id].owner == op.owner ==> db.jobs[id].createKey != op.job.key
  {
    forall id | id in db.jobs && db.jobs[id].owner == op.owner ensures db.jobs[id].createKey != op.job.key {
      assert !IsJobOf(db, id, op.owner, op.job.key);
    }
  }

  lemma AppendKeepsValid(db: Db, op: Op, now: Millis)
    requires Valid(db) && op.Append?
    ensures Valid(AppendTx(db, op, now).db)
  {
    hide LogIsSound;
    var effect := AppendTx(db, op, now);
    if effect.db != db {
      var row := effect.reply.event;
      var log := LogOf(db.events, op.target);
      NoSuchKey(db.events, op.target, op.event.key);
      LogCursors(db.events, op.target, db.nextCursor);
      LogGrows(db.jobs[op.target], log, Project(db.history, op.target), row);
      EventAdded(db, op.target, effect.db.jobs[op.target], row, effect.db);
    }
  }

  lemma {:induction false} NoSuchKey(events: seq<EventRow>, job: Id, key: string)
    requires FindEvent(events, job, key).None?
    ensures forall k :: 0 <= k < |LogOf(events, job)| ==> LogOf(events, job)[k].key != key
  {
    if events != [] { NoSuchKey(events[..|events| - 1], job, key); }
  }

  lemma {:induction false} LogCursors(events: seq<EventRow>, job: Id, limit: nat)
    requires forall i :: 0 <= i < |events| ==> events[i].entry.cursor < limit
    ensures forall k :: 0 <= k < |LogOf(events, job)| ==> LogOf(events, job)[k].entry.cursor < limit
  {
    if events != [] { LogCursors(events[..|events| - 1], job, limit); }
  }

  lemma {:induction false} KeptLogs(events: seq<EventRow>, jobs: map<Id, Job>, job: Id)
    requires job in jobs
    ensures LogOf(KeepEvents(events, jobs), job) == LogOf(events, job)
  {
    if events != [] {
      var init, last := events[..|events| - 1], events[|events| - 1];
      KeptLogs(init, jobs, job);
      if last.job in jobs {
        OneMoreEvent(KeepEvents(init, jobs), last, job);
      } else {
        assert KeepEvents(events, jobs) == KeepEvents(init, jobs);
      }
    }
  }

  lemma {:induction false} KeptEvents(events: seq<EventRow>, jobs: map<Id, Job>, limit: nat)
    requires forall i :: 0 <= i < |events| ==> events[i].entry.cursor < limit
    ensures forall i :: 0 <= i < |KeepEvents(events, jobs)| ==>
              KeepEvents(events, jobs)[i].job in jobs && KeepEvents(events, jobs)[i].entry.cursor < limit
  {
    if events != [] { KeptEvents(events[..|events| - 1], jobs, limit); }
  }

  lemma MaintainKeepsValid(db: Db, jobsBefore: Millis, auditBefore: Millis, now: Millis)
    requires Valid(db)
    ensures Valid(MaintainTx(db, jobsBefore, auditBefore, now).db)
  {
    if jobsBefore < now && auditBefore < now {
      PruneKeepsValid(db, jobsBefore, KeepAudit(db.audit, auditBefore));
      var kept := KeepJobs(db.jobs, jobsBefore);
      AuditKeepsValid(db.(jobs := kept, events := KeepEvents(db.events, kept),
                          audit := KeepAudit(db.audit, auditBefore)),
                      OtherAudit(db.nextCursor, "maintenance.completed", now));
    }
  }

  lemma PruneKeepsValid(db: Db, jobsBefore: Millis, audit: seq<AuditRow>)
    requires Valid(db)
    ensures var kept := KeepJobs(db.jobs, jobsBefore);
            Valid(db.(jobs := kept, events := KeepEvents(db.events, kept), audit := audit))
  {
    hide LogIsSound;
    var kept := KeepJobs(db.jobs, jobsBefore);
    KeptEvents(db.events, kept, db.nextCursor);
    forall id | id in kept
      ensures id < db.nextId && LogIsSound(kept[id], LogOf(KeepEvents(db.events, kept), id), Project(db.history, id))
    {
      KeptLogs(db.events, kept, id);
      ParentDoesNotMatter(db.jobs[id], kept[id], LogOf(db.events, id), Project(db.history, id));
    }
  }

  lemma ParentDoesNotMatter(job: Job, other: Job, log: seq<EventRow>, told: seq<Entry>)
    requires LogIsSound(job, log, told) && other == job.(parent := other.parent)
    ensures LogIsSound(other, log, told)
  {
  }

  /** In every reachable state each job's log is numbered 1..n, its cursors increase, its
      status is the fold of its events, and it is what the audit history tells of it. */
  lemma StepKeepsValid(db: Db, now: Millis, op: Op)
    requires Valid(db)
    ensures Valid(Step(db, now, op).db)
  {
    match op
    case Create(_, _, _, _, _) => CreateKeepsValid(db, op, now);
    case Append(_, _, _, _) => AppendKeepsValid(db, op, now);
    case RecordAudit(kind) => AuditKeepsValid(db, OtherAudit(db.nextCursor, kind, now));
    case Maintain(jobsBefore, auditBefore) => MaintainKeepsValid(db, jobsBefore, auditBefore, now);
  }

  /** No event follows a terminal one, and the job's status is terminal just when its last
      event's is. */
  lemma NothingFollowsATerminalEvent(job: Job, log: seq<EventRow>, told: seq<Entry>, k: nat)
    requires LogIsSound(job, log, told) && k < |log|
    ensures log[k].entry.status.Terminal() ==> k == |log| - 1
    ensures job.completedAt.Some? <==> log[|log| - 1].entry.status.Terminal()
  {
    assert told[..|told|] == told;
    if k + 1 < |log| {
      var longer := told[..k + 2];
      assert longer[..|longer| - 1] == told[..k + 1];
      assert Replay(longer) == Some(log[k + 1].entry.status);
    }
  }

  // ----- the status as a reader of the log would give it -----

  /** The last event that is not a heartbeat. */
  function LastWord(entries: seq<Entry>): EventKind {
    if entries == [] then Created
    else
      var last := entries[|entries| - 1].kind;
      if last == Heartbeat then LastWord(entries[..|entries| - 1]) else last
  }

  function Meaning(kind: EventKind): JobStatus {
    match kind
    case Created => Queued
    case WaitingForInput => Waiting
    case CompletedEvent => Succeeded
    case FailedEvent => Failed
    case CancelledEvent => Cancelled
    case _ => Running
  }

  lemma {:induction false} ReplayIsTheLastWord(entries: seq<Entry>)
    requires Replay(entries).Some? && forall k :: 0 < k < |entries| ==> entries[k].kind != Created
    ensures Replay(entries).value == Meaning(LastWord(entries))
  {
    if |entries| > 1 { ReplayIsTheLastWord(entries[..|entries| - 1]); }
  }

  /** A job's status says what its last event other than a heartbeat was. */
  lemma StatusIsTheLastWord(db: Db, id: Id)
    requires Valid(db) && id in db.jobs
    ensures db.jobs[id].status == Meaning(LastWord(Project(db.history, id)))
  {
    var log, told := LogOf(db.events, id), Project(db.history, id);
    forall k | 0 < k < |told| ensures told[k].kind != Created { assert told[k] == Entries(log)[k]; }
    ReplayIsTheLastWord(told);
  }
}
