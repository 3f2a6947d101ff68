/** The job side of the store object: each method changes the tables row by row, as the
    statements of its transaction do, and is proved to be the transaction in JobLog. */
module JobStore {
  import opened Wrappers
  import opened JobLog
  import opened JobRetries

  class Store {
    var jobs: map<Id, Job>
    var events: seq<EventRow>
    var audit: seq<AuditRow>
    var nextCursor: nat
    var nextId: Id
    ghost var history: seq<AuditRow>

    ghost function Tables(): Db
      reads this
    {
      Db(jobs, events, audit, nextCursor, nextId, history)
    }

    constructor ()
      ensures Tables() == EMPTY && Valid(Tables())
    {
      jobs, events, audit, nextCursor, nextId, history := map[], [], [], 1, 0, [];
    }

    /** Take the next cursor, move the counter on, insert the row. */
    method RecordAudit(row: AuditRow) returns (cursor: nat)
      modifies this`audit, this`nextCursor, this`history
      ensures Tables() == Audit(old(Tables()), row) && cursor == old(nextCursor)
    {
      cursor := nextCursor;
      nextCursor := cursor + 1;
      audit := audit + [row];
      history := history + [row];
    }

    method RecordAuditEvent(kind: string, now: Millis) returns (reply: Reply)
      requires Valid(Tables())
      modifies this
      ensures Valid(Tables()) && Effect(Tables(), reply) == Step(old(Tables()), now, Op.RecordAudit(kind))
    {
      StepKeepsValid(Tables(), now, Op.RecordAudit(kind));
      var cursor := RecordAudit(OtherAudit(nextCursor, kind, now));
      reply := Done;
    }

    method CreateJob(owner: Id, denied: Option<Code>, repository: string, worktree: string, input: JobInput,
                     now: Millis)
      returns (reply: Reply)
      requires Valid(Tables())
      modifies this
      ensures Valid(Tables())
      ensures Effect(Tables(), reply) == Step(old(Tables()), now, Create(owner, denied, repository, worktree, input))
    {
      hide LogIsSound, Valid;
      ghost var op := Create(owner, denied, repository, worktree, input);
      ghost var before := Tables();
      StepKeepsValid(before, now, op);
      JobOfIsAJob(before, owner, input.key);
      if denied.Some? { return Err(denied.value); }
      var existing := set id | id in jobs && jobs[id].owner == owner && jobs[id].createKey == input.key;
      if existing != {} {
        var id :| id in existing;
        ValidHasOneJobPerKey(before);
        KeyFindsJob(before, id);
        if SameJob(jobs[id], repository, worktree, input) { return JobReply(id, jobs[id]); }
        return Err(Conflict);
      }
      assert forall id :: IsJobOf(before, id, owner, input.key) ==> id in existing;
      NoJobMeansNone(before, owner, input.key);
      if input.parent.Some? {
        if input.parent.value !in jobs { return Err(NotFound); }
        if jobs[input.parent.value].repository != repository { return Err(Forbidden); }
      }
      var id := nextId;
      nextId := id + 1;
      var entry := Entry(nextCursor, 1, Created, Queued, None, None, None, now);
      var cursor := RecordAudit(JobAudit(id, entry));
      var row :=
        Job(owner, repository, worktree, input.kind, input.displayName, input.parent, input.correlation, input.key,
            Queued, now, now, cursor, 1, None);
      jobs := jobs[id := row];
      events := events + [EventRow(id, SERVER_CREATED_KEY, entry)];
      reply := JobReply(id, row);
    }

    method AppendJobEvent(owner: Id, denied: Option<Code>, target: Id, input: EventInput, now: Millis)
      returns (reply: Reply)
      requires Valid(Tables())
      modifies this
      ensures Valid(Tables())
      ensures Effect(Tables(), reply) == Step(old(Tables()), now, Append(owner, denied, target, input))
    {
      hide LogIsSound, Valid;
      StepKeepsValid(Tables(), now, Append(owner, denied, target, input));
      if !input.Acceptable() { return Err(InvalidInput); }
      if denied.Some? { return Err(denied.value); }
      if target !in jobs { return Err(NotFound); }
      var job := jobs[target];
      if job.owner != owner { return Err(Forbidden); }
      var existing := FindEvent(events, target, input.key);
      if existing.Some? {
        if SameEvent(existing.value, input) { return EventReply(existing.value); }
        return Err(Conflict);
      }
      var status := NextStatus(job.status, input.kind);
      if status.None? { return Err(Conflict); }
      var sequence := job.lastSequence + 1;
      var entry :=
        Entry(nextCursor, sequence, input.kind, status.value, input.phase, input.summary, input.operation, now);
      var cursor := RecordAudit(JobAudit(target, entry));
      var row := EventRow(target, input.key, entry);
      events := events + [row];
      var completedAt := if status.value.Terminal() then Some(now) else None;
      jobs := jobs[target := job.(status := status.value, updatedAt := now, lastCursor := cursor,
                                  lastSequence := sequence, completedAt := completedAt)];
      reply := EventReply(row);
    }

    method RunMaintenance(jobsBefore: Millis, auditBefore: Millis, now: Millis) returns (reply: Reply)
      requires Valid(Tables())
      modifies this
      ensures Valid(Tables()) && Effect(Tables(), reply) == Step(old(Tables()), now, Maintain(jobsBefore, auditBefore))
    {
      hide LogIsSound, Valid, KeepJobs, KeepEvents, KeepAudit;
      StepKeepsValid(Tables(), now, Maintain(jobsBefore, auditBefore));
      if jobsBefore >= now || auditBefore >= now { return Err(InvalidInput); }
      jobs := KeepJobs(jobs, jobsBefore);
      events := KeepEvents(events, jobs);
      audit := KeepAudit(audit, auditBefore);
      var cursor := RecordAudit(OtherAudit(nextCursor, "maintenance.completed", now));
      reply := Done;
    }
  }

  lemma NoJobMeansNone(db: Db, owner: Id, key: string)
    requires forall id :: !IsJobOf(db, id, owner, key)
    ensures JobOf(db, owner, key).None?
  {
  }

  lemma ValidHasOneJobPerKey(db: Db)
    requires Valid(db)
    ensures OneJobPerKey(db)
  {
    hide LogIsSound;
  }
}
