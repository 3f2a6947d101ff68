/** What creating a job, appending an event and maintenance answer and write, told from the tables
    alone. */
module JobAnswers {
  import opened Wrappers
  import opened JobLog
  import opened JobRetries
  import opened AuditRetention

  // ----- one event -----

  /** Row `i` records the key for the job. */
  predicate Records(events: seq<EventRow>, i: int, job: Id, key: string) {
    0 <= i < |events| && events[i].job == job && events[i].key == key
  }

  /** The lookup by job and key finds the first such row, if there is one. */
  lemma {:induction false} FoundIsTheFirst(events: seq<EventRow>, job: Id, key: string) returns (at: nat)
    ensures FindEvent(events, job, key).Some? <==> exists i :: Records(events, i, job, key)
    ensures FindEvent(events, job, key).Some? ==>
              && Records(events, at, job, key) && FindEvent(events, job, key) == Some(events[at])
              && forall i :: Records(events, i, job, key) ==> at <= i
  {
    at := 0;
    if events != [] {
      var init, last := events[..|events| - 1], |events| - 1;
      at := FoundIsTheFirst(init, job, key);
      forall i | Records(events, i, job, key) && i < last ensures Records(init, i, job, key) {}
      forall i | Records(init, i, job, key) ensures Records(events, i, job, key) {}
      if FindEvent(init, job, key).None? {
        at := last;
        assert Records(events, last, job, key) <==> FindEvent(events, job, key).Some?;
      }
    }
  }

  /** What a client may report: no creation, no progress with a heartbeat, a summary with a checkpoint
      or a question, and an operation's name with its start and end. */
  lemma ReportsAreAcceptable(input: EventInput)
    ensures input.Acceptable() <==>
            match input.kind
            case Created => false
            case Heartbeat => input.phase.None? && input.summary.None? && input.operation.None?
            case Checkpoint => input.summary.Some?
            case WaitingForInput => input.summary.Some?
            case OperationStarted => input.operation.Some?
            case OperationFinished => input.operation.Some?
            case _ => true
  {
  }

  /** The job is the caller's, who authenticated with a report that is acceptable. */
  predicate Heard(db: Db, op: Op)
    requires op.Append?
  {
    op.denied.None? && op.event.Acceptable() && op.target in db.jobs && db.jobs[op.target].owner == op.owner
  }

  ghost predicate IsRecorded(db: Db, op: Op)
    requires op.Append?
  {
    exists i :: Records(db.events, i, op.target, op.event.key)
  }

  /** The event row says what was reported, and the job and the audit history follow it. */
  ghost predicate IsWritten(db: Db, now: Millis, op: Op, job: Job, row: EventRow, after: Db)
    requires op.Append?
  {
    var entry := row.entry;
    var over := entry.status in {Succeeded, Failed, Cancelled};
    && row.job == op.target && row.key == op.event.key
    && entry.kind == op.event.kind && entry.phase == op.event.phase
    && entry.summary == op.event.summary && entry.operation == op.event.operation
    && entry.at == now && entry.cursor == db.nextCursor && entry.sequence == job.lastSequence + 1
    && entry.status == (if op.event.kind == Heartbeat then job.status else Meaning(op.event.kind))
    && after.jobs == db.jobs[op.target := job.(
         status := entry.status, updatedAt := now, lastCursor := entry.cursor, lastSequence := entry.sequence,
         completedAt := if over then Some(now) else None)]
    && after.events == db.events + [row] && after.audit == db.audit + [JobAudit(op.target, entry)]
    && after.history == db.history + [JobAudit(op.target, entry)]
    && after.nextCursor == db.nextCursor + 1 && after.nextId == db.nextId
  }

  /** A new event is written exactly for a report that is heard, under a new key, of a job that is not
      over. */
  lemma AppendIsAnswered(db: Db, now: Millis, op: Op)
    requires Valid(db) && op.Append?
    ensures var effect := Step(db, now, op);
            && (effect.db != db <==> Heard(db, op) && !IsRecorded(db, op) && !db.jobs[op.target].status.Terminal())
            && (effect.db != db ==>
                  effect.reply.EventReply? && IsWritten(db, now, op, db.jobs[op.target], effect.reply.event, effect.db))
  {
    hide Valid, EventInput.Acceptable;
    ReportsAreAcceptable(op.event);
    var at := FoundIsTheFirst(db.events, op.target, op.event.key);
  }

  predicate Says(row: EventRow, input: EventInput) {
    && row.entry.kind == input.kind && row.entry.phase == input.phase
    && row.entry.summary == input.summary && row.entry.operation == input.operation
  }

  /** A key already recorded is answered with the event recorded under it if that says the same, and is
      a conflict if not; the tables stay as they are. */
  lemma RepeatIsAnswered(db: Db, now: Millis, op: Op, i: int)
    requires Valid(db) && op.Append? && Heard(db, op) && Records(db.events, i, op.target, op.event.key)
    ensures Step(db, now, op) ==
            Effect(db, if Says(db.events[i], op.event) then EventReply(db.events[i]) else Err(Conflict))
  {
    hide Valid, EventInput.Acceptable;
    var at := FoundIsTheFirst(db.events, op.target, op.event.key);
    OnlyOneRecord(db, op.target, op.event.key, at, i);
  }

  lemma OnlyOneRecord(db: Db, job: Id, key: string, i: int, j: int)
    requires Valid(db) && job in db.jobs && Records(db.events, i, job, key) && Records(db.events, j, job, key) && i <= j
    ensures i == j
  {
    hide StatusesReplay;
    assert LogIsSound(db.jobs[job], LogOf(db.events, job), Project(db.history, job));
    if i < j {
      var k, l := PlacesInLog(db.events, job, i, j);
      assert false;
    }
  }

  lemma {:induction false} PlacesInLog(events: seq<EventRow>, job: Id, i: nat, j: nat) returns (k: nat, l: nat)
    requires i <= j < |events| && events[i].job == events[j].job == job
    ensures k <= l < |LogOf(events, job)| && (i < j ==> k < l)
    ensures LogOf(events, job)[k] == events[i] && LogOf(events, job)[l] == events[j]
  {
    var init := events[..|events| - 1];
    if j < |events| - 1 {
      k, l := PlacesInLog(init, job, i, j);
    } else {
      l := |LogOf(init, job)|;
      k := l;
      if i < j { var same; k, same := PlacesInLog(init, job, i, i); }
    }
  }

  /** A report that is not heard, or comes after the end of the job, is refused for what is wrong
      with it. */
  lemma AppendRefusals(db: Db, now: Millis, op: Op)
    requires Valid(db) && op.Append?
    ensures var effect := Step(db, now, op);
            if !op.event.Acceptable() then effect == Effect(db, Err(InvalidInput))
            else if op.denied.Some? then effect == Effect(db, Err(op.denied.value))
            else if op.target !in db.jobs then effect == Effect(db, Err(NotFound))
            else if db.jobs[op.target].owner != op.owner then effect == Effect(db, Err(Forbidden))
            else !IsRecorded(db, op) && db.jobs[op.target].status in {Succeeded, Failed, Cancelled} ==>
              effect == Effect(db, Err(Conflict))
  {
    hide Valid, EventInput.Acceptable;
    var at := FoundIsTheFirst(db.events, op.target, op.event.key);
  }

  // ----- one job -----

  predicate Describes(row: Job, op: Op)
    requires op.Create?
  {
    && row.repository == op.repository && row.worktree == op.worktree && row.kind == op.job.kind
    && row.displayName == op.job.displayName && row.parent == op.job.parent && row.correlation == op.job.correlation
  }

  /** A key the caller has used before is answered with that job if it was described alike, and is a
      conflict if not. */
  lemma RepeatedCreateIsAnswered(db: Db, now: Millis, op: Op, id: Id)
    requires Valid(db) && op.Create? && op.denied.None?
    requires id in db.jobs && db.jobs[id].owner == op.owner && db.jobs[id].createKey == op.job.key
    ensures Step(db, now, op) ==
            Effect(db, if Describes(db.jobs[id], op) then JobReply(id, db.jobs[id]) else Err(Conflict))
  {
    hide LogIsSound;
    KeyFindsJob(db, id);
  }

  /** Under a new key a job is made, unless the caller is not let in or the parent it names is not a
      job of the repository. */
  lemma CreateIsAnswered(db: Db, now: Millis, op: Op)
    requires op.Create?
    requires forall id :: id in db.jobs && db.jobs[id].owner == op.owner ==> db.jobs[id].createKey != op.job.key
    ensures var effect, parent := Step(db, now, op), op.job.parent;
            if op.denied.Some? then effect == Effect(db, Err(op.denied.value))
            else if parent.Some? && parent.value !in db.jobs then effect == Effect(db, Err(NotFound))
            else if parent.Some? && db.jobs[parent.value].repository != op.repository then
              effect == Effect(db, Err(Forbidden))
            else
              var id, cursor := db.nextId, db.nextCursor;
              var entry := Entry(cursor, 1, Created, Queued, None, None, None, now);
              && effect.reply.JobReply? && effect.reply.job == id
              && var row := effect.reply.row;
              && Describes(row, op) && row.owner == op.owner && row.createKey == op.job.key && row.status == Queued
              && row.createdAt == row.updatedAt == now && row.completedAt.None?
              && row.lastCursor == cursor && row.lastSequence == 1
              && effect.db == Db(db.jobs[id := row], db.events + [EventRow(id, "__server_created__", entry)],
                                 db.audit + [JobAudit(id, entry)], cursor + 1, id + 1,
                                 db.history + [JobAudit(id, entry)])
  {
    JobOfIsAJob(db, op.owner, op.job.key);
  }

  // ----- maintenance -----

  /** The job ended before the cutoff. */
  predicate EndedBefore(job: Job, cutoff: Millis) {
    job.status in {Succeeded, Failed, Cancelled} && job.completedAt.Some? && job.completedAt.value < cutoff
  }

  /** Maintenance deletes the jobs that ended before their cutoff, with their events and as parents,
      and the audit rows older than theirs; it leaves the rest, and records itself. */
  lemma PruningIsExact(db: Db, now: Millis, jobsBefore: Millis, auditBefore: Millis)
    ensures var effect := Step(db, now, Maintain(jobsBefore, auditBefore));
            if jobsBefore >= now || auditBefore >= now then effect == Effect(db, Err(InvalidInput))
            else
              && effect.reply == Done && effect.db.nextId == db.nextId && effect.db.nextCursor == db.nextCursor + 1
              && (forall id :: id in effect.db.jobs <==> id in db.jobs && !EndedBefore(db.jobs[id], jobsBefore))
              && (forall id :: id in effect.db.jobs ==>
                    var parent := db.jobs[id].parent;
                    var gone := parent.Some? && parent.value in db.jobs
                                && EndedBefore(db.jobs[parent.value], jobsBefore);
                    effect.db.jobs[id] == if gone then db.jobs[id].(parent := None) else db.jobs[id])
  {
    hide KeepEvents, KeepAudit;
  }

  lemma PrunedRows(db: Db, now: Millis, jobsBefore: Millis, auditBefore: Millis)
    requires jobsBefore < now && auditBefore < now
    ensures var after := Step(db, now, Maintain(jobsBefore, auditBefore)).db;
            var itself := OtherAudit(db.nextCursor, "maintenance.completed", now);
            && (forall event :: event in after.events <==> event in db.events && event.job in after.jobs)
            && (forall id :: id in after.jobs ==> LogOf(after.events, id) == LogOf(db.events, id))
            && after.history == db.history + [itself]
            && after.audit != [] && after.audit[|after.audit| - 1] == itself
            && (forall row :: row in after.audit[..|after.audit| - 1] <==> row in db.audit && row.At() >= auditBefore)
  {
    hide KeepJobs, LogOf, KeepEvents, KeepAudit;
    var kept := KeepJobs(db.jobs, jobsBefore);
    var rows := KeepAudit(db.audit, auditBefore);
    var after := Step(db, now, Maintain(jobsBefore, auditBefore)).db;
    assert after.audit[..|after.audit| - 1] == rows;
    forall row ensures row in rows <==> row in db.audit && row.At() >= auditBefore {
      KeptIsNewEnough(db.audit, auditBefore, row);
    }
    forall id | id in kept ensures LogOf(after.events, id) == LogOf(db.events, id) { KeptLogs(db.events, kept, id); }
    forall event ensures event in after.events <==> event in db.events && event.job in kept {
      KeptEventsAreOfJobs(db.events, kept, event);
    }
  }

  lemma {:induction false} KeptEventsAreOfJobs(events: seq<EventRow>, jobs: map<Id, Job>, event: EventRow)
    ensures event in KeepEvents(events, jobs) <==> event in events && event.job in jobs
  {
    if events != [] {
      KeptEventsAreOfJobs(events[..|events| - 1], jobs, event);
      assert events == events[..|events| - 1] + [events[|events| - 1]];
    }
  }
}
