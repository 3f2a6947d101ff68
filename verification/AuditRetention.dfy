/** What maintenance leaves of the audit table (packages/core/src/store.ts), given a clock
    that does not run backwards. */
module AuditRetention {
  import opened JobLog

  /** The table holds the newest rows ever written, without gaps. */
  ghost predicate Retained(db: Db, clock: Millis) {
    && db.nextCursor == |db.history| + 1
    && (forall i :: 0 <= i < |db.history| ==> db.history[i].Cursor() == i + 1 && db.history[i].At() <= clock)
    && InTimeOrder(db.history)
    && IsSuffix(db.audit, db.history)
  }

  predicate InTimeOrder(rows: seq<AuditRow>) {
    forall i, j :: 0 <= i < j < |rows| ==> rows[i].At() <= rows[j].At()
  }

  predicate IsSuffix(rows: seq<AuditRow>, all: seq<AuditRow>) {
    |rows| <= |all| && rows == all[|all| - |rows|..]
  }

  lemma {:induction false} NothingNewEnough(rows: seq<AuditRow>, before: Millis)
    requires forall i :: 0 <= i < |rows| ==> rows[i].At() < before
    ensures KeepAudit(rows, before) == []
  {
    if rows != [] { NothingNewEnough(rows[..|rows| - 1], before); }
  }

  /** No row that is too old comes after one that is new enough. */
  predicate OldRowsFirst(rows: seq<AuditRow>, before: Millis) {
    forall i, j :: 0 <= i < j < |rows| && rows[i].At() >= before ==> rows[j].At() >= before
  }

  lemma {:induction false} OldRowsArePrefix(rows: seq<AuditRow>, before: Millis)
    requires OldRowsFirst(rows, before)
    ensures IsSuffix(KeepAudit(rows, before), rows)
  {
    if rows != [] {
      var init, last := rows[..|rows| - 1], rows[|rows| - 1];
      if last.At() >= before {
        OldRowsArePrefix(init, before);
        var gap := |init| - |KeepAudit(init, before)|;
        assert KeepAudit(rows, before) == init[gap..] + [last] == rows[gap..];
      } else {
        NothingNewEnough(rows, before);
      }
    }
  }

  lemma {:induction false} KeptIsNewEnough(rows: seq<AuditRow>, before: Millis, row: AuditRow)
    ensures row in KeepAudit(rows, before) <==> row in rows && row.At() >= before
  {
    if rows != [] {
      KeptIsNewEnough(rows[..|rows| - 1], before, row);
      assert rows == rows[..|rows| - 1] + [rows[|rows| - 1]];
    }
  }

  predicate Numbered(rows: seq<AuditRow>) {
    forall i, j :: 0 <= i < j < |rows| ==> rows[i].Cursor() < rows[j].Cursor()
  }

  /** Deleting by age leaves a suffix of numbered rows exactly if no row that is too old comes after
      one that is new enough. */
  lemma PruningLeavesASuffixExactlyWhen(rows: seq<AuditRow>, before: Millis)
    requires Numbered(rows)
    ensures IsSuffix(KeepAudit(rows, before), rows) <==> OldRowsFirst(rows, before)
  {
    hide KeepAudit, IsSuffix, OldRowsFirst, Numbered;
    if IsSuffix(KeepAudit(rows, before), rows) { SuffixMeansOldFirst(rows, before); }
    if OldRowsFirst(rows, before) { OldRowsArePrefix(rows, before); }
  }

  lemma SuffixMeansOldFirst(rows: seq<AuditRow>, before: Millis)
    requires Numbered(rows) && IsSuffix(KeepAudit(rows, before), rows)
    ensures OldRowsFirst(rows, before)
  {
    hide KeepAudit, Numbered, AuditRow.Cursor;
    var kept := KeepAudit(rows, before);
    forall i, j | 0 <= i < j < |rows| && rows[i].At() >= before ensures rows[j].At() >= before {
      KeptIsNewEnough(rows, before, rows[i]);
      InTheSuffix(rows, |rows| - |kept|, i, j);
      KeptIsNewEnough(rows, before, rows[j]);
    }
  }

  lemma InTheSuffix(rows: seq<AuditRow>, gap: nat, i: nat, j: nat)
    requires Numbered(rows) && gap <= |rows| && i < j < |rows| && rows[i] in rows[gap..]
    ensures rows[j] in rows[gap..]
  {
    var k :| 0 <= k < |rows[gap..]| && rows[gap..][k] == rows[i];
    assert rows[gap + k] == rows[i];
    assert rows[gap..][j - gap] == rows[j];
  }

  /** In particular deleting by age from rows in time order deletes a prefix. */
  lemma AgePrunesAPrefix(rows: seq<AuditRow>, before: Millis)
    requires InTimeOrder(rows)
    ensures IsSuffix(KeepAudit(rows, before), rows)
  {
    OldRowsArePrefix(rows, before);
  }

  /** Without that order it may leave a gap: here the second of three rows goes. */
  lemma ABackwardClockLeavesAGap()
    ensures var rows := [OtherAudit(1, "a", 5), OtherAudit(2, "b", 3), OtherAudit(3, "c", 6)];
            KeepAudit(rows, 4) == [rows[0], rows[2]] && !IsSuffix(KeepAudit(rows, 4), rows)
  {
    var rows := [OtherAudit(1, "a", 5), OtherAudit(2, "b", 3), OtherAudit(3, "c", 6)];
    assert rows[..2][..1] == [rows[0]];
    assert KeepAudit(rows[..2][..1], 4) == [rows[0]] by { assert rows[..2][..1][..0] == []; }
    assert KeepAudit(rows[..2], 4) == [rows[0]];
    assert KeepAudit(rows, 4) == [rows[0]] + [rows[2]];
    assert rows[1..][0] != rows[0];
  }

  lemma OneMoreRow(db: Db, clock: Millis, row: AuditRow)
    requires Retained(db, clock) && row.Cursor() == db.nextCursor && clock <= row.At()
    ensures Retained(Audit(db, row), row.At())
  {
    var after := Audit(db, row);
    var gap := |db.history| - |db.audit|;
    assert after.audit == after.history[gap..];
  }

  lemma OnlyTheLogCounts(db: Db, other: Db, clock: Millis, now: Millis)
    requires Retained(db, clock) && clock <= now
    requires other.audit == db.audit && other.history == db.history && other.nextCursor == db.nextCursor
    ensures Retained(other, now)
  {
  }

  lemma MaintenanceKeepsRetained(db: Db, clock: Millis, now: Millis, jobsBefore: Millis, auditBefore: Millis)
    requires Retained(db, clock) && clock <= now
    ensures Retained(MaintainTx(db, jobsBefore, auditBefore, now).db, now)
  {
    hide KeepJobs, KeepEvents;
    if jobsBefore < now && auditBefore < now {
      var kept := KeepJobs(db.jobs, jobsBefore);
      var pruned := db.(jobs := kept, events := KeepEvents(db.events, kept), audit := KeepAudit(db.audit, auditBefore));
      AgePrunesAPrefix(db.audit, auditBefore);
      assert pruned.audit == pruned.history[|pruned.history| - |pruned.audit|..];
      OneMoreRow(pruned, clock, OtherAudit(db.nextCursor, "maintenance.completed", now));
    }
  }

  /** Every transaction at a later time keeps the table a gap-free suffix of the history. */
  lemma StepKeepsRetained(db: Db, clock: Millis, now: Millis, op: Op)
    requires Retained(db, clock) && clock <= now
    ensures Retained(Step(db, now, op).db, now)
    ensures db.history <= Step(db, now, op).db.history
  {
    hide Retained, JobOf, FindEvent;
    var after := Step(db, now, op).db;
    match op {
      case Create(_, _, _, _, _) => TailGrows(db, clock, now, after);
      case Append(_, _, _, _) => TailGrows(db, clock, now, after);
      case RecordAudit(kind) => TailGrows(db, clock, now, after);
      case Maintain(jobsBefore, auditBefore) =>
        MaintenanceKeepsRetained(db, clock, now, jobsBefore, auditBefore);
    }
  }

  lemma TailGrows(db: Db, clock: Millis, now: Millis, after: Db)
    requires Retained(db, clock) && clock <= now
    requires
      || (after.audit == db.audit && after.history == db.history && after.nextCursor == db.nextCursor)
      || (exists row: AuditRow ::
            && row.Cursor() == db.nextCursor && row.At() == now && after.audit == Audit(db, row).audit
            && after.history == Audit(db, row).history && after.nextCursor == Audit(db, row).nextCursor)
    ensures Retained(after, now)
  {
    if after.audit == db.audit && after.history == db.history && after.nextCursor == db.nextCursor {
      OnlyTheLogCounts(db, after, clock, now);
    } else {
      var row: AuditRow :| row.Cursor() == db.nextCursor && row.At() == now && after.audit == Audit(db, row).audit
                           && after.history == Audit(db, row).history && after.nextCursor == Audit(db, row).nextCursor;
      OneMoreRow(db, clock, row);
      OnlyTheLogCounts(Audit(db, row), after, now, now);
    }
  }

  // ----- reading the table -----

  function Latest(db: Db): nat
    requires db.nextCursor > 0
  {
    db.nextCursor - 1
  }

  function MinCursor(rows: seq<AuditRow>): nat
    requires rows != []
  {
    var last := rows[|rows| - 1].Cursor();
    if |rows| == 1 then last
    else
      var before := MinCursor(rows[..|rows| - 1]);
      if before <= last then before else last
  }

  /** auditCursorBounds().earliest */
  function Earliest(db: Db): nat
    requires db.nextCursor > 0
  {
    if db.audit == [] then Latest(db) + 1 else MinCursor(db.audit)
  }

  function After(rows: seq<AuditRow>, cursor: nat): seq<AuditRow> {
    if rows == [] then []
    else After(rows[..|rows| - 1], cursor) + (if rows[|rows| - 1].Cursor() > cursor then [rows[|rows| - 1]] else [])
  }

  function First(rows: seq<AuditRow>, limit: nat): seq<AuditRow> { if |rows| <= limit then rows else rows[..limit] }

  function ListAuditEvents(db: Db, cursor: nat, limit: nat): seq<AuditRow> { First(After(db.audit, cursor), limit) }

  lemma {:induction false} MinIsFirst(rows: seq<AuditRow>)
    requires rows != [] && forall i :: 0 <= i < |rows| ==> rows[i].Cursor() == rows[0].Cursor() + i
    ensures MinCursor(rows) == rows[0].Cursor()
  {
    if |rows| > 1 { MinIsFirst(rows[..|rows| - 1]); }
  }

  lemma {:induction false} AfterIsADrop(rows: seq<AuditRow>, first: nat, cursor: nat)
    requires forall i :: 0 <= i < |rows| ==> rows[i].Cursor() == first + i
    requires first <= cursor + 1 <= first + |rows|
    ensures After(rows, cursor) == rows[cursor + 1 - first..]
  {
    if rows != [] {
      var init := rows[..|rows| - 1];
      if cursor + 1 < first + |rows| {
        AfterIsADrop(init, first, cursor);
      } else {
        NothingAfter(rows, cursor);
      }
    }
  }

  lemma {:induction false} NothingAfter(rows: seq<AuditRow>, cursor: nat)
    requires forall i :: 0 <= i < |rows| ==> rows[i].Cursor() <= cursor
    ensures After(rows, cursor) == []
  {
    if rows != [] { NothingAfter(rows[..|rows| - 1], cursor); }
  }

  /** The lower bound is one past what was pruned. */
  lemma EarliestIsAfterThePruned(db: Db, clock: Millis)
    requires Retained(db, clock)
    ensures Earliest(db) == |db.history| - |db.audit| + 1 && Latest(db) == |db.history|
  {
    if db.audit != [] { MinIsFirst(db.audit); }
  }

  /** Within the bounds, reading after a cursor misses nothing. */
  lemma ListingHasNoGaps(db: Db, clock: Millis, cursor: nat, limit: nat)
    requires Retained(db, clock) && Earliest(db) <= cursor + 1 && cursor <= Latest(db)
    ensures var end := if cursor + limit <= |db.history| then cursor + limit else |db.history|;
            ListAuditEvents(db, cursor, limit) == db.history[cursor..end]
  {
    EarliestIsAfterThePruned(db, clock);
    var first := |db.history| - |db.audit|;
    AfterIsADrop(db.audit, first + 1, cursor);
    assert After(db.audit, cursor) == db.history[cursor..];
  }
}
