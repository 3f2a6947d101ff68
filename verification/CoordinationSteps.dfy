/** How one transaction moves leases, counters, queue rows and authority. These are the
    facts the theorems over runs rest on. */
module CoordinationSteps {
  import opened Wrappers
  import opened CoordinationTables
  import opened CoordinationInvariants

  // ----- how one step changes authority -----

  predicate Recovers(op: Op) {
    op.AcquireLease? || op.Claim? || op.RenewIntegration? || op.RecoverExpired? || op.Maintain?
  }

  /** The ways an integration's authority can end. */
  predicate EndsAuthority(db: Db, now: Millis, op: Op, id: Id, lease: Id) {
    || (op.Complete? && op.request == id)
    || (op.Cancel? && op.request == id)
    || (lease in db.leases && op.Unregister? && op.agent == db.leases[lease].holder)
    || (LeaseExpired(db, lease, now) && Recovers(op))
  }

  /** Leases keep what they were granted with; a new one is numbered next. */
  ghost predicate LeasesMove(db: Db, now: Millis, after: Db) {
    && db.nextId <= after.nextId
    && forall lease :: lease in after.leases ==>
         if lease in db.leases then
           && after.leases[lease] == db.leases[lease].(expiresAt := after.leases[lease].expiresAt)
           && (after.leases[lease].expiresAt == db.leases[lease].expiresAt
               || after.leases[lease].expiresAt <= now + MAX_LEASE_SECONDS * 1000)
         else
           lease == db.nextId < after.nextId && after.leases[lease].expiresAt <= now + MAX_LEASE_SECONDS * 1000
  }

  /** The fencing token of the lease granted on `resource` between `db` and `after`, if any. */
  ghost function GrantOn(db: Db, after: Db, resource: Resource): seq<nat> {
    if db.nextId in after.leases && after.leases[db.nextId].resource == resource then [after.leases[db.nextId].token]
    else []
  }

  function Counter(db: Db, resource: Resource): nat { if resource in db.counters then db.counters[resource] else 1 }

  /** A fresh grant carries the counter's token and moves it by one; nothing else does. */
  ghost predicate CounterMoves(db: Db, after: Db, resource: Resource) {
    if db.nextId in after.leases && after.leases[db.nextId].resource == resource
    then after.leases[db.nextId].token == Counter(db, resource) && Counter(after, resource) == Counter(db, resource) + 1
    else Counter(after, resource) == Counter(db, resource)
  }

  /** Rows keep their place; finished rows stay as they are until they are pruned. */
  ghost predicate RowsMove(db: Db, op: Op, after: Db) {
    && (forall id :: id in after.requests && id !in db.requests ==>
          op.Enqueue? && id == db.nextId < after.nextId && after.requests[id].status == Queued)
    && (forall id :: id in db.requests && id in after.requests ==>
          after.requests[id].rowid == db.requests[id].rowid && after.requests[id].Key() == db.requests[id].Key())
    && (forall id :: id in db.requests && id in after.requests && !db.requests[id].status.Active() ==>
          after.requests[id] == db.requests[id])
    && (forall id :: id in db.requests && id !in after.requests ==> !db.requests[id].status.Active() && op.Maintain?)
  }

  /** A claim keeps its lease until one of the ways above ends it. */
  ghost predicate AuthorityMoves(db: Db, now: Millis, op: Op, after: Db) {
    forall lease, id :: Backs(db, lease, id) ==>
      || (Backs(after, lease, id) && lease in after.leases)
      || (EndsAuthority(db, now, op, id, lease) && lease !in after.leases)
  }

  /** How a transaction moves leases and counters. */
  ghost predicate GrantsMove(db: Db, now: Millis, after: Db) {
    && LeasesMove(db, now, after)
    && forall resource :: CounterMoves(db, after, resource)
  }

  ghost predicate Moves(db: Db, now: Millis, op: Op, after: Db) {
    GrantsMove(db, now, after) && RowsMove(db, op, after) && AuthorityMoves(db, now, op, after)
  }

  // The parts of `Valid` these lemmas need; the rest would only slow the solver down.
  ghost predicate Sound(db: Db) {
    && ClaimsAreBacked(db)
    && forall lease, a, b :: Backs(db, lease, a) && Backs(db, lease, b) ==> a == b
  }

  lemma ValidIsSound(db: Db)
    requires Valid(db)
    ensures Sound(db) && ClaimsAreBacked(db) && IdsWereDrawn(db)
  {
    forall lease, a, b | Backs(db, lease, a) && Backs(db, lease, b) ensures a == b {
      ClaimantIsUnique(db, lease, a, b);
    }
  }

  // ----- the shapes of edits -----

  /** Nothing is granted; leases may go, or get an expiry within the limit. */
  lemma NoGrant(db: Db, now: Millis, after: Db)
    requires IdsWereDrawn(db) && after.counters == db.counters && db.nextId <= after.nextId
    requires forall lease :: lease in after.leases ==>
      && lease in db.leases
      && after.leases[lease] == db.leases[lease].(expiresAt := after.leases[lease].expiresAt)
      && (after.leases[lease].expiresAt == db.leases[lease].expiresAt
          || after.leases[lease].expiresAt <= now + MAX_LEASE_SECONDS * 1000)
    ensures GrantsMove(db, now, after)
  {
  }

  lemma FreshLease(db: Db, now: Millis, lease: Lease, after: Db)
    requires IdsWereDrawn(db) && lease.token == Counter(db, lease.resource)
             && lease.expiresAt <= now + MAX_LEASE_SECONDS * 1000
    requires after.counters == db.counters[lease.resource := lease.token + 1] && after.nextId == db.nextId + 1
    requires after.leases == db.leases[db.nextId := lease]
             || exists gone :: gone in db.leases && after.leases == (db.leases - {gone})[db.nextId := lease]
    ensures GrantsMove(db, now, after)
  {
  }

  /** Requests are untouched and integration leases stay. */
  lemma SameQueue(db: Db, now: Millis, op: Op, after: Db)
    requires ClaimsAreBacked(db) && after.requests == db.requests
    requires forall lease :: lease in db.leases && db.leases[lease].resource.Target? ==> lease in after.leases
    ensures RowsMove(db, op, after) && AuthorityMoves(db, now, op, after)
  {
    hide EndsAuthority;
  }

  lemma OneRowArrives(db: Db, now: Millis, op: Op, row: Request)
    requires ClaimsAreBacked(db) && IdsWereDrawn(db) && op.Enqueue? && row.status == Queued
    ensures var after := db.(requests := db.requests[db.nextId := row], nextId := db.nextId + 1);
            RowsMove(db, op, after) && AuthorityMoves(db, now, op, after)
  {
    hide EndsAuthority;
  }

  /** One active row changes in place. */
  lemma OneRowChanges(db: Db, op: Op, id: Id, row: Request, after: Db)
    requires id in db.requests && db.requests[id].status.Active() && after.requests == db.requests[id := row]
    requires row.rowid == db.requests[id].rowid && row.Key() == db.requests[id].Key()
    ensures RowsMove(db, op, after)
  {
  }

  /** ... without losing a claim it had. */
  lemma ClaimsStay(db: Db, now: Millis, op: Op, id: Id, row: Request, after: Db)
    requires ClaimsAreBacked(db) && id in db.requests && after.requests == db.requests[id := row]
    requires forall lease :: lease in db.leases ==> lease in after.leases
    requires db.requests[id].status == Claimed ==> row.status == Claimed && row.lease == db.requests[id].lease
    ensures AuthorityMoves(db, now, op, after)
  {
    hide EndsAuthority;
  }

  /** ... and ends its claim together with the lease. */
  lemma OneClaimEnds(db: Db, now: Millis, op: Op, id: Id, row: Request, after: Db)
    requires Sound(db) && id in db.requests && db.requests[id].status == Claimed
    requires after.requests == db.requests[id := row] && after.leases == db.leases - {db.requests[id].lease.value}
    requires EndsAuthority(db, now, op, id, db.requests[id].lease.value)
    ensures AuthorityMoves(db, now, op, after)
  {
    hide EndsAuthority;
    assert Backs(db, db.requests[id].lease.value, id);
  }

  lemma RecoveryMoves(db: Db, now: Millis, op: Op)
    requires ClaimsAreBacked(db) && Recovers(op)
    ensures RowsMove(db, op, Recover(db, now)) && AuthorityMoves(db, now, op, Recover(db, now))
  {
    hide RowsMove, AuthorityMoves;
    RecoveryMovesRows(db, now, op);
    RecoveryMovesAuthority(db, now, op);
  }

  lemma RecoveryMovesRows(db: Db, now: Millis, op: Op)
    requires Recovers(op)
    ensures RowsMove(db, op, Recover(db, now))
  {
    hide LeaseExpired;
  }

  lemma RecoveryMovesAuthority(db: Db, now: Millis, op: Op)
    requires ClaimsAreBacked(db) && Recovers(op)
    ensures AuthorityMoves(db, now, op, Recover(db, now))
  {
  }

  lemma UnregisterMoves(db: Db, now: Millis, op: Op)
    requires Sound(db) && op.Unregister?
    ensures var after := UnregisterTx(db, op.agent, op.secret, now).db;
            RowsMove(db, op, after) && AuthorityMoves(db, now, op, after)
  {
  }

  lemma PruningMoves(live: Db, now: Millis, op: Op, after: Db)
    requires ClaimsAreBacked(live) && op.Maintain? && after.leases == live.leases
    requires after.requests == map id | id in live.requests && !Prunable(live, live.requests[id], op.terminalBefore) ::
               live.requests[id]
    ensures RowsMove(live, op, after) && AuthorityMoves(live, now, op, after)
  {
    hide EndsAuthority;
  }

  // ----- recovery followed by the rest of the same transaction -----

  lemma GrantsAfterRecovery(db: Db, now: Millis, after: Db)
    requires IdsWereDrawn(db) && GrantsMove(Recover(db, now), now, after)
    ensures GrantsMove(db, now, after)
  {
    forall resource ensures CounterMoves(db, after, resource) {
      assert CounterMoves(Recover(db, now), after, resource);
    }
  }

  lemma RowsAfterRecovery(db: Db, now: Millis, op: Op, after: Db)
    requires Recovers(op) && RowsMove(Recover(db, now), op, after)
    ensures RowsMove(db, op, after)
  {
    hide LeaseExpired;
  }

  lemma AuthorityAfterRecovery(db: Db, now: Millis, op: Op, after: Db)
    requires ClaimsAreBacked(db) && IdsWereDrawn(db) && Recovers(op)
    requires LeasesMove(Recover(db, now), now, after) && AuthorityMoves(Recover(db, now), now, op, after)
    ensures AuthorityMoves(db, now, op, after)
  {
    var live := Recover(db, now);
    forall lease, id | Backs(db, lease, id)
      ensures (Backs(after, lease, id) && lease in after.leases)
              || (EndsAuthority(db, now, op, id, lease) && lease !in after.leases)
    {
      if !LeaseExpired(db, lease, now) { assert Backs(live, lease, id); }
    }
  }

  lemma AfterRecovery(db: Db, now: Millis, op: Op, after: Db)
    requires Valid(db) && Recovers(op) && Moves(Recover(db, now), now, op, after)
    ensures Moves(db, now, op, after)
  {
    hide LeasesMove, CounterMoves, RowsMove, AuthorityMoves;
    GrantsAfterRecovery(db, now, after);
    RowsAfterRecovery(db, now, op, after);
    AuthorityAfterRecovery(db, now, op, after);
  }

  // ----- each transaction -----

  /** Nothing but agents and workspaces changes; every refused call is such a step. */
  lemma StillMoves(db: Db, now: Millis, op: Op, after: Db)
    requires Valid(db)
    requires after.leases == db.leases && after.counters == db.counters && after.requests == db.requests
             && db.nextId <= after.nextId
    ensures Moves(db, now, op, after)
  {
    hide Valid, Sound, GrantsMove, RowsMove, AuthorityMoves;
    ValidIsSound(db);
    NoGrant(db, now, after);
    SameQueue(db, now, op, after);
  }

  lemma AgentMoves(db: Db, now: Millis, op: Op)
    requires Valid(db) && (op.UpsertWorkspace? || op.Register? || op.Heartbeat?)
    ensures Moves(db, now, op, Step(db, now, op).db)
  {
    hide Valid, Moves;
    StillMoves(db, now, op, Step(db, now, op).db);
  }

  lemma ShrinkMoves(db: Db, now: Millis, op: Op)
    requires Valid(db) && (op.Unregister? || op.RecoverExpired?)
    ensures Moves(db, now, op, Step(db, now, op).db)
  {
    hide Valid, Sound, GrantsMove, RowsMove, AuthorityMoves;
    var after := Step(db, now, op).db;
    if after == db {
      StillMoves(db, now, op, db);
    } else {
      ValidIsSound(db);
      NoGrant(db, now, after);
      if op.Unregister? { UnregisterMoves(db, now, op); } else { RecoveryMoves(db, now, op); }
    }
  }

  lemma MaintainMoves(db: Db, now: Millis, op: Op)
    requires Valid(db) && op.Maintain?
    ensures Moves(db, now, op, Step(db, now, op).db)
  {
    hide Valid, Sound, GrantsMove, RowsMove, AuthorityMoves;
    var after := Step(db, now, op).db;
    if after == db {
      StillMoves(db, now, op, db);
    } else {
      var live := Recover(db, now);
      RecoverKeepsValid(db, now);
      ValidIsSound(live);
      NoGrant(live, now, after);
      PruningMoves(live, now, op, after);
      AfterRecovery(db, now, op, after);
    }
  }

  lemma OwnLeaseMoves(db: Db, now: Millis, op: Op)
    requires Valid(db) && (op.RenewLease? || op.ReleaseLease?)
    ensures Moves(db, now, op, Step(db, now, op).db)
  {
    hide Valid, Sound, GrantsMove, RowsMove, AuthorityMoves, Reserved, Resource.Text;
    var after := Step(db, now, op).db;
    ValidIsSound(db);
    if op.lease in db.leases && db.leases[op.lease].resource.Target? {
      TargetTextIsReserved(db.leases[op.lease].resource);
    }
    NoGrant(db, now, after);
    SameQueue(db, now, op, after);
  }

  lemma AcquireMoves(db: Db, now: Millis, op: Op)
    requires Valid(db) && op.AcquireLease?
    ensures Moves(db, now, op, Step(db, now, op).db)
  {
    hide Valid, Moves;
    var after := Step(db, now, op).db;
    if after == db {
      StillMoves(db, now, op, after);
    } else {
      RecoverKeepsValid(db, now);
      NamedGrantMoves(Recover(db, now), now, op);
      AfterRecovery(db, now, op, after);
    }
  }

  lemma NamedGrantMoves(db: Db, now: Millis, op: Op)
    requires Valid(db) && op.AcquireLease? && !Reserved(op.name)
    ensures Moves(db, now, op, AcquireInTransaction(db, Named(op.name), op.agent, op.ttl, true, now).db)
  {
    hide Valid, Sound, GrantsMove, RowsMove, AuthorityMoves, Reserved, Resource.Text;
    var effect := AcquireInTransaction(db, Named(op.name), op.agent, op.ttl, true, now);
    LeaseOnIsUnique(db, Named(op.name));
    ValidIsSound(db);
    SameQueue(db, now, op, effect.db);
    if effect.db.nextId == db.nextId {
      NoGrant(db, now, effect.db);
    } else {
      FreshLease(db, now, effect.reply.lease, effect.db);
    }
  }

  lemma WaitingRowMoves(db: Db, now: Millis, op: Op)
    requires Valid(db) && (op.Enqueue? || op.Refresh? || op.OwnerCancel?)
    ensures Moves(db, now, op, Step(db, now, op).db)
  {
    hide Valid, Sound, GrantsMove, RowsMove, AuthorityMoves, RepositoryError, IsOid;
    var effect := Step(db, now, op);
    if effect.db == db {
      StillMoves(db, now, op, db);
    } else {
      ValidIsSound(db);
      NoGrant(db, now, effect.db);
      if op.Enqueue? {
        OneRowArrives(db, now, op, effect.reply.row);
      } else {
        OneRowChanges(db, op, op.request, effect.reply.row, effect.db);
        ClaimsStay(db, now, op, op.request, effect.reply.row, effect.db);
      }
    }
  }

  lemma FinishMoves(db: Db, now: Millis, op: Op)
    requires Valid(db) && (op.Complete? || op.Cancel?)
    ensures Moves(db, now, op, Step(db, now, op).db)
  {
    hide Valid, Sound, GrantsMove, RowsMove, AuthorityMoves, RepositoryError, IsOid;
    var effect := Step(db, now, op);
    if effect.db == db {
      StillMoves(db, now, op, db);
    } else {
      ValidIsSound(db);
      NoGrant(db, now, effect.db);
      OneRowChanges(db, op, op.request, effect.reply.row, effect.db);
      if db.requests[op.request].status == Claimed {
        OneClaimEnds(db, now, op, op.request, effect.reply.row, effect.db);
      } else {
        WaitingHoldsNothing(db, op.request);
        ClaimsStay(db, now, op, op.request, effect.reply.row, effect.db);
      }
    }
  }

  lemma RenewIntegrationMoves(db: Db, now: Millis, op: Op)
    requires Valid(db) && op.RenewIntegration?
    ensures Moves(db, now, op, Step(db, now, op).db)
  {
    hide Valid, Sound, GrantsMove, RowsMove, AuthorityMoves, RepositoryError, IsOid;
    var effect := Step(db, now, op);
    if effect.db == db {
      StillMoves(db, now, op, db);
    } else {
      var live := Recover(db, now);
      RecoverKeepsValid(db, now);
      ValidIsSound(live);
      NoGrant(live, now, effect.db);
      OneRowChanges(live, op, op.request, effect.reply.row, effect.db);
      ClaimsStay(live, now, op, op.request, effect.reply.row, effect.db);
      AfterRecovery(db, now, op, effect.db);
    }
  }

  lemma ClaimMoves(db: Db, now: Millis, op: Op)
    requires Valid(db) && op.Claim?
    ensures Moves(db, now, op, Step(db, now, op).db)
  {
    hide Valid, Sound, GrantsMove, RowsMove, AuthorityMoves, RepositoryError, IsOid;
    var effect := Step(db, now, op);
    if effect.db == db {
      StillMoves(db, now, op, db);
    } else {
      var live := Recover(db, now);
      RecoverKeepsValid(db, now);
      if effect.reply.RequestReply? { ClaimGrants(live, op.request, op.agent, op.ttl, now); }
      ValidIsSound(live);
      var row := effect.db.requests[op.request];
      if effect.reply.RequestReply? {
        FreshLease(live, now, effect.db.leases[live.nextId], effect.db);
      } else {
        NoGrant(live, now, effect.db);
      }
      OneRowChanges(live, op, op.request, row, effect.db);
      ClaimsStay(live, now, op, op.request, row, effect.db);
      AfterRecovery(db, now, op, effect.db);
    }
  }

  /** How any transaction moves leases, counters, rows and authority. */
  lemma StepMoves(db: Db, now: Millis, op: Op)
    requires Valid(db)
    ensures Moves(db, now, op, Step(db, now, op).db)
  {
    hide Valid, Step, Moves;
    match op
    case UpsertWorkspace(_, _) => AgentMoves(db, now, op);
    case Register(_, _, _, _) => AgentMoves(db, now, op);
    case Heartbeat(_, _, _, _) => AgentMoves(db, now, op);
    case AcquireLease(_, _, _, _) => AcquireMoves(db, now, op);
    case RenewLease(_, _, _, _) => OwnLeaseMoves(db, now, op);
    case ReleaseLease(_, _, _) => OwnLeaseMoves(db, now, op);
    case Claim(_, _, _, _, _, _) => ClaimMoves(db, now, op);
    case RenewIntegration(_, _, _, _) => RenewIntegrationMoves(db, now, op);
    case Complete(_, _, _, _, _) => FinishMoves(db, now, op);
    case Cancel(_, _, _) => FinishMoves(db, now, op);
    case Unregister(_, _) => ShrinkMoves(db, now, op);
    case RecoverExpired => ShrinkMoves(db, now, op);
    case Maintain(_, _, _) => MaintainMoves(db, now, op);
    case _ => WaitingRowMoves(db, now, op);
  }
}
