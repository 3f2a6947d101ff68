/** What every transaction keeps: the one-to-one link between claimed requests and
    integration leases, the order of each target's queue, and the fencing counters. */
module CoordinationInvariants {
  import opened Wrappers
  import opened CoordinationTables

  /** A claimed request owns a live lease on its own target, held by its claimant. */
  ghost predicate ClaimsAreBacked(db: Db) {
    forall id :: id in db.requests && db.requests[id].status == Claimed ==>
      && db.requests[id].lease.Some? && db.requests[id].claimedBy.Some?
      && db.requests[id].lease.value in db.leases
      && db.leases[db.requests[id].lease.value].resource == db.requests[id].Key()
      && db.leases[db.requests[id].lease.value].holder == db.requests[id].claimedBy.value
  }

  ghost predicate Backs(db: Db, lease: Id, id: Id) {
    id in db.requests && db.requests[id].status == Claimed && db.requests[id].lease == Some(lease)
  }

  /** Conversely every integration lease belongs to a claimed request. */
  ghost predicate TargetLeasesAreClaims(db: Db) {
    forall lease :: lease in db.leases && db.leases[lease].resource.Target? ==> exists id :: Backs(db, lease, id)
  }

  ghost predicate WaitingRowsCarryNothing(db: Db) {
    forall id :: id in db.requests && (db.requests[id].status == Queued || db.requests[id].status == NeedsRefresh) ==>
      db.requests[id].lease.None? && db.requests[id].claimedBy.None?
  }

  /** Finished rows may keep an old lease id, but never one that is still a lease. */
  ghost predicate FinishedRowsHoldNothing(db: Db) {
    forall id :: id in db.requests ==>
      && (db.requests[id].status.Active() <==> db.requests[id].completedAt.None?)
      && (!db.requests[id].status.Active() && db.requests[id].lease.Some? ==> db.requests[id].lease.value !in db.leases)
  }

  ghost predicate OneLeasePerResource(db: Db) {
    forall a, b :: a in db.leases && b in db.leases && db.leases[a].resource == db.leases[b].resource ==> a == b
  }

  ghost predicate HoldersAreRegistered(db: Db) {
    forall lease :: lease in db.leases ==>
      db.leases[lease].holder in db.agents && db.agents[db.leases[lease].holder].registered
  }

  /** A lease in the table carries the highest token ever given for its resource. */
  ghost predicate TokensMatchCounters(db: Db) {
    && (forall lease :: lease in db.leases ==>
          db.leases[lease].resource in db.counters
          && db.counters[db.leases[lease].resource] == db.leases[lease].token + 1)
    && (forall resource :: resource in db.counters ==> 2 <= db.counters[resource])
  }

  ghost predicate IdsWereDrawn(db: Db) {
    && (forall lease :: lease in db.leases ==> lease < db.nextId)
    && (forall id :: id in db.requests ==>
          id < db.nextId && (db.requests[id].lease.Some? ==> db.requests[id].lease.value < db.nextId))
    && (forall agent :: agent in db.agents ==> agent < db.nextId)
  }

  /** Rowids follow the order of enqueueing, even though pruning may free and reuse them. */
  ghost predicate RowidsFollowArrival(db: Db) {
    forall a, b :: a in db.requests && b in db.requests && a < b ==> db.requests[a].rowid < db.requests[b].rowid
  }

  /** A claimed request has no earlier active request on its target. */
  ghost predicate ClaimsAreHeads(db: Db) {
    forall id, other :: id in db.requests && db.requests[id].status == Claimed ==> !Ahead(db, other, id)
  }

  ghost predicate NamesAreNotReserved(db: Db) {
    forall lease :: lease in db.leases && db.leases[lease].resource.Named? ==> !Reserved(db.leases[lease].resource.name)
  }

  ghost predicate Valid(db: Db) {
    && ClaimsAreBacked(db)
    && TargetLeasesAreClaims(db)
    && WaitingRowsCarryNothing(db)
    && FinishedRowsHoldNothing(db)
    && OneLeasePerResource(db)
    && HoldersAreRegistered(db)
    && TokensMatchCounters(db)
    && IdsWereDrawn(db)
    && RowidsFollowArrival(db)
    && ClaimsAreHeads(db)
    && NamesAreNotReserved(db)
  }

  lemma TargetTextIsReserved(resource: Resource)
    requires resource.Target?
    ensures Reserved(resource.Text())
  {
    assert resource.Text()[..4] == RESERVED_PREFIX;
  }

  // ----- what survives an edit, part by part -----

  /** Integration leases that remain keep the claimed request behind them. */
  lemma LinkStays(db: Db, after: Db)
    requires TargetLeasesAreClaims(db)
    requires forall lease, id :: Backs(db, lease, id) && lease in after.leases ==> Backs(after, lease, id)
    requires forall lease :: lease in after.leases && after.leases[lease].resource.Target? ==>
               lease in db.leases && db.leases[lease].resource.Target?
    ensures TargetLeasesAreClaims(after)
  {
    forall lease | lease in after.leases && after.leases[lease].resource.Target?
      ensures exists id :: Backs(after, lease, id)
    {
      var id :| Backs(db, lease, id);
      assert Backs(after, lease, id);
    }
  }

  /** No row moves to the front of a claimed one. */
  lemma HeadsStay(db: Db, after: Db)
    requires ClaimsAreHeads(db)
    requires forall id :: id in after.requests ==>
      && id in db.requests && after.requests[id].rowid == db.requests[id].rowid
      && after.requests[id].Key() == db.requests[id].Key()
      && (after.requests[id].status == Claimed ==> db.requests[id].status == Claimed)
      && (after.requests[id].status.Active() ==> db.requests[id].status.Active())
    ensures ClaimsAreHeads(after)
  {
    forall id, other | id in after.requests && after.requests[id].status == Claimed
      ensures !Ahead(after, other, id)
    {
      assert !Ahead(db, other, id);
    }
  }

  /** Leases that remain keep what they were granted with. */
  ghost predicate SameGrants(db: Db, after: Db) {
    && after.counters == db.counters
    && forall lease :: lease in after.leases ==>
         lease in db.leases && after.leases[lease] == db.leases[lease].(expiresAt := after.leases[lease].expiresAt)
  }

  lemma LeasesStay(db: Db, after: Db)
    requires OneLeasePerResource(db) && TokensMatchCounters(db) && NamesAreNotReserved(db) && SameGrants(db, after)
    ensures OneLeasePerResource(after) && TokensMatchCounters(after) && NamesAreNotReserved(after)
  {
  }

  /** Rows keep their place and draw no lease id they did not have. */
  ghost predicate SamePlaces(db: Db, after: Db) {
    forall id :: id in after.requests ==>
      && id in db.requests && after.requests[id].rowid == db.requests[id].rowid
      && (after.requests[id].lease.Some? ==> after.requests[id].lease == db.requests[id].lease)
  }

  lemma OrderStays(db: Db, after: Db)
    requires IdsWereDrawn(db) && RowidsFollowArrival(db) && SamePlaces(db, after)
    requires after.nextId == db.nextId && after.agents.Keys == db.agents.Keys
    requires forall lease :: lease in after.leases ==> lease in db.leases
    ensures IdsWereDrawn(after) && RowidsFollowArrival(after)
  {
  }

  /** What `Valid` says about single rows. */
  lemma WaitingHoldsNothing(db: Db, id: Id)
    requires Valid(db) && id in db.requests && db.requests[id].status.Active() && db.requests[id].status != Claimed
    ensures db.requests[id].lease.None? && db.requests[id].claimedBy.None? && db.requests[id].completedAt.None?
  {
  }

  lemma LeaseOfClaim(db: Db, id: Id)
    requires Valid(db) && id in db.requests && db.requests[id].status == Claimed
    ensures db.requests[id].lease.Some? && db.requests[id].lease.value in db.leases
    ensures db.leases[db.requests[id].lease.value].resource == db.requests[id].Key()
    ensures db.requests[id].claimedBy == Some(db.leases[db.requests[id].lease.value].holder)
    ensures db.leases[db.requests[id].lease.value].resource in db.counters
    ensures db.leases[db.requests[id].lease.value].token + 1 == db.counters[db.requests[id].Key()] >= 2
  {
  }

  /** Recovery and applied maintenance drop exactly the expired leases, and whoever still holds
      one, or a claim, stays registered. */
  lemma OnlyExpiredLeasesGo(db: Db, now: Millis, op: Op, lease: Id)
    requires Valid(db)
             && (op.RecoverExpired? || (op.Maintain? && op.apply && op.staleBefore < now && op.terminalBefore < now))
    ensures var after := Step(db, now, op).db;
            && (lease in after.leases <==> lease in db.leases && !LeaseExpired(db, lease, now))
            && (lease in after.leases ==>
                  && after.leases[lease] == db.leases[lease]
                  && after.leases[lease].holder in after.agents && after.agents[after.leases[lease].holder].registered)
  {
    hide Valid, Step;
    StepKeepsValid(db, now, op);
    HoldersStay(Step(db, now, op).db, lease);
    OnlyExpiredRowsGo(db, now, op);
  }

  lemma HoldersStay(db: Db, lease: Id)
    requires Valid(db)
    ensures lease in db.leases ==> db.leases[lease].holder in db.agents && db.agents[db.leases[lease].holder].registered
  {
  }

  lemma OnlyExpiredRowsGo(db: Db, now: Millis, op: Op)
    requires op.RecoverExpired? || (op.Maintain? && op.apply && op.staleBefore < now && op.terminalBefore < now)
    ensures Step(db, now, op).db.leases == Recover(db, now).leases
  {
    hide Prunable, HoldsWork;
  }

  // ----- transactions that only take authority or finished rows away -----

  /** `after` keeps some leases of `db`, unregisters some agents, drops some finished
      rows, and takes authority from exactly the claimed rows whose lease went. */
  ghost predicate Shrinks(db: Db, after: Db) {
    && after.counters == db.counters && after.nextId == db.nextId
    && after.leases.Keys <= db.leases.Keys
    && (forall lease :: lease in after.leases ==> after.leases[lease] == db.leases[lease])
    && after.agents.Keys == db.agents.Keys
    && (forall lease :: lease in after.leases ==>
          db.leases[lease].holder in after.agents && after.agents[db.leases[lease].holder].registered)
    && after.requests.Keys <= db.requests.Keys
    && (forall id :: id in db.requests && db.requests[id].status.Active() ==> id in after.requests)
    && (forall id :: id in after.requests ==> Kept(db, after, id))
  }

  ghost predicate Kept(db: Db, after: Db, id: Id)
    requires id in after.requests && id in db.requests
  {
    var was, row := db.requests[id], after.requests[id];
    if was.status == Claimed && was.lease.Some? && was.lease.value !in after.leases
    then row == was.Released(row.updatedAt)
    else row == was
  }

  lemma ShrinkKeepsRows(db: Db, after: Db)
    requires ClaimsAreBacked(db) && WaitingRowsCarryNothing(db) && FinishedRowsHoldNothing(db)
             && HoldersAreRegistered(db)
    requires Shrinks(db, after)
    ensures ClaimsAreBacked(after) && WaitingRowsCarryNothing(after) && FinishedRowsHoldNothing(after)
            && HoldersAreRegistered(after)
  {
  }

  lemma ShrinkKeepsLink(db: Db, after: Db)
    requires TargetLeasesAreClaims(db) && ClaimsAreHeads(db) && Shrinks(db, after)
    ensures TargetLeasesAreClaims(after) && ClaimsAreHeads(after)
  {
    hide TargetLeasesAreClaims, ClaimsAreHeads;
    LinkStays(db, after);
    HeadsStay(db, after);
  }

  lemma ShrinkKeepsRest(db: Db, after: Db)
    requires OneLeasePerResource(db) && TokensMatchCounters(db) && NamesAreNotReserved(db)
    requires IdsWereDrawn(db) && RowidsFollowArrival(db) && Shrinks(db, after)
    ensures OneLeasePerResource(after) && TokensMatchCounters(after) && NamesAreNotReserved(after)
    ensures IdsWereDrawn(after) && RowidsFollowArrival(after)
  {
    hide OneLeasePerResource, TokensMatchCounters, NamesAreNotReserved, IdsWereDrawn, RowidsFollowArrival;
    LeasesStay(db, after);
    OrderStays(db, after);
  }

  lemma ShrinkKeepsValid(db: Db, after: Db)
    requires Valid(db) && Shrinks(db, after)
    ensures Valid(after)
  {
    hide Shrinks, ClaimsAreBacked, TargetLeasesAreClaims, WaitingRowsCarryNothing, FinishedRowsHoldNothing,
         OneLeasePerResource, HoldersAreRegistered, TokensMatchCounters, IdsWereDrawn, RowidsFollowArrival,
         ClaimsAreHeads, NamesAreNotReserved;
    ShrinkKeepsRows(db, after);
    ShrinkKeepsLink(db, after);
    ShrinkKeepsRest(db, after);
  }

  lemma RecoverKeepsValid(db: Db, now: Millis)
    requires Valid(db)
    ensures Valid(Recover(db, now))
  {
    ShrinkKeepsValid(db, Recover(db, now));
  }

  lemma ClaimantIsUnique(db: Db, lease: Id, a: Id, b: Id)
    requires Valid(db) && Backs(db, lease, a) && Backs(db, lease, b)
    ensures a == b
  {
    assert !Ahead(db, a, b) && !Ahead(db, b, a);
  }

  lemma UnregisterShrinks(db: Db, agent: Id, secret: Id, now: Millis)
    requires Valid(db)
    requires UnregisterTx(db, agent, secret, now).db != db
    ensures Shrinks(db, UnregisterTx(db, agent, secret, now).db)
  {
    var after := UnregisterTx(db, agent, secret, now).db;
    forall id | id in after.requests ensures Kept(db, after, id) {
      if db.requests[id].status == Claimed {
        var lease := db.requests[id].lease.value;
        assert db.leases[lease].holder == db.requests[id].claimedBy.value;
        if BacksClaimOf(db, lease, agent) {
          var other :| && other in db.requests && ClaimedBy(db.requests[other], agent)
                       && db.requests[other].lease == Some(lease);
          ClaimantIsUnique(db, lease, id, other);
        }
      }
    }
  }

  lemma UnregisterKeepsValid(db: Db, agent: Id, secret: Id, now: Millis)
    requires Valid(db)
    ensures Valid(UnregisterTx(db, agent, secret, now).db)
  {
    hide Valid, Shrinks;
    if UnregisterTx(db, agent, secret, now).db != db {
      UnregisterShrinks(db, agent, secret, now);
      ShrinkKeepsValid(db, UnregisterTx(db, agent, secret, now).db);
    }
  }

  lemma MaintainKeepsValid(db: Db, staleBefore: Millis, terminalBefore: Millis, apply: bool, now: Millis)
    requires Valid(db)
    ensures Valid(MaintainTx(db, staleBefore, terminalBefore, apply, now).db)
  {
    hide Valid, Shrinks;
    var live := Recover(db, now);
    var after := MaintainTx(db, staleBefore, terminalBefore, apply, now).db;
    if after != db {
      RecoverKeepsValid(db, now);
      MaintainShrinks(live, after, staleBefore, terminalBefore);
      ShrinkKeepsValid(live, after);
    }
  }

  lemma MaintainShrinks(live: Db, after: Db, staleBefore: Millis, terminalBefore: Millis)
    requires Valid(live)
    requires after == live.(
      agents := map id | id in live.agents ::
        if GoesOffline(live, id, staleBefore) then live.agents[id].(registered := false) else live.agents[id],
      requests := map id | id in live.requests && !Prunable(live, live.requests[id], terminalBefore) ::
                    live.requests[id])
    ensures Shrinks(live, after)
  {
    forall lease | lease in after.leases ensures after.agents[live.leases[lease].holder].registered {
      assert HoldsWork(live, live.leases[lease].holder);
    }
  }

  // ----- transactions that touch only agents, workspaces or plain-name leases -----

  /** Requests and integration leases are as before. */
  ghost predicate SameIntegrations(db: Db, after: Db) {
    && after.requests == db.requests
    && (forall lease :: lease in after.leases && after.leases[lease].resource.Target? ==>
          lease in db.leases && db.leases[lease] == after.leases[lease])
    && (forall lease :: lease in db.leases && db.leases[lease].resource.Target? ==>
          lease in after.leases && after.leases[lease] == db.leases[lease])
  }

  lemma SameIntegrationsKeepLink(db: Db, after: Db)
    requires Valid(db) && SameIntegrations(db, after)
    ensures ClaimsAreBacked(after) && TargetLeasesAreClaims(after) && ClaimsAreHeads(after)
  {
    hide TargetLeasesAreClaims, ClaimsAreHeads, FinishedRowsHoldNothing, OneLeasePerResource, HoldersAreRegistered,
         TokensMatchCounters, IdsWereDrawn, RowidsFollowArrival, NamesAreNotReserved;
    LinkStays(db, after);
    HeadsStay(db, after);
  }

  lemma AcquireKeepsValid(db: Db, name: string, agent: Id, secret: Id, ttl: int, now: Millis)
    requires Valid(db)
    ensures Valid(AcquireLeaseTx(db, name, agent, secret, ttl, now).db)
  {
    hide Valid, AcquireInTransaction;
    var effect := AcquireLeaseTx(db, name, agent, secret, ttl, now);
    if !effect.reply.Err? {
      RecoverKeepsValid(db, now);
      NamedGrantKeepsValid(Recover(db, now), name, agent, ttl, now);
    }
  }

  lemma NamedGrantKeepsValid(db: Db, name: string, agent: Id, ttl: int, now: Millis)
    requires Valid(db) && !Reserved(name)
    ensures Valid(AcquireInTransaction(db, Named(name), agent, ttl, true, now).db)
  {
    hide Valid, Reserved;
    var effect := AcquireInTransaction(db, Named(name), agent, ttl, true, now);
    if effect.reply.LeaseReply? {
      var existing := LeaseOn(db, Named(name));
      LeaseOnIsUnique(db, Named(name));
      if existing.Some? && db.leases[existing.value].expiresAt > now {
        NamedExtensionKeepsValid(db, existing.value, now + ttl * 1000);
      } else {
        FreshGrant(db, Named(name), existing, effect.reply.lease, effect.db);
      }
    }
  }

  lemma FreshGrant(db: Db, resource: Resource, existing: Option<Id>, lease: Lease, after: Db)
    requires Valid(db) && resource.Named? && !Reserved(resource.name) && resource == lease.resource
    requires existing.Some? ==> Holds(db, existing.value, resource)
    requires forall id :: id in db.leases && db.leases[id].resource == resource ==> existing == Some(id)
    requires lease.token == (if resource in db.counters then db.counters[resource] else 1)
    requires lease.holder in db.agents && db.agents[lease.holder].registered
    requires var others := if existing.Some? then db.leases - {existing.value} else db.leases;
             after == db.(leases := others[db.nextId := lease],
                          counters := db.counters[resource := lease.token + 1], nextId := db.nextId + 1)
    ensures Valid(after)
  {
    hide Valid;
    if existing.Some? {
      NamedRemovalKeepsValid(db, existing.value);
      NamedInsertKeepsValid(db.(leases := db.leases - {existing.value}), lease);
    } else {
      NamedInsertKeepsValid(db, lease);
    }
  }

  lemma LeaseOnIsUnique(db: Db, resource: Resource)
    requires Valid(db)
    ensures LeaseOn(db, resource).Some? ==> Holds(db, LeaseOn(db, resource).value, resource)
    ensures forall lease :: lease in db.leases && db.leases[lease].resource == resource ==>
              LeaseOn(db, resource) == Some(lease)
  {
    forall lease | lease in db.leases && db.leases[lease].resource == resource
      ensures LeaseOn(db, resource) == Some(lease)
    {
      assert Holds(db, lease, resource);
    }
  }

  lemma NamedRemovalKeepsValid(db: Db, id: Id)
    requires Valid(db) && id in db.leases && db.leases[id].resource.Named?
    ensures Valid(db.(leases := db.leases - {id}))
  {
    ShrinkKeepsValid(db, db.(leases := db.leases - {id}));
  }

  lemma NamedExtensionKeepsValid(db: Db, id: Id, expiresAt: Millis)
    requires Valid(db) && id in db.leases && db.leases[id].resource.Named?
    ensures Valid(db.(leases := db.leases[id := db.leases[id].(expiresAt := expiresAt)]))
  {
    hide ClaimsAreBacked, TargetLeasesAreClaims, ClaimsAreHeads, OneLeasePerResource, TokensMatchCounters,
         NamesAreNotReserved, IdsWereDrawn, RowidsFollowArrival;
    var after := db.(leases := db.leases[id := db.leases[id].(expiresAt := expiresAt)]);
    SameIntegrationsKeepLink(db, after);
    LeasesStay(db, after);
    OrderStays(db, after);
  }

  lemma NamedInsertKeepsValid(db: Db, lease: Lease)
    requires Valid(db) && lease.resource.Named? && !Reserved(lease.resource.name)
    requires forall other :: other in db.leases ==> db.leases[other].resource != lease.resource
    requires lease.token == (if lease.resource in db.counters then db.counters[lease.resource] else 1)
    requires lease.holder in db.agents && db.agents[lease.holder].registered
    ensures Valid(db.(leases := db.leases[db.nextId := lease],
                      counters := db.counters[lease.resource := lease.token + 1],
                      nextId := db.nextId + 1))
  {
    hide ClaimsAreBacked, TargetLeasesAreClaims, ClaimsAreHeads, OneLeasePerResource, TokensMatchCounters,
         NamesAreNotReserved, HoldersAreRegistered;
    var after := db.(leases := db.leases[db.nextId := lease],
                     counters := db.counters[lease.resource := lease.token + 1],
                     nextId := db.nextId + 1);
    SameIntegrationsKeepLink(db, after);
    FreshLeaseKeepsLeases(db, lease, after);
  }

  lemma FreshLeaseKeepsLeases(db: Db, lease: Lease, after: Db)
    requires OneLeasePerResource(db) && TokensMatchCounters(db) && NamesAreNotReserved(db) && HoldersAreRegistered(db)
    requires lease.resource.Named? ==> !Reserved(lease.resource.name)
    requires forall other :: other in db.leases ==> db.leases[other].resource != lease.resource
    requires lease.token == (if lease.resource in db.counters then db.counters[lease.resource] else 1)
    requires lease.holder in db.agents && db.agents[lease.holder].registered
    requires after.leases == db.leases[db.nextId := lease]
             && after.counters == db.counters[lease.resource := lease.token + 1]
    requires after.agents == db.agents
    ensures OneLeasePerResource(after) && TokensMatchCounters(after) && NamesAreNotReserved(after)
            && HoldersAreRegistered(after)
  {
  }

  lemma RenewLeaseKeepsValid(db: Db, lease: Id, agent: Id, secret: Id, ttl: int, now: Millis)
    requires Valid(db)
    ensures Valid(RenewLeaseTx(db, lease, agent, secret, ttl, now).db)
  {
    hide Valid, Reserved;
    var after := RenewLeaseTx(db, lease, agent, secret, ttl, now).db;
    if after != db {
      if db.leases[lease].resource.Target? { TargetTextIsReserved(db.leases[lease].resource); }
      NamedExtensionKeepsValid(db, lease, now + ttl * 1000);
    }
  }

  lemma ReleaseLeaseKeepsValid(db: Db, lease: Id, agent: Id, secret: Id)
    requires Valid(db)
    ensures Valid(ReleaseLeaseTx(db, lease, agent, secret).db)
  {
    hide Valid, Reserved;
    var after := ReleaseLeaseTx(db, lease, agent, secret).db;
    if after != db {
      if db.leases[lease].resource.Target? { TargetTextIsReserved(db.leases[lease].resource); }
      NamedRemovalKeepsValid(db, lease);
    }
  }

  lemma UpsertKeepsValid(db: Db, worktree: string, repository: string)
    requires Valid(db)
    ensures Valid(db.(workspaces := db.workspaces[worktree := repository]))
  {
    ShrinkKeepsValid(db, db.(workspaces := db.workspaces[worktree := repository]));
  }

  lemma RegisterKeepsValid(db: Db, session: string, worktree: string, repository: string, presented: Option<Id>,
                           now: Millis)
    requires Valid(db)
    ensures Valid(RegisterTx(db, session, worktree, repository, presented, now).db)
  {
    hide ClaimsAreBacked, TargetLeasesAreClaims, ClaimsAreHeads;
    var after := RegisterTx(db, session, worktree, repository, presented, now).db;
    var existing := SessionOwner(db, session, worktree);
    assert existing.Some? ==> HasSession(db, existing.value, session, worktree);
    SameIntegrationsKeepLink(db, after);
  }

  lemma HeartbeatKeepsValid(db: Db, agent: Id, secret: Id, worktree: string, repository: string, now: Millis)
    requires Valid(db)
    ensures Valid(HeartbeatTx(db, agent, secret, worktree, repository, now).db)
  {
    hide ClaimsAreBacked, TargetLeasesAreClaims, ClaimsAreHeads;
    SameIntegrationsKeepLink(db, HeartbeatTx(db, agent, secret, worktree, repository, now).db);
  }

  // ----- transactions on one request -----

  lemma EnqueueKeepsLink(db: Db, row: Request)
    requires TargetLeasesAreClaims(db) && ClaimsAreHeads(db) && IdsWereDrawn(db)
    requires row.rowid == MaxRowid(db.requests) + 1 && row.status == Queued
    ensures var after := db.(requests := db.requests[db.nextId := row], nextId := db.nextId + 1);
            TargetLeasesAreClaims(after) && ClaimsAreHeads(after)
  {
    var after := db.(requests := db.requests[db.nextId := row], nextId := db.nextId + 1);
    LinkStays(db, after);
    forall id, other | id in after.requests && after.requests[id].status == Claimed
      ensures !Ahead(after, other, id)
    {
      if other == db.nextId {
        assert db.requests[id].rowid < row.rowid;
      } else {
        assert !Ahead(db, other, id);
      }
    }
  }

  lemma EnqueueKeepsValid(db: Db, row: Request)
    requires Valid(db)
    requires row.rowid == MaxRowid(db.requests) + 1 && row.status == Queued
    requires row.claimedBy.None? && row.lease.None? && row.completedAt.None?
    ensures Valid(db.(requests := db.requests[db.nextId := row], nextId := db.nextId + 1))
  {
    hide TargetLeasesAreClaims, ClaimsAreHeads;
    EnqueueKeepsLink(db, row);
  }

  lemma LeaseMeansEarlier(db: Db, lease: Id, id: Id)
    requires Valid(db) && id in db.requests && db.requests[id].status == Queued
    requires lease in db.leases && db.leases[lease].resource == db.requests[id].Key()
    ensures HasEarlier(db, id)
  {
    var other :| Backs(db, lease, other);
    assert !Ahead(db, id, other);
    assert Ahead(db, other, id);
  }

  /** No lease stands on the target of a waiting request that nothing precedes. */
  lemma HeadTargetIsFree(db: Db, id: Id)
    requires Valid(db) && id in db.requests && db.requests[id].status == Queued
    requires !HasEarlier(db, id)
    ensures LeaseOn(db, db.requests[id].Key()).None?
    ensures forall lease :: lease in db.leases ==> db.leases[lease].resource != db.requests[id].Key()
  {
    var key := db.requests[id].Key();
    forall lease | lease in db.leases ensures db.leases[lease].resource != key {
      if db.leases[lease].resource == key {
        LeaseMeansEarlier(db, lease, id);
      }
    }
  }

  ghost predicate Granted(db: Db, id: Id, lease: Lease, row: Request)
    requires id in db.requests
  {
    && db.requests[id].status == Queued && !HasEarlier(db, id)
    && lease.holder in db.agents && db.agents[lease.holder].registered
    && lease.resource == db.requests[id].Key()
    && lease.token == (if lease.resource in db.counters then db.counters[lease.resource] else 1)
    && row == db.requests[id].(status := Claimed, claimedBy := Some(lease.holder), lease := Some(db.nextId),
                               updatedAt := row.updatedAt)
  }

  function AfterGrant(db: Db, id: Id, lease: Lease, row: Request): Db {
    db.(leases := db.leases[db.nextId := lease], counters := db.counters[lease.resource := lease.token + 1],
        nextId := db.nextId + 1, requests := db.requests[id := row])
  }

  lemma GrantKeepsLeases(db: Db, id: Id, lease: Lease, row: Request)
    requires Valid(db) && id in db.requests && Granted(db, id, lease, row)
    ensures var after := AfterGrant(db, id, lease, row);
            OneLeasePerResource(after) && HoldersAreRegistered(after) && TokensMatchCounters(after)
            && NamesAreNotReserved(after)
  {
    HeadTargetIsFree(db, id);
    FreshLeaseKeepsLeases(db, lease, AfterGrant(db, id, lease, row));
  }

  lemma GrantKeepsRows(db: Db, id: Id, lease: Lease, row: Request)
    requires Valid(db) && id in db.requests && Granted(db, id, lease, row)
    ensures var after := AfterGrant(db, id, lease, row);
            && ClaimsAreBacked(after) && WaitingRowsCarryNothing(after) && FinishedRowsHoldNothing(after)
            && IdsWereDrawn(after)
            && RowidsFollowArrival(after)
  {
  }

  lemma GrantKeepsLink(db: Db, id: Id, lease: Lease, row: Request)
    requires Valid(db) && id in db.requests && Granted(db, id, lease, row)
    ensures TargetLeasesAreClaims(AfterGrant(db, id, lease, row)) && ClaimsAreHeads(AfterGrant(db, id, lease, row))
  {
    var after := AfterGrant(db, id, lease, row);
    forall l | l in after.leases && after.leases[l].resource.Target?
      ensures exists other :: Backs(after, l, other)
    {
      if l == db.nextId {
        assert Backs(after, l, id);
      } else {
        var other :| Backs(db, l, other);
        assert Backs(after, l, other);
      }
    }
    forall one, other | one in after.requests && after.requests[one].status == Claimed
      ensures !Ahead(after, other, one)
    {
      assert !Ahead(db, other, one);
    }
  }

  lemma ClaimKeepsValid(db: Db, id: Id, agent: Id, secret: Id, sourceOid: string, targetOid: string, ttl: int,
                        now: Millis)
    requires Valid(db)
    ensures Valid(ClaimTx(db, id, agent, secret, sourceOid, targetOid, ttl, now).db)
  {
    hide RepositoryError, AuthError, IsOid, Recover;
    var live := Recover(db, now);
    var effect := ClaimTx(db, id, agent, secret, sourceOid, targetOid, ttl, now);
    if effect.db != db {
      RecoverKeepsValid(db, now);
      if effect.reply.RequestReply? {
        ClaimGrants(live, id, agent, ttl, now);
        var granted := AcquireInTransaction(live, live.requests[id].Key(), agent, ttl, false, now);
        var lease := granted.reply.lease;
        var row := effect.reply.row;
        GrantKeepsLeases(live, id, lease, row);
        GrantKeepsRows(live, id, lease, row);
        GrantKeepsLink(live, id, lease, row);
        assert effect.db == AfterGrant(live, id, lease, row);
      } else {
        RowChangeKeepsValid(live, id, live.requests[id].(status := NeedsRefresh, updatedAt := now));
      }
    }
  }

  /** What acquireLeaseInTransaction does for the head of a queue: it never meets a held
      lease and never replaces an expired one. */
  lemma ClaimGrants(db: Db, id: Id, agent: Id, ttl: int, now: Millis)
    requires Valid(db) && id in db.requests && db.requests[id].status == Queued && !HasEarlier(db, id)
    ensures var granted := AcquireInTransaction(db, db.requests[id].Key(), agent, ttl, false, now);
            var key := db.requests[id].Key();
            var token := if key in db.counters then db.counters[key] else 1;
            var lease := Lease(key, agent, token, now, now + ttl * 1000);
            var inBounds := |key.Text()| <= MAX_RESOURCE_LENGTH && ValidTtl(ttl);
            if inBounds && agent in db.agents && db.agents[agent].registered then
              granted == Effect(db.(leases := db.leases[db.nextId := lease], counters := db.counters[key := token + 1],
                                    nextId := db.nextId + 1),
                                LeaseReply(db.nextId, lease))
            else
              granted.reply == Err(if inBounds then NotFound else InvalidInput)
  {
    HeadTargetIsFree(db, id);
    assert |db.requests[id].Key().Text()| >= 4;
  }

  ghost predicate RowsAreSound(db: Db) {
    ClaimsAreBacked(db) && WaitingRowsCarryNothing(db) && FinishedRowsHoldNothing(db)
  }

  lemma RowChangeKeepsRows(db: Db, id: Id, row: Request)
    requires RowsAreSound(db) && id in db.requests
    requires row.status != Claimed && row.lease.None? && row.claimedBy.None?
    requires row.status.Active() <==> row.completedAt.None?
    ensures RowsAreSound(db.(requests := db.requests[id := row]))
  {
  }

  /** A waiting request becomes a waiting or finished one that holds nothing. */
  lemma RowChangeKeepsValid(db: Db, id: Id, row: Request)
    requires Valid(db) && id in db.requests && db.requests[id].status.Active() && db.requests[id].status != Claimed
    requires row.status != Claimed && row.lease.None? && row.claimedBy.None?
    requires row.rowid == db.requests[id].rowid && row.Key() == db.requests[id].Key()
    requires row.status.Active() <==> row.completedAt.None?
    ensures Valid(db.(requests := db.requests[id := row]))
  {
    hide ClaimsAreBacked, WaitingRowsCarryNothing, FinishedRowsHoldNothing, TargetLeasesAreClaims, ClaimsAreHeads,
         OneLeasePerResource, TokensMatchCounters, NamesAreNotReserved, IdsWereDrawn, RowidsFollowArrival;
    var after := db.(requests := db.requests[id := row]);
    RowChangeKeepsRows(db, id, row);
    LinkStays(db, after);
    HeadsStay(db, after);
    LeasesStay(db, after);
    OrderStays(db, after);
  }

  lemma FinishKeepsRows(db: Db, id: Id, row: Request)
    requires RowsAreSound(db) && id in db.requests && db.requests[id].status == Claimed
    requires forall lease, a, b :: Backs(db, lease, a) && Backs(db, lease, b) ==> a == b
    requires !row.status.Active() && row.completedAt.Some? && row.lease == db.requests[id].lease
    ensures RowsAreSound(db.(leases := db.leases - {db.requests[id].lease.value}, requests := db.requests[id := row]))
  {
    assert Backs(db, db.requests[id].lease.value, id);
    assert forall one :: one in db.requests && db.requests[one].status == Claimed ==>
             Backs(db, db.requests[one].lease.value, one);
  }

  /** A claimed request finishes and its lease goes. */
  lemma FinishKeepsValid(db: Db, id: Id, row: Request)
    requires Valid(db) && id in db.requests && db.requests[id].status == Claimed && db.requests[id].lease.Some?
    requires !row.status.Active() && row.completedAt.Some? && row.lease == db.requests[id].lease
    requires row.rowid == db.requests[id].rowid && row.Key() == db.requests[id].Key()
    ensures Valid(db.(leases := db.leases - {db.requests[id].lease.value}, requests := db.requests[id := row]))
  {
    hide ClaimsAreBacked, WaitingRowsCarryNothing, FinishedRowsHoldNothing, TargetLeasesAreClaims, ClaimsAreHeads,
         OneLeasePerResource, TokensMatchCounters, NamesAreNotReserved, IdsWereDrawn, RowidsFollowArrival;
    var after := db.(leases := db.leases - {db.requests[id].lease.value}, requests := db.requests[id := row]);
    forall lease, a, b | Backs(db, lease, a) && Backs(db, lease, b) ensures a == b {
      ClaimantIsUnique(db, lease, a, b);
    }
    FinishKeepsRows(db, id, row);
    LinkStays(db, after);
    HeadsStay(db, after);
    LeasesStay(db, after);
    OrderStays(db, after);
  }

  lemma RenewIntegrationKeepsValid(db: Db, id: Id, agent: Id, secret: Id, ttl: int, now: Millis)
    requires Valid(db)
    ensures Valid(RenewIntegrationTx(db, id, agent, secret, ttl, now).db)
  {
    hide Valid, RepositoryError;
    var live := Recover(db, now);
    var effect := RenewIntegrationTx(db, id, agent, secret, ttl, now);
    if effect.reply.RequestReply? {
      RecoverKeepsValid(db, now);
      ExtensionKeepsValid(live, id, now + ttl * 1000, now);
    }
  }

  lemma ExtensionKeepsRows(db: Db, id: Id, lease: Id, expiresAt: Millis, now: Millis)
    requires RowsAreSound(db) && id in db.requests && lease in db.leases
    ensures RowsAreSound(db.(leases := db.leases[lease := db.leases[lease].(expiresAt := expiresAt)],
                             requests := db.requests[id := db.requests[id].(updatedAt := now)]))
  {
  }

  lemma ExtensionKeepsValid(db: Db, id: Id, expiresAt: Millis, now: Millis)
    requires Valid(db) && id in db.requests && db.requests[id].status == Claimed
    requires db.requests[id].lease.Some? && db.requests[id].lease.value in db.leases
    ensures var lease := db.requests[id].lease.value;
            Valid(db.(leases := db.leases[lease := db.leases[lease].(expiresAt := expiresAt)],
                      requests := db.requests[id := db.requests[id].(updatedAt := now)]))
  {
    hide ClaimsAreBacked, WaitingRowsCarryNothing, FinishedRowsHoldNothing, TargetLeasesAreClaims, ClaimsAreHeads,
         OneLeasePerResource, TokensMatchCounters, NamesAreNotReserved, IdsWereDrawn, RowidsFollowArrival;
    var lease := db.requests[id].lease.value;
    var after := db.(leases := db.leases[lease := db.leases[lease].(expiresAt := expiresAt)],
                     requests := db.requests[id := db.requests[id].(updatedAt := now)]);
    ExtensionKeepsRows(db, id, lease, expiresAt, now);
    LinkStays(db, after);
    HeadsStay(db, after);
    LeasesStay(db, after);
    OrderStays(db, after);
  }

  lemma CompleteKeepsValid(db: Db, id: Id, agent: Id, secret: Id, outcome: CompletionOutcome,
                           postTargetOid: Option<string>, now: Millis)
    requires Valid(db)
    ensures Valid(CompleteTx(db, id, agent, secret, outcome, postTargetOid, now).db)
  {
    hide Valid, RepositoryError;
    var effect := CompleteTx(db, id, agent, secret, outcome, postTargetOid, now);
    if effect.reply.RequestReply? { FinishKeepsValid(db, id, effect.reply.row); }
  }

  lemma CancelKeepsValid(db: Db, id: Id, agent: Id, secret: Id, now: Millis)
    requires Valid(db)
    ensures Valid(CancelTx(db, id, agent, secret, now).db)
  {
    hide Valid, RepositoryError;
    var effect := CancelTx(db, id, agent, secret, now);
    if effect.db != db {
      if db.requests[id].status == Claimed {
        LeaseOfClaim(db, id);
        FinishKeepsValid(db, id, effect.reply.row);
      }
      else {
        WaitingHoldsNothing(db, id);
        RowChangeKeepsValid(db, id, effect.reply.row);
      }
    }
  }

  lemma WaitingRowKeepsValid(db: Db, now: Millis, op: Op)
    requires Valid(db) && (op.Enqueue? || op.Refresh? || op.OwnerCancel?)
    ensures Valid(Step(db, now, op).db)
  {
    hide Valid, RepositoryError;
    var effect := Step(db, now, op);
    if effect.reply.RequestReply? && effect.db != db {
      if op.Enqueue? { EnqueueKeepsValid(db, effect.reply.row); }
      else {
        WaitingHoldsNothing(db, op.request);
        RowChangeKeepsValid(db, op.request, effect.reply.row);
      }
    }
  }

  /** Every transaction, accepted or refused, keeps every invariant. */
  lemma StepKeepsValid(db: Db, now: Millis, op: Op)
    requires Valid(db)
    ensures Valid(Step(db, now, op).db)
  {
    hide Valid;
    match op
    case UpsertWorkspace(worktree, repository) => UpsertKeepsValid(db, worktree, repository);
    case Register(session, worktree, repository, presented) =>
      RegisterKeepsValid(db, session, worktree, repository, presented, now);
    case Heartbeat(agent, secret, worktree, repository) =>
      HeartbeatKeepsValid(db, agent, secret, worktree, repository, now);
    case Unregister(agent, secret) => UnregisterKeepsValid(db, agent, secret, now);
    case AcquireLease(name, agent, secret, ttl) => AcquireKeepsValid(db, name, agent, secret, ttl, now);
    case RenewLease(lease, agent, secret, ttl) => RenewLeaseKeepsValid(db, lease, agent, secret, ttl, now);
    case ReleaseLease(lease, agent, secret) => ReleaseLeaseKeepsValid(db, lease, agent, secret);
    case Claim(id, agent, secret, sourceOid, targetOid, ttl) =>
      ClaimKeepsValid(db, id, agent, secret, sourceOid, targetOid, ttl, now);
    case RenewIntegration(id, agent, secret, ttl) => RenewIntegrationKeepsValid(db, id, agent, secret, ttl, now);
    case Complete(id, agent, secret, outcome, postTargetOid) =>
      CompleteKeepsValid(db, id, agent, secret, outcome, postTargetOid, now);
    case Cancel(id, agent, secret) => CancelKeepsValid(db, id, agent, secret, now);
    case RecoverExpired => RecoverKeepsValid(db, now);
    case Maintain(staleBefore, terminalBefore, apply) =>
      MaintainKeepsValid(db, staleBefore, terminalBefore, apply, now);
    case _ => WaitingRowKeepsValid(db, now, op);
  }
}
