/** The store object: its tables are fields that the methods change step by step, and a
    thrown error puts back what the transaction found. Every method is proved to be the
    transaction of the same name in CoordinationTables. */
module CoordinationStore {
  import opened Wrappers
  import opened CoordinationTables
  import opened CoordinationInvariants

  /** The unique index on agents(session_key, workspace_id). */
  ghost predicate OneAgentPerSession(db: Db) {
    forall a, b ::
      (&& a in db.agents && b in db.agents
       && db.agents[a].session == db.agents[b].session && db.agents[a].workspace == db.agents[b].workspace) ==> a == b
  }

  lemma RegisterKeepsSessions(db: Db, now: Millis, op: Op)
    requires OneAgentPerSession(db) && op.Register?
    ensures OneAgentPerSession(Step(db, now, op).db)
  {
    forall agent | && agent in db.agents && db.agents[agent].session == op.session
                   && db.agents[agent].workspace == op.worktree
      ensures SessionOwner(db, op.session, op.worktree) == Some(agent)
    {
      assert HasSession(db, agent, op.session, op.worktree);
    }
  }

  lemma AgentEditsKeepSessions(db: Db, now: Millis, op: Op)
    requires OneAgentPerSession(db) && (op.Heartbeat? || op.Unregister? || op.Maintain?)
    ensures OneAgentPerSession(Step(db, now, op).db)
  {
  }

  lemma OtherStepsKeepAgents(db: Db, now: Millis, op: Op)
    requires !op.Register? && !op.Heartbeat? && !op.Unregister? && !op.Maintain?
    ensures Step(db, now, op).db.agents == db.agents
  {
    hide RepositoryError, AuthError, IsOid, Reserved, Resource.Text, HasEarlier, MaxRowid, LeaseOn,
         AcquireInTransaction, Recover;
    RecoveryKeepsAgents(db, now);
    match op {
      case AcquireLease(name, agent, _, ttl) =>
        AcquireKeepsAgents(Recover(db, now), Named(name), agent, ttl, true, now);
      case Claim(id, agent, _, _, _, ttl) =>
        if id in Recover(db, now).requests {
          AcquireKeepsAgents(Recover(db, now), Recover(db, now).requests[id].Key(), agent, ttl, false, now);
        }
      case _ => {}
    }
  }

  lemma RecoveryKeepsAgents(db: Db, now: Millis)
    ensures Recover(db, now).agents == db.agents
  {
  }

  lemma AcquireKeepsAgents(db: Db, resource: Resource, holder: Id, ttl: int, reuse: bool, now: Millis)
    ensures AcquireInTransaction(db, resource, holder, ttl, reuse, now).db.agents == db.agents
  {
    hide Resource.Text;
  }

  lemma StepKeepsSessions(db: Db, now: Millis, op: Op)
    requires OneAgentPerSession(db)
    ensures OneAgentPerSession(Step(db, now, op).db)
  {
    hide Step;
    if op.Register? { RegisterKeepsSessions(db, now, op); }
    else if op.Heartbeat? || op.Unregister? || op.Maintain? { AgentEditsKeepSessions(db, now, op); }
    else { OtherStepsKeepAgents(db, now, op); }
  }

  ghost predicate GoodTables(db: Db) {
    Valid(db) && OneAgentPerSession(db)
  }

  lemma StepKeepsGood(db: Db, now: Millis, op: Op)
    requires GoodTables(db)
    ensures GoodTables(Step(db, now, op).db)
  {
    hide Valid, OneAgentPerSession, Step;
    StepKeepsValid(db, now, op);
    StepKeepsSessions(db, now, op);
  }

  lemma RecoverGood(db: Db, now: Millis)
    requires GoodTables(db)
    ensures Valid(db) && Valid(Recover(db, now))
  {
    hide Valid;
    RecoverKeepsValid(db, now);
  }

  /** The requests after those that hold one of these leases have lost their authority. */
  ghost function Freed(rows: map<Id, Request>, gone: set<Id>, at: Millis): map<Id, Request> {
    map id | id in rows ::
      if rows[id].status == Claimed && rows[id].lease.Some? && rows[id].lease.value in gone then rows[id].Released(at)
      else rows[id]
  }

  lemma NothingFreed(rows: map<Id, Request>, at: Millis)
    ensures Freed(rows, {}, at) == rows
  {
  }

  lemma FreedTwice(rows: map<Id, Request>, gone: set<Id>, lease: Id, at: Millis)
    ensures Freed(Freed(rows, gone, at), {lease}, at) == Freed(rows, gone + {lease}, at)
  {
  }

  lemma RecoveryFrees(db: Db, expired: set<Id>, at: Millis)
    requires forall lease :: lease in expired <==> LeaseExpired(db, lease, at)
    ensures Recover(db, at) == db.(leases := db.leases - expired, requests := Freed(db.requests, expired, at))
  {
    assert Recover(db, at).leases == db.leases - expired;
    assert Recover(db, at).requests == Freed(db.requests, expired, at);
  }

  class Store {
    var workspaces: map<string, string>
    var agents: map<Id, Agent>
    var leases: map<Id, Lease>
    var counters: map<Resource, nat>
    var requests: map<Id, Request>
    var nextId: Id

    function Tables(): Db
      reads this
    {
      Db(workspaces, agents, leases, counters, requests, nextId)
    }

    ghost predicate Good()
      reads this
    {
      GoodTables(Tables())
    }

    constructor ()
      ensures Good() && Tables() == EMPTY
    {
      workspaces, agents, leases, counters, requests, nextId := map[], map[], map[], map[], map[], 0;
    }

    /** Throwing rolls the transaction back. */
    method Rollback(saved: Db)
      modifies this
      ensures Tables() == saved
    {
      workspaces, agents, leases := saved.workspaces, saved.agents, saved.leases;
      counters, requests, nextId := saved.counters, saved.requests, saved.nextId;
    }

    // ----- expiry recovery -----

    /** Mark the claimed requests of one lease as needing a refresh. */
    method ReleaseRequestsOf(lease: Id, at: Millis)
      modifies this`requests
      ensures requests == Freed(old(requests), {lease}, at)
    {
      var claimed := set id | id in requests && requests[id].status == Claimed && requests[id].lease == Some(lease);
      var pending := claimed;
      while pending != {}
        invariant pending <= claimed
        invariant requests.Keys == old(requests).Keys
        invariant forall id :: id in old(requests) ==>
          requests[id] == if id in claimed - pending then old(requests)[id].Released(at) else old(requests)[id]
      {
        var id :| id in pending;
        requests := requests[id := requests[id].Released(at)];
        pending := pending - {id};
      }
    }

    method RecoverExpiredLeasesInTransaction(at: Millis)
      modifies this`requests, this`leases
      ensures Tables() == Recover(old(Tables()), at)
    {
      hide Freed, Recover;
      var expired := set lease | lease in leases && leases[lease].expiresAt <= at;
      var pending := expired;
      ghost var gone: set<Id> := {};
      NothingFreed(requests, at);
      RecoveryFrees(Tables(), expired, at);
      while pending != {}
        invariant gone + pending == expired
        invariant leases == old(leases) - gone
        invariant requests == Freed(old(requests), gone, at)
        decreases pending
      {
        var lease :| lease in pending;
        ReleaseRequestsOf(lease, at);
        FreedTwice(old(requests), gone, lease, at);
        leases := leases - {lease};
        gone := gone + {lease};
        pending := pending - {lease};
      }
      assert gone == expired;
    }

    method RecoverExpired(now: Millis) returns (reply: Reply)
      requires Good()
      modifies this
      ensures Good() && Effect(Tables(), reply) == Step(old(Tables()), now, Op.RecoverExpired)
    {
      hide GoodTables;
      StepKeepsGood(Tables(), now, Op.RecoverExpired);
      RecoverExpiredLeasesInTransaction(now);
      reply := Done;
    }

    // ----- leases -----

    /** The lease on a resource, looked up by the unique index. */
    method FindLease(resource: Resource) returns (found: Option<Id>)
      requires Valid(Tables())
      ensures found == LeaseOn(Tables(), resource)
    {
      hide Valid;
      LeaseOnIsUnique(Tables(), resource);
      found := None;
      var pending := leases.Keys;
      while pending != {} && found.None?
        invariant pending <= leases.Keys
        invariant found.None? ==> forall id :: id in leases && id !in pending ==> leases[id].resource != resource
        invariant found.Some? ==> Holds(Tables(), found.value, resource)
        decreases |pending|
      {
        var id :| id in pending;
        if leases[id].resource == resource { found := Some(id); }
        pending := pending - {id};
      }
    }

    method AcquireLeaseInTransaction(resource: Resource, holder: Id, ttl: int, reuse: bool, now: Millis)
      returns (reply: Reply)
      requires Valid(Tables())
      modifies this
      ensures Effect(Tables(), reply) == AcquireInTransaction(old(Tables()), resource, holder, ttl, reuse, now)
    {
      hide Valid;
      if |resource.Text()| == 0 || |resource.Text()| > MAX_RESOURCE_LENGTH { return Err(InvalidInput); }
      if !ValidTtl(ttl) { return Err(InvalidInput); }
      if holder !in agents || !agents[holder].registered { return Err(NotFound); }
      var existing := FindLease(resource);
      LeaseOnIsUnique(Tables(), resource);
      if existing.Some? && leases[existing.value].expiresAt > now {
        if leases[existing.value].holder != holder || !reuse { return Err(Conflict); }
        leases := leases[existing.value := leases[existing.value].(expiresAt := now + ttl * 1000)];
        return LeaseReply(existing.value, leases[existing.value]);
      }
      if existing.Some? { leases := leases - {existing.value}; }
      // no other row has this resource, so MAX(fencing_token) adds nothing to the counter
      var token := if resource in counters then counters[resource] else 1;
      counters := counters[resource := token + 1];
      var id := nextId;
      nextId := nextId + 1;
      var lease := Lease(resource, holder, token, now, now + ttl * 1000);
      leases := leases[id := lease];
      return LeaseReply(id, lease);
    }

    method AcquireLease(name: string, agent: Id, secret: Id, ttl: int, now: Millis) returns (reply: Reply)
      requires Good()
      modifies this
      ensures Good() && Effect(Tables(), reply) == Step(old(Tables()), now, Op.AcquireLease(name, agent, secret, ttl))
    {
      hide GoodTables, Valid, AcquireInTransaction, Reserved;
      StepKeepsGood(Tables(), now, Op.AcquireLease(name, agent, secret, ttl));
      if Reserved(name) { return Err(InvalidInput); }
      var saved := Tables();
      RecoverGood(Tables(), now);
      RecoverExpiredLeasesInTransaction(now);
      var auth := AuthError(Tables(), agent, secret);
      if auth.Some? {
        Rollback(saved);
        return Err(auth.value);
      }
      reply := AcquireLeaseInTransaction(Named(name), agent, ttl, true, now);
      if reply.Err? { Rollback(saved); }
    }

    method RenewLease(lease: Id, agent: Id, secret: Id, ttl: int, now: Millis) returns (reply: Reply)
      requires Good()
      modifies this
      ensures Good() && Effect(Tables(), reply) == Step(old(Tables()), now, Op.RenewLease(lease, agent, secret, ttl))
    {
      hide GoodTables, Reserved, Resource.Text;
      StepKeepsGood(Tables(), now, Op.RenewLease(lease, agent, secret, ttl));
      if !ValidTtl(ttl) { return Err(InvalidInput); }
      var saved := Tables();
      var auth := AuthError(Tables(), agent, secret);
      if auth.Some? { return Err(auth.value); }
      if lease !in leases { return Err(NotFound); }
      if leases[lease].holder != agent { return Err(Forbidden); }
      if Reserved(leases[lease].resource.Text()) { return Err(InvalidInput); }
      if leases[lease].expiresAt <= now {
        leases := leases - {lease};
        // the throw undoes the delete
        Rollback(saved);
        return Err(Expired);
      }
      leases := leases[lease := leases[lease].(expiresAt := now + ttl * 1000)];
      return LeaseReply(lease, leases[lease]);
    }

    method ReleaseLease(lease: Id, agent: Id, secret: Id, now: Millis) returns (reply: Reply)
      requires Good()
      modifies this
      ensures Good() && Effect(Tables(), reply) == Step(old(Tables()), now, Op.ReleaseLease(lease, agent, secret))
    {
      hide GoodTables, Reserved, Resource.Text;
      StepKeepsGood(Tables(), now, Op.ReleaseLease(lease, agent, secret));
      var auth := AuthError(Tables(), agent, secret);
      if auth.Some? { return Err(auth.value); }
      if lease !in leases { return Err(NotFound); }
      if leases[lease].holder != agent { return Err(Forbidden); }
      if Reserved(leases[lease].resource.Text()) { return Err(InvalidInput); }
      leases := leases - {lease};
      return Done;
    }

    // ----- agents -----

    method UpsertWorkspace(worktree: string, repository: string, now: Millis) returns (reply: Reply)
      requires Good()
      modifies this
      ensures Good() && Effect(Tables(), reply) == Step(old(Tables()), now, Op.UpsertWorkspace(worktree, repository))
    {
      hide GoodTables;
      StepKeepsGood(Tables(), now, Op.UpsertWorkspace(worktree, repository));
      workspaces := workspaces[worktree := repository];
      return Done;
    }

    /** The agent of a session in a workspace, looked up by the unique index. */
    method FindSession(session: string, worktree: string) returns (found: Option<Id>)
      requires OneAgentPerSession(Tables())
      ensures found == SessionOwner(Tables(), session, worktree)
    {
      found := None;
      var pending := agents.Keys;
      while pending != {} && found.None?
        invariant pending <= agents.Keys
        invariant found.None? ==> forall id :: id in agents && id !in pending ==>
                    !HasSession(Tables(), id, session, worktree)
        invariant found.Some? ==> HasSession(Tables(), found.value, session, worktree)
        decreases |pending|
      {
        var id :| id in pending;
        if agents[id].session == session && agents[id].workspace == worktree { found := Some(id); }
        pending := pending - {id};
      }
    }

    method RegisterAgent(session: string, worktree: string, repository: string, presented: Option<Id>, now: Millis)
      returns (reply: Reply)
      requires Good()
      modifies this
      ensures Good() && Effect(Tables(), reply) ==
              Step(old(Tables()), now, Op.Register(session, worktree, repository, presented))
    {
      hide Valid, OneAgentPerSession;
      StepKeepsGood(Tables(), now, Op.Register(session, worktree, repository, presented));
      var existing := FindSession(session, worktree);
      assert existing.Some? ==> HasSession(Tables(), existing.value, session, worktree);
      var secret := nextId;
      if existing.Some? {
        if presented != Some(agents[existing.value].secret) { return Err(Forbidden); }
        workspaces := workspaces[worktree := repository];
        nextId := nextId + 1;
        agents :=
          agents[existing.value := agents[existing.value].(secret := secret, registered := true, lastHeartbeat := now)];
        return AgentReply(existing.value, secret);
      }
      workspaces := workspaces[worktree := repository];
      var id := nextId + 1;
      nextId := nextId + 2;
      agents := agents[id := Agent(session, worktree, secret, true, now)];
      return AgentReply(id, secret);
    }

    method Heartbeat(agent: Id, secret: Id, worktree: string, repository: string, now: Millis) returns (reply: Reply)
      requires Good()
      modifies this
      ensures Good()
              && Effect(Tables(), reply) == Step(old(Tables()), now, Op.Heartbeat(agent, secret, worktree, repository))
    {
      hide GoodTables;
      StepKeepsGood(Tables(), now, Op.Heartbeat(agent, secret, worktree, repository));
      var auth := AuthError(Tables(), agent, secret);
      if auth.Some? { return Err(auth.value); }
      if agents[agent].workspace != worktree { return Err(Forbidden); }
      workspaces := workspaces[worktree := repository];
      agents := agents[agent := agents[agent].(lastHeartbeat := now)];
      return Done;
    }

    method UnregisterAgent(agent: Id, secret: Id, now: Millis) returns (reply: Reply)
      requires Good()
      modifies this
      ensures Good() && Effect(Tables(), reply) == Step(old(Tables()), now, Op.Unregister(agent, secret))
    {
      hide GoodTables;
      StepKeepsGood(Tables(), now, Op.Unregister(agent, secret));
      if agent !in agents { return Err(NotFound); }
      if agents[agent].secret != secret { return Err(Forbidden); }
      if !agents[agent].registered { return Done; }
      agents := agents[agent := agents[agent].(registered := false)];
      ReleaseClaimsOf(agent, now);
      leases := map lease | lease in leases && leases[lease].holder != agent :: leases[lease];
      LeasesOfClaims(old(Tables()), agent);
      ghost var after := UnregisterTx(old(Tables()), agent, secret, now).db;
      assert leases == after.leases;
      assert agents == after.agents;
      assert requests == after.requests;
      assert Tables() == after;
      return Done;
    }

    function ClaimsOf(rows: map<Id, Request>, agent: Id): set<Id> {
      set id | id in rows && ClaimedBy(rows[id], agent)
    }

    ghost function LeasesOf(rows: map<Id, Request>, ids: set<Id>): set<Id> {
      set id | id in ids && id in rows && rows[id].lease.Some? :: rows[id].lease.value
    }

    ghost function ReleasedIn(rows: map<Id, Request>, ids: set<Id>, at: Millis): map<Id, Request> {
      map id | id in rows :: if id in ids then rows[id].Released(at) else rows[id]
    }

    lemma OneMoreReleased(rows: map<Id, Request>, done: set<Id>, id: Id, at: Millis)
      requires id in rows && id !in done
      ensures ReleasedIn(rows, {}, at) == rows && ReleasedIn(rows, done, at)[id] == rows[id]
      ensures ReleasedIn(rows, done + {id}, at) == ReleasedIn(rows, done, at)[id := rows[id].Released(at)]
    {
    }

    lemma AllReleased(rows: map<Id, Request>, agent: Id, at: Millis)
      ensures ReleasedIn(rows, {}, at) == rows
      ensures ReleasedIn(rows, ClaimsOf(rows, agent), at) ==
              map id | id in rows :: if ClaimedBy(rows[id], agent) then rows[id].Released(at) else rows[id]
    {
    }

    /** Every request the agent has claimed loses its claim and its lease. */
    method ReleaseClaimsOf(agent: Id, now: Millis)
      modifies this`requests, this`leases
      ensures leases == old(leases) - LeasesOf(old(requests), ClaimsOf(old(requests), agent))
      ensures requests == map id | id in old(requests) ::
                if ClaimedBy(old(requests)[id], agent) then old(requests)[id].Released(now) else old(requests)[id]
    {
      hide LeasesOf, ReleasedIn, Request.Released;
      var claimed := ClaimsOf(requests, agent);
      var pending := claimed;
      ghost var done: set<Id> := {};
      AllReleased(requests, agent, now);
      NoLeases(requests);
      while pending != {}
        invariant done !! pending && done + pending == claimed
        invariant requests == ReleasedIn(old(requests), done, now)
        invariant leases == old(leases) - LeasesOf(old(requests), done)
        decreases pending
      {
        var id :| id in pending;
        OneMoreReleased(old(requests), done, id, now);
        LeasesOfOneMore(old(requests), done, id);
        InReleased(old(requests), done, id, now);
        var lease := requests[id].lease;
        requests := requests[id := requests[id].Released(now)];
        if lease.Some? { leases := leases - {lease.value}; }
        done := done + {id};
        pending := pending - {id};
      }
      assert done == claimed;
    }

    lemma InReleased(rows: map<Id, Request>, done: set<Id>, id: Id, at: Millis)
      requires id in rows
      ensures id in ReleasedIn(rows, done, at)
    {
    }

    lemma NoLeases(rows: map<Id, Request>)
      ensures LeasesOf(rows, {}) == {}
    {
    }

    lemma LeasesOfOneMore(rows: map<Id, Request>, done: set<Id>, id: Id)
      requires id in rows
      ensures LeasesOf(rows, done + {id}) ==
              LeasesOf(rows, done) + (if rows[id].lease.Some? then {rows[id].lease.value} else {})
    {
    }

    lemma LeasesOfClaims(db: Db, agent: Id)
      ensures forall lease :: lease in LeasesOf(db.requests, ClaimsOf(db.requests, agent)) <==>
              BacksClaimOf(db, lease, agent)
    {
    }

    // ----- integration requests -----

    /** The rowid SQLite gives the next row. */
    method NextRowid() returns (n: nat)
      ensures n == MaxRowid(requests) + 1
    {
      var max := 0;
      var pending := requests.Keys;
      while pending != {}
        invariant pending <= requests.Keys
        invariant forall id :: id in requests && id !in pending ==> requests[id].rowid <= max
        invariant max != 0 ==> exists id :: id in requests && id !in pending && requests[id].rowid == max
        decreases |pending|
      {
        var id :| id in pending;
        pending := pending - {id};
        if requests[id].rowid > max {
          max := requests[id].rowid;
          assert id in requests && id !in pending && requests[id].rowid == max;
        }
      }
      assert IsMaxRowid(requests, max) by {
        if max == 0 && requests != map[] {
          var id :| id in requests;
          assert requests[id].rowid == 0;
        }
      }
      assert IsMaxRowid(requests, MaxRowid(requests));
      n := max + 1;
    }

    method EnqueueIntegration(repository: string, target: string, sourceOid: string, targetOid: string,
                              agent: Id, secret: Id, now: Millis) returns (reply: Reply)
      requires Good()
      modifies this
      ensures Good()
      ensures Effect(Tables(), reply) ==
              Step(old(Tables()), now, Op.Enqueue(repository, target, sourceOid, targetOid, agent, secret))
    {
      hide GoodTables, IsOid, RepositoryError, IsMaxRowid;
      StepKeepsGood(Tables(), now, Op.Enqueue(repository, target, sourceOid, targetOid, agent, secret));
      if !IsOid(sourceOid) || !IsOid(targetOid) { return Err(InvalidInput); }
      var error := RepositoryError(Tables(), agent, repository, secret);
      if error.Some? { return Err(error.value); }
      var id := nextId;
      nextId := nextId + 1;
      var rowid := NextRowid();
      requests :=
        requests[id := Request(rowid, repository, target, sourceOid, targetOid, Queued, agent, None, None, now, None)];
      return RequestReply(id, requests[id]);
    }

    /** Any active request on the same target with a lower rowid. */
    method FindEarlier(id: Id) returns (found: bool)
      requires id in requests
      ensures found == HasEarlier(Tables(), id)
    {
      found := false;
      var pending := requests.Keys;
      while pending != {} && !found
        invariant pending <= requests.Keys
        invariant !found ==> forall other :: other in requests && other !in pending ==> !Ahead(Tables(), other, id)
        invariant found ==> HasEarlier(Tables(), id)
        decreases |pending|
      {
        var other :| other in pending;
        if Ahead(Tables(), other, id) { found := true; }
        pending := pending - {other};
      }
    }

    method ClaimIntegration(id: Id, agent: Id, secret: Id, sourceOid: string, targetOid: string, ttl: int, now: Millis)
      returns (reply: Reply)
      requires Good()
      modifies this
      ensures Good()
      ensures Effect(Tables(), reply) ==
              Step(old(Tables()), now, Op.Claim(id, agent, secret, sourceOid, targetOid, ttl))
    {
      hide GoodTables, Valid, AcquireInTransaction, IsOid, RepositoryError, HasEarlier, Recover, Resource.Text;
      StepKeepsGood(Tables(), now, Op.Claim(id, agent, secret, sourceOid, targetOid, ttl));
      RecoverGood(Tables(), now);
      var saved := Tables();
      RecoverExpiredLeasesInTransaction(now);
      if id !in requests {
        Rollback(saved);
        return Err(NotFound);
      }
      var row := requests[id];
      var error := RepositoryError(Tables(), agent, row.repository, secret);
      if error.Some? {
        Rollback(saved);
        return Err(error.value);
      }
      if row.status != Queued {
        Rollback(saved);
        return Err(Conflict);
      }
      if !IsOid(sourceOid) || !IsOid(targetOid) {
        Rollback(saved);
        return Err(InvalidInput);
      }
      if row.sourceOid != sourceOid || row.targetOid != targetOid {
        requests := requests[id := row.(status := NeedsRefresh, updatedAt := now)];
        // committed: the conflict is thrown after the transaction
        return Err(Conflict);
      }
      var earlier := FindEarlier(id);
      if earlier {
        Rollback(saved);
        return Err(Conflict);
      }
      AcquireKeepsRequests(Tables(), row.Key(), agent, ttl, false, now);
      reply := AcquireLeaseInTransaction(row.Key(), agent, ttl, false, now);
      if reply.Err? {
        Rollback(saved);
        return;
      }
      requests :=
        requests[id := row.(status := Claimed, claimedBy := Some(agent), lease := Some(reply.id), updatedAt := now)];
      return RequestReply(id, requests[id]);
    }

    method RenewIntegration(id: Id, agent: Id, secret: Id, ttl: int, now: Millis) returns (reply: Reply)
      requires Good()
      modifies this
      ensures Good()
      ensures Effect(Tables(), reply) == Step(old(Tables()), now, Op.RenewIntegration(id, agent, secret, ttl))
    {
      hide GoodTables, RepositoryError, Recover, Resource.Text;
      StepKeepsGood(Tables(), now, Op.RenewIntegration(id, agent, secret, ttl));
      if !ValidTtl(ttl) { return Err(InvalidInput); }
      var saved := Tables();
      RecoverExpiredLeasesInTransaction(now);
      if id !in requests {
        Rollback(saved);
        return Err(NotFound);
      }
      var row := requests[id];
      var error := RepositoryError(Tables(), agent, row.repository, secret);
      if error.Some? {
        Rollback(saved);
        return Err(error.value);
      }
      if !ClaimedBy(row, agent) || row.lease.None? {
        Rollback(saved);
        return Err(Forbidden);
      }
      if row.lease.value !in leases {
        Rollback(saved);
        return Err(Expired);
      }
      var lease := leases[row.lease.value];
      if lease.holder != agent || lease.resource.Text() != row.Key().Text() || lease.expiresAt <= now {
        Rollback(saved);
        return Err(Expired);
      }
      leases := leases[row.lease.value := lease.(expiresAt := now + ttl * 1000)];
      requests := requests[id := row.(updatedAt := now)];
      return RequestReply(id, requests[id]);
    }

    method RefreshIntegration(id: Id, agent: Id, secret: Id, sourceOid: string, targetOid: string, now: Millis)
      returns (reply: Reply)
      requires Good()
      modifies this
      ensures Good()
      ensures Effect(Tables(), reply) == Step(old(Tables()), now, Op.Refresh(id, agent, secret, sourceOid, targetOid))
    {
      hide GoodTables, RepositoryError, IsOid;
      StepKeepsGood(Tables(), now, Op.Refresh(id, agent, secret, sourceOid, targetOid));
      if !IsOid(sourceOid) || !IsOid(targetOid) { return Err(InvalidInput); }
      if id !in requests { return Err(NotFound); }
      var row := requests[id];
      var error := RepositoryError(Tables(), agent, row.repository, secret);
      if error.Some? { return Err(error.value); }
      if row.requestedBy != agent && row.claimedBy != Some(agent) { return Err(Forbidden); }
      if row.status != Queued && row.status != NeedsRefresh { return Err(Conflict); }
      requests :=
        requests[id := row.(sourceOid := sourceOid, targetOid := targetOid, status := Queued, updatedAt := now)];
      return RequestReply(id, requests[id]);
    }

    method CompleteIntegration(id: Id, agent: Id, secret: Id, outcome: CompletionOutcome, postTargetOid: Option<string>,
                               now: Millis)
      returns (reply: Reply)
      requires Good()
      modifies this
      ensures Good()
      ensures Effect(Tables(), reply) ==
              Step(old(Tables()), now, Op.Complete(id, agent, secret, outcome, postTargetOid))
    {
      hide GoodTables, RepositoryError, IsOid;
      StepKeepsGood(Tables(), now, Op.Complete(id, agent, secret, outcome, postTargetOid));
      if outcome != CancelledOutcome && !IsGiven(postTargetOid) { return Err(InvalidInput); }
      if IsGiven(postTargetOid) && !IsOid(postTargetOid.value) { return Err(InvalidInput); }
      if id !in requests { return Err(NotFound); }
      var row := requests[id];
      var error := RepositoryError(Tables(), agent, row.repository, secret);
      if error.Some? { return Err(error.value); }
      if !ClaimedBy(row, agent) || row.lease.None? { return Err(Forbidden); }
      if row.lease.value !in leases { return Err(Expired); }
      if leases[row.lease.value].holder != agent || leases[row.lease.value].expiresAt <= now { return Err(Expired); }
      requests := requests[id := row.(status := FinalStatus(outcome), completedAt := Some(now), updatedAt := now)];
      leases := leases - {row.lease.value};
      return RequestReply(id, requests[id]);
    }

    method CancelIntegration(id: Id, agent: Id, secret: Id, now: Millis) returns (reply: Reply)
      requires Good()
      modifies this
      ensures Good() && Effect(Tables(), reply) == Step(old(Tables()), now, Op.Cancel(id, agent, secret))
    {
      hide GoodTables, RepositoryError;
      StepKeepsGood(Tables(), now, Op.Cancel(id, agent, secret));
      if id !in requests { return Err(NotFound); }
      var row := requests[id];
      var error := RepositoryError(Tables(), agent, row.repository, secret);
      if error.Some? { return Err(error.value); }
      if !row.status.Active() { return RequestReply(id, row); }
      if row.status == Claimed {
        if row.claimedBy != Some(agent) { return Err(Forbidden); }
      } else if row.requestedBy != agent {
        return Err(Forbidden);
      }
      requests := requests[id := row.(status := Cancelled, completedAt := Some(now), updatedAt := now)];
      if row.lease.Some? { leases := leases - {row.lease.value}; }
      return RequestReply(id, requests[id]);
    }

    method AdminCancelUnclaimedIntegration(id: Id, now: Millis) returns (reply: Reply)
      requires Good()
      modifies this
      ensures Good() && Effect(Tables(), reply) == Step(old(Tables()), now, Op.OwnerCancel(id))
    {
      hide GoodTables;
      StepKeepsGood(Tables(), now, Op.OwnerCancel(id));
      if id !in requests { return Err(NotFound); }
      var row := requests[id];
      if !row.status.Active() { return RequestReply(id, row); }
      if row.status == Claimed || row.lease.Some? { return Err(Conflict); }
      requests := requests[id := row.(status := Cancelled, completedAt := Some(now), updatedAt := now)];
      return RequestReply(id, requests[id]);
    }

    // ----- maintenance -----

    method RunMaintenance(staleBefore: Millis, terminalBefore: Millis, apply: bool, now: Millis) returns (reply: Reply)
      requires Good()
      modifies this
      ensures Good()
              && Effect(Tables(), reply) == Step(old(Tables()), now, Op.Maintain(staleBefore, terminalBefore, apply))
    {
      hide GoodTables, Prunable, HoldsWork;
      StepKeepsGood(Tables(), now, Op.Maintain(staleBefore, terminalBefore, apply));
      if staleBefore >= now || terminalBefore >= now { return Err(InvalidInput); }
      var saved := Tables();
      PerformMaintenance(staleBefore, terminalBefore, now);
      // a preview runs the same statements and rolls its savepoint back
      if !apply { Rollback(saved); }
      return Done;
    }

    method PerformMaintenance(staleBefore: Millis, terminalBefore: Millis, now: Millis)
      requires staleBefore < now && terminalBefore < now
      modifies this
      ensures Tables() == MaintainTx(old(Tables()), staleBefore, terminalBefore, true, now).db
    {
      hide Prunable, HoldsWork, Recover;
      RecoverExpiredLeasesInTransaction(now);
      ghost var live := Tables();
      var candidates := set agent | agent in agents && agents[agent].registered
                        && agents[agent].lastHeartbeat < staleBefore;
      var pending := candidates;
      while pending != {}
        invariant pending <= candidates
        invariant Tables() == live.(agents := agents) && agents.Keys == live.agents.Keys
        invariant forall agent :: agent in live.agents ==>
                    var goes := agent in candidates - pending && !HoldsWork(live, agent);
                    agents[agent] == if goes then live.agents[agent].(registered := false) else live.agents[agent]
      {
        var agent :| agent in pending;
        var busy := FindWork(agent);
        WorkIgnoresAgents(live, Tables(), agent);
        if !busy { agents := agents[agent := agents[agent].(registered := false)]; }
        pending := pending - {agent};
      }
      requests := map id | id in requests && !Prunable(Tables(), requests[id], terminalBefore) :: requests[id];
      PruneIgnoresAgents(live, terminalBefore);
      ghost var after := MaintainTx(old(Tables()), staleBefore, terminalBefore, true, now).db;
      assert agents == after.agents;
      assert requests == after.requests;
    }

    /** The agent's remaining leases and claimed requests block it. */
    method FindWork(agent: Id) returns (busy: bool)
      ensures busy == HoldsWork(Tables(), agent)
    {
      var held := set lease | lease in leases && leases[lease].holder == agent;
      var claimed := set id | id in requests && ClaimedBy(requests[id], agent);
      if HoldsWork(Tables(), agent) {
        if lease :| lease in leases && leases[lease].holder == agent {
          assert lease in held;
        } else {
          var id :| id in requests && ClaimedBy(requests[id], agent);
          assert id in claimed;
        }
      }
      busy := held != {} || claimed != {};
    }

    lemma WorkIgnoresAgents(db: Db, after: Db, agent: Id)
      requires after == db.(agents := after.agents)
      ensures HoldsWork(after, agent) == HoldsWork(db, agent)
    {
    }

    lemma PruneIgnoresAgents(db: Db, terminalBefore: Millis)
      ensures forall row, after: Db {:trigger Prunable(after, row, terminalBefore)} ::
        after.leases == db.leases ==> Prunable(after, row, terminalBefore) == Prunable(db, row, terminalBefore)
    {
    }
  }

  lemma AcquireKeepsRequests(db: Db, resource: Resource, holder: Id, ttl: int, reuse: bool, now: Millis)
    ensures AcquireInTransaction(db, resource, holder, ttl, reuse, now).db.requests == db.requests
    ensures AcquireInTransaction(db, resource, holder, ttl, reuse, now).reply.Err?
            || AcquireInTransaction(db, resource, holder, ttl, reuse, now).reply.LeaseReply?
  {
  }
}
