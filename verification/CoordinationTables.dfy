/** The tables behind leases and integration requests (packages/core/src/store.ts),
    and, for each public method, the transaction it runs: a function from the
    tables before to the tables after and the reply. A reply of `Err` stands for a
    thrown CoordinationError; the tables are then the ones before the call, except
    where the source commits first and throws afterwards (Claim). */
module CoordinationTables {
  import opened Wrappers

  const MAX_RESOURCE_LENGTH := 512
  const MAX_LEASE_SECONDS := 900
  const RESERVED_PREFIX := "git:"

  /** Identifiers stand for random UUIDs. They are numbered in the order they are
      drawn; the code only ever compares them for equality. */
  type Id = nat
  type Millis = int

  datatype Code = InvalidInput | NotFound | Forbidden | Conflict | Expired

  /** What a lease is held on: a caller's own name, or an integration target. */
  datatype Resource = Named(name: string) | Target(repository: string, ref: string)
  {
    /** The text stored in the `resource` column. */
    function Text(): string {
      match this
      case Named(name) => name
      case Target(repository, ref) => RESERVED_PREFIX + repository + ":ref:" + ref
    }
  }

  datatype Agent = Agent(session: string, workspace: string, secret: Id, registered: bool, lastHeartbeat: Millis)

  datatype Lease = Lease(resource: Resource, holder: Id, token: nat, acquiredAt: Millis, expiresAt: Millis)

  datatype Status = Queued | NeedsRefresh | Claimed | Completed | Failed | Cancelled
  {
    predicate Active() { Queued? || NeedsRefresh? || Claimed? }
  }

  datatype Request = Request(
    rowid: nat, repository: string, target: string, sourceOid: string, targetOid: string, status: Status,
    requestedBy: Id, claimedBy: Option<Id>, lease: Option<Id>, updatedAt: Millis, completedAt: Option<Millis>)
  {
    function Key(): Resource { Target(repository, target) }

    /** The row after its authority is taken away. */
    function Released(now: Millis): Request {
      this.(status := NeedsRefresh, claimedBy := None, lease := None, updatedAt := now)
    }
  }

  datatype Db = Db(
    workspaces: map<string, string>, agents: map<Id, Agent>, leases: map<Id, Lease>,
    counters: map<Resource, nat>, requests: map<Id, Request>, nextId: Id)

  const EMPTY := Db(map[], map[], map[], map[], map[], 0)

  datatype Reply =
    | Done
    | AgentReply(agent: Id, secret: Id)
    | LeaseReply(id: Id, lease: Lease)
    | RequestReply(request: Id, row: Request)
    | Err(code: Code)

  datatype Effect = Effect(db: Db, reply: Reply)

  datatype CompletionOutcome = Merged | Rebased | Squashed | FailedOutcome | CancelledOutcome

  datatype Op =
    | UpsertWorkspace(worktree: string, repository: string)
    | Register(session: string, worktree: string, repository: string, presented: Option<Id>)
    | Heartbeat(agent: Id, secret: Id, worktree: string, repository: string)
    | Unregister(agent: Id, secret: Id)
    | AcquireLease(name: string, agent: Id, secret: Id, ttl: int)
    | RenewLease(lease: Id, agent: Id, secret: Id, ttl: int)
    | ReleaseLease(lease: Id, agent: Id, secret: Id)
    | Enqueue(repository: string, target: string, sourceOid: string, targetOid: string, agent: Id, secret: Id)
    | Claim(request: Id, agent: Id, secret: Id, sourceOid: string, targetOid: string, ttl: int)
    | RenewIntegration(request: Id, agent: Id, secret: Id, ttl: int)
    | Refresh(request: Id, agent: Id, secret: Id, sourceOid: string, targetOid: string)
    | Complete(request: Id, agent: Id, secret: Id, outcome: CompletionOutcome, postTargetOid: Option<string>)
    | Cancel(request: Id, agent: Id, secret: Id)
    | OwnerCancel(request: Id)
    | RecoverExpired
    | Maintain(staleBefore: Millis, terminalBefore: Millis, apply: bool)

  // ----- shared checks -----

  predicate IsHex(c: char) { '0' <= c <= '9' || 'a' <= c <= 'f' || 'A' <= c <= 'F' }

  /** /^[0-9a-f]{40,64}$/i */
  predicate IsOid(s: string) { 40 <= |s| <= 64 && forall i | 0 <= i < |s| :: IsHex(s[i]) }

  predicate ValidTtl(ttl: int) { 1 <= ttl <= MAX_LEASE_SECONDS }

  predicate Reserved(name: string) { RESERVED_PREFIX <= name }

  function Refuse(db: Db, code: Code): Effect { Effect(db, Err(code)) }

  /** Why `agent` may not act with `secret`: unknown or unregistered, or a wrong token. */
  function AuthError(db: Db, agent: Id, secret: Id): Option<Code> {
    if agent !in db.agents || !db.agents[agent].registered then Some(NotFound)
    else if db.agents[agent].secret != secret then Some(Forbidden)
    else None
  }

  function RepositoryError(db: Db, agent: Id, repository: string, secret: Id): Option<Code> {
    var auth := AuthError(db, agent, secret);
    if auth.Some? then auth
    else if db.agents[agent].workspace !in db.workspaces then Some(NotFound)
    else if db.workspaces[db.agents[agent].workspace] != repository then Some(Forbidden)
    else None
  }

  // ----- expiry recovery -----

  predicate LeaseExpired(db: Db, lease: Id, now: Millis) {
    lease in db.leases && db.leases[lease].expiresAt <= now
  }

  predicate LosesAuthority(db: Db, row: Request, now: Millis) {
    row.status == Claimed && row.lease.Some? && LeaseExpired(db, row.lease.value, now)
  }

  function Recover(db: Db, now: Millis): Db {
    db.(leases := map id | id in db.leases && !LeaseExpired(db, id, now) :: db.leases[id],
        requests := map id | id in db.requests ::
          if LosesAuthority(db, db.requests[id], now) then db.requests[id].Released(now) else db.requests[id])
  }

  // ----- leases -----

  ghost predicate Holds(db: Db, id: Id, resource: Resource) { id in db.leases && db.leases[id].resource == resource }

  /** The row found by the unique index on leases(resource). */
  ghost function LeaseOn(db: Db, resource: Resource): Option<Id> {
    if id :| Holds(db, id, resource) then Some(id) else None
  }

  ghost function AcquireInTransaction(db: Db, resource: Resource, holder: Id, ttl: int, reuse: bool,
                                      now: Millis): Effect {
    if |resource.Text()| == 0 || |resource.Text()| > MAX_RESOURCE_LENGTH then Refuse(db, InvalidInput)
    else if !ValidTtl(ttl) then Refuse(db, InvalidInput)
    else if holder !in db.agents || !db.agents[holder].registered then Refuse(db, NotFound)
    else
      var existing := LeaseOn(db, resource);
      if existing.Some? && db.leases[existing.value].expiresAt > now then
        if db.leases[existing.value].holder != holder || !reuse then Refuse(db, Conflict)
        else
          var renewed := db.leases[existing.value].(expiresAt := now + ttl * 1000);
          Effect(db.(leases := db.leases[existing.value := renewed]), LeaseReply(existing.value, renewed))
      else
        var kept := if existing.Some? then db.leases - {existing.value} else db.leases;
        var token := if resource in db.counters then db.counters[resource] else 1;
        var lease := Lease(resource, holder, token, now, now + ttl * 1000);
        Effect(db.(leases := kept[db.nextId := lease], counters := db.counters[resource := token + 1],
                   nextId := db.nextId + 1),
               LeaseReply(db.nextId, lease))
  }

  ghost function AcquireLeaseTx(db: Db, name: string, agent: Id, secret: Id, ttl: int, now: Millis): Effect {
    if Reserved(name) then Refuse(db, InvalidInput)
    else
      var live := Recover(db, now);
      var auth := AuthError(live, agent, secret);
      if auth.Some? then Refuse(db, auth.value)
      else
        var granted := AcquireInTransaction(live, Named(name), agent, ttl, true, now);
        if granted.reply.Err? then Refuse(db, granted.reply.code) else granted
  }

  function RenewLeaseTx(db: Db, lease: Id, agent: Id, secret: Id, ttl: int, now: Millis): Effect {
    if !ValidTtl(ttl) then Refuse(db, InvalidInput)
    else
      var auth := AuthError(db, agent, secret);
      if auth.Some? then Refuse(db, auth.value)
      else if lease !in db.leases then Refuse(db, NotFound)
      else if db.leases[lease].holder != agent then Refuse(db, Forbidden)
      else if Reserved(db.leases[lease].resource.Text()) then Refuse(db, InvalidInput)
      else if db.leases[lease].expiresAt <= now then Refuse(db, Expired)
      else
        var renewed := db.leases[lease].(expiresAt := now + ttl * 1000);
        Effect(db.(leases := db.leases[lease := renewed]), LeaseReply(lease, renewed))
  }

  function ReleaseLeaseTx(db: Db, lease: Id, agent: Id, secret: Id): Effect {
    var auth := AuthError(db, agent, secret);
    if auth.Some? then Refuse(db, auth.value)
    else if lease !in db.leases then Refuse(db, NotFound)
    else if db.leases[lease].holder != agent then Refuse(db, Forbidden)
    else if Reserved(db.leases[lease].resource.Text()) then Refuse(db, InvalidInput)
    else Effect(db.(leases := db.leases - {lease}), Done)
  }

  // ----- agents -----

  ghost predicate HasSession(db: Db, id: Id, session: string, worktree: string) {
    id in db.agents && db.agents[id].session == session && db.agents[id].workspace == worktree
  }

  /** The row found by the unique index on agents(session_key, workspace_id). */
  ghost function SessionOwner(db: Db, session: string, worktree: string): Option<Id> {
    if id :| HasSession(db, id, session, worktree) then Some(id) else None
  }

  ghost function RegisterTx(db: Db, session: string, worktree: string, repository: string, presented: Option<Id>,
                            now: Millis): Effect {
    var existing := SessionOwner(db, session, worktree);
    var workspaces := db.workspaces[worktree := repository];
    if existing.Some? then
      var row := db.agents[existing.value];
      if presented != Some(row.secret) then Refuse(db, Forbidden)
      else
        Effect(db.(workspaces := workspaces, nextId := db.nextId + 1,
                   agents :=
                     db.agents[existing.value := row.(secret := db.nextId, registered := true, lastHeartbeat := now)]),
               AgentReply(existing.value, db.nextId))
    else
      Effect(db.(workspaces := workspaces, nextId := db.nextId + 2,
                 agents := db.agents[db.nextId + 1 := Agent(session, worktree, db.nextId, true, now)]),
             AgentReply(db.nextId + 1, db.nextId))
  }

  function HeartbeatTx(db: Db, agent: Id, secret: Id, worktree: string, repository: string, now: Millis): Effect {
    var auth := AuthError(db, agent, secret);
    if auth.Some? then Refuse(db, auth.value)
    else if db.agents[agent].workspace != worktree then Refuse(db, Forbidden)
    else Effect(db.(workspaces := db.workspaces[worktree := repository],
                    agents := db.agents[agent := db.agents[agent].(lastHeartbeat := now)]), Done)
  }

  predicate ClaimedBy(row: Request, agent: Id) { row.status == Claimed && row.claimedBy == Some(agent) }

  ghost predicate BacksClaimOf(db: Db, lease: Id, agent: Id) {
    exists id :: id in db.requests && ClaimedBy(db.requests[id], agent) && db.requests[id].lease == Some(lease)
  }

  ghost function UnregisterTx(db: Db, agent: Id, secret: Id, now: Millis): Effect {
    if agent !in db.agents then Refuse(db, NotFound)
    else if db.agents[agent].secret != secret then Refuse(db, Forbidden)
    else if !db.agents[agent].registered then Effect(db, Done)
    else
      Effect(db.(agents := db.agents[agent := db.agents[agent].(registered := false)],
                 leases := map id | id in db.leases && db.leases[id].holder != agent && !BacksClaimOf(db, id, agent) ::
                             db.leases[id],
                 requests := map id | id in db.requests ::
                   if ClaimedBy(db.requests[id], agent) then db.requests[id].Released(now) else db.requests[id]),
             Done)
  }

  // ----- integration requests -----

  ghost predicate IsMaxRowid(rows: map<Id, Request>, n: nat) {
    && (forall id :: id in rows ==> rows[id].rowid <= n)
    && (rows != map[] ==> exists id :: id in rows && rows[id].rowid == n)
    && (rows == map[] ==> n == 0)
  }

  /** SQLite gives a new row the largest remaining rowid plus one. */
  ghost function MaxRowid(rows: map<Id, Request>): (n: nat)
    ensures IsMaxRowid(rows, n)
  {
    MaxRowidExists(rows);
    var n :| IsMaxRowid(rows, n);
    n
  }

  lemma MaxRowidExists(rows: map<Id, Request>)
    ensures exists n: nat :: IsMaxRowid(rows, n)
    decreases |rows|
  {
    if rows == map[] {
      assert IsMaxRowid(rows, 0);
    } else {
      var id :| id in rows;
      var rest := rows - {id};
      MaxRowidExists(rest);
      var m: nat :| IsMaxRowid(rest, m);
      assert forall other :: other in rows ==> other == id || other in rest;
      assert IsMaxRowid(rows, if rest == map[] || rows[id].rowid > m then rows[id].rowid else m);
    }
  }

  ghost function EnqueueTx(db: Db, repository: string, target: string, sourceOid: string, targetOid: string,
                           agent: Id, secret: Id, now: Millis): Effect {
    if !IsOid(sourceOid) || !IsOid(targetOid) then Refuse(db, InvalidInput)
    else
      var error := RepositoryError(db, agent, repository, secret);
      if error.Some? then Refuse(db, error.value)
      else
        var row := Request(MaxRowid(db.requests) + 1, repository, target, sourceOid, targetOid, Queued, agent, None,
                           None, now, None);
        Effect(db.(requests := db.requests[db.nextId := row], nextId := db.nextId + 1), RequestReply(db.nextId, row))
  }

  predicate Ahead(db: Db, other: Id, id: Id)
    requires id in db.requests
  {
    && other in db.requests
    && db.requests[other].Key() == db.requests[id].Key()
    && db.requests[other].rowid < db.requests[id].rowid
    && db.requests[other].status.Active()
  }

  ghost predicate HasEarlier(db: Db, id: Id)
    requires id in db.requests
  {
    exists other :: Ahead(db, other, id)
  }

  function Update(db: Db, id: Id, row: Request): Effect {
    Effect(db.(requests := db.requests[id := row]), RequestReply(id, row))
  }

  ghost function ClaimTx(db: Db, id: Id, agent: Id, secret: Id, sourceOid: string, targetOid: string, ttl: int,
                         now: Millis): Effect {
    var live := Recover(db, now);
    if id !in live.requests then Refuse(db, NotFound)
    else
      var row := live.requests[id];
      var error := RepositoryError(live, agent, row.repository, secret);
      if error.Some? then Refuse(db, error.value)
      else if row.status != Queued then Refuse(db, Conflict)
      else if !IsOid(sourceOid) || !IsOid(targetOid) then Refuse(db, InvalidInput)
      else if row.sourceOid != sourceOid || row.targetOid != targetOid then
        // committed, then thrown
        Refuse(Update(live, id, row.(status := NeedsRefresh, updatedAt := now)).db, Conflict)
      else if HasEarlier(live, id) then Refuse(db, Conflict)
      else
        var granted := AcquireInTransaction(live, row.Key(), agent, ttl, false, now);
        if !granted.reply.LeaseReply? then Refuse(db, if granted.reply.Err? then granted.reply.code else Conflict)
        else
          Update(granted.db, id,
                 row.(status := Claimed, claimedBy := Some(agent), lease := Some(granted.reply.id), updatedAt := now))
  }

  function RenewIntegrationTx(db: Db, id: Id, agent: Id, secret: Id, ttl: int, now: Millis): Effect {
    if !ValidTtl(ttl) then Refuse(db, InvalidInput)
    else
      var live := Recover(db, now);
      if id !in live.requests then Refuse(db, NotFound)
      else
        var row := live.requests[id];
        var error := RepositoryError(live, agent, row.repository, secret);
        if error.Some? then Refuse(db, error.value)
        else if !ClaimedBy(row, agent) || row.lease.None? then Refuse(db, Forbidden)
        else if row.lease.value !in live.leases then Refuse(db, Expired)
        else
          var lease := live.leases[row.lease.value];
          if lease.holder != agent || lease.resource.Text() != row.Key().Text() || lease.expiresAt <= now then
            Refuse(db, Expired)
          else
            Update(live.(leases := live.leases[row.lease.value := lease.(expiresAt := now + ttl * 1000)]), id,
                   row.(updatedAt := now))
  }

  function RefreshTx(db: Db, id: Id, agent: Id, secret: Id, sourceOid: string, targetOid: string, now: Millis): Effect {
    if !IsOid(sourceOid) || !IsOid(targetOid) then Refuse(db, InvalidInput)
    else if id !in db.requests then Refuse(db, NotFound)
    else
      var row := db.requests[id];
      var error := RepositoryError(db, agent, row.repository, secret);
      if error.Some? then Refuse(db, error.value)
      else if row.requestedBy != agent && row.claimedBy != Some(agent) then Refuse(db, Forbidden)
      else if row.status != Queued && row.status != NeedsRefresh then Refuse(db, Conflict)
      else Update(db, id, row.(sourceOid := sourceOid, targetOid := targetOid, status := Queued, updatedAt := now))
  }

  /** An empty text counts as none. */
  predicate IsGiven(oid: Option<string>) { oid.Some? && oid.value != "" }

  function FinalStatus(outcome: CompletionOutcome): Status {
    match outcome
    case FailedOutcome => Failed
    case CancelledOutcome => Cancelled
    case _ => Completed
  }

  function CompleteTx(db: Db, id: Id, agent: Id, secret: Id, outcome: CompletionOutcome, postTargetOid: Option<string>,
                      now: Millis): Effect {
    if outcome != CancelledOutcome && !IsGiven(postTargetOid) then Refuse(db, InvalidInput)
    else if IsGiven(postTargetOid) && !IsOid(postTargetOid.value) then Refuse(db, InvalidInput)
    else if id !in db.requests then Refuse(db, NotFound)
    else
      var row := db.requests[id];
      var error := RepositoryError(db, agent, row.repository, secret);
      if error.Some? then Refuse(db, error.value)
      else if !ClaimedBy(row, agent) || row.lease.None? then Refuse(db, Forbidden)
      else if row.lease.value !in db.leases then Refuse(db, Expired)
      else if db.leases[row.lease.value].holder != agent || db.leases[row.lease.value].expiresAt <= now then
        Refuse(db, Expired)
      else
        // the row keeps its lease id and claimant
        Update(db.(leases := db.leases - {row.lease.value}), id,
               row.(status := FinalStatus(outcome), completedAt := Some(now), updatedAt := now))
  }

  function CancelTx(db: Db, id: Id, agent: Id, secret: Id, now: Millis): Effect {
    if id !in db.requests then Refuse(db, NotFound)
    else
      var row := db.requests[id];
      var error := RepositoryError(db, agent, row.repository, secret);
      if error.Some? then Refuse(db, error.value)
      else if !row.status.Active() then Effect(db, RequestReply(id, row))
      else if row.status == Claimed && row.claimedBy != Some(agent) then Refuse(db, Forbidden)
      else if row.status != Claimed && row.requestedBy != agent then Refuse(db, Forbidden)
      else
        Update(db.(leases := if row.lease.Some? then db.leases - {row.lease.value} else db.leases), id,
               row.(status := Cancelled, completedAt := Some(now), updatedAt := now))
  }

  function OwnerCancelTx(db: Db, id: Id, now: Millis): Effect {
    if id !in db.requests then Refuse(db, NotFound)
    else
      var row := db.requests[id];
      if !row.status.Active() then Effect(db, RequestReply(id, row))
      else if row.status == Claimed || row.lease.Some? then Refuse(db, Conflict)
      else Update(db, id, row.(status := Cancelled, completedAt := Some(now), updatedAt := now))
  }

  // ----- maintenance -----

  ghost predicate HoldsWork(db: Db, agent: Id) {
    || (exists lease :: lease in db.leases && db.leases[lease].holder == agent)
    || (exists id :: id in db.requests && ClaimedBy(db.requests[id], agent))
  }

  ghost predicate GoesOffline(db: Db, agent: Id, staleBefore: Millis) {
    agent in db.agents && db.agents[agent].registered && db.agents[agent].lastHeartbeat < staleBefore
    && !HoldsWork(db, agent)
  }

  predicate Prunable(db: Db, row: Request, terminalBefore: Millis) {
    && !row.status.Active()
    && row.completedAt.Some? && row.completedAt.value < terminalBefore
    && !(row.lease.Some? && row.lease.value in db.leases)
  }

  ghost function MaintainTx(db: Db, staleBefore: Millis, terminalBefore: Millis, apply: bool, now: Millis): Effect {
    if staleBefore >= now || terminalBefore >= now then Refuse(db, InvalidInput)
    else if !apply then Effect(db, Done)
    else
      var live := Recover(db, now);
      Effect(live.(agents := map id | id in live.agents ::
                     if GoesOffline(live, id, staleBefore) then live.agents[id].(registered := false)
                     else live.agents[id],
                   requests := map id | id in live.requests && !Prunable(live, live.requests[id], terminalBefore) ::
                                 live.requests[id]),
             Done)
  }

  // ----- one transaction -----

  ghost function Step(db: Db, now: Millis, op: Op): Effect {
    match op
    case UpsertWorkspace(worktree, repository) => Effect(db.(workspaces := db.workspaces[worktree := repository]), Done)
    case Register(session, worktree, repository, presented) =>
      RegisterTx(db, session, worktree, repository, presented, now)
    case Heartbeat(agent, secret, worktree, repository) => HeartbeatTx(db, agent, secret, worktree, repository, now)
    case Unregister(agent, secret) => UnregisterTx(db, agent, secret, now)
    case AcquireLease(name, agent, secret, ttl) => AcquireLeaseTx(db, name, agent, secret, ttl, now)
    case RenewLease(lease, agent, secret, ttl) => RenewLeaseTx(db, lease, agent, secret, ttl, now)
    case ReleaseLease(lease, agent, secret) => ReleaseLeaseTx(db, lease, agent, secret)
    case Enqueue(repository, target, sourceOid, targetOid, agent, secret) =>
      EnqueueTx(db, repository, target, sourceOid, targetOid, agent, secret, now)
    case Claim(id, agent, secret, sourceOid, targetOid, ttl) =>
      ClaimTx(db, id, agent, secret, sourceOid, targetOid, ttl, now)
    case RenewIntegration(id, agent, secret, ttl) => RenewIntegrationTx(db, id, agent, secret, ttl, now)
    case Refresh(id, agent, secret, sourceOid, targetOid) => RefreshTx(db, id, agent, secret, sourceOid, targetOid, now)
    case Complete(id, agent, secret, outcome, postTargetOid) =>
      CompleteTx(db, id, agent, secret, outcome, postTargetOid, now)
    case Cancel(id, agent, secret) => CancelTx(db, id, agent, secret, now)
    case OwnerCancel(id) => OwnerCancelTx(db, id, now)
    case RecoverExpired => Effect(Recover(db, now), Done)
    case Maintain(staleBefore, terminalBefore, apply) => MaintainTx(db, staleBefore, terminalBefore, apply, now)
  }

  // ----- the resource column loses nothing -----

  /** Repository ids carry no colon, and names that start with the prefix are refused. */
  predicate Encodable(resource: Resource) {
    match resource
    case Named(name) => !Reserved(name)
    case Target(repository, ref) => ':' !in repository
  }

  lemma ResourceTextInjective(a: Resource, b: Resource)
    requires Encodable(a) && Encodable(b)
    ensures a.Text() == b.Text() <==> a == b
  {
    if a.Text() == b.Text() {
      if a.Target? != b.Target? {
        assert false;
      } else if a.Target? {
        var u, v := ":ref:" + a.ref, ":ref:" + b.ref;
        assert a.Text() == RESERVED_PREFIX + a.repository + u && b.Text() == RESERVED_PREFIX + b.repository + v;
        FirstColon(a.repository, u, b.repository, v);
        assert a.ref == u[5..] && b.ref == v[5..];
      }
    }
  }

  lemma FirstColon(x: string, u: string, y: string, v: string)
    requires ':' !in x && ':' !in y
    requires |u| >= 5 && |v| >= 5 && u[0] == ':' && v[0] == ':'
    requires RESERVED_PREFIX + x + u == RESERVED_PREFIX + y + v
    ensures x == y && u == v
  {
    var w := RESERVED_PREFIX + x + u;
    assert w[4 + |x|] == ':' && w[4 + |y|] == ':';
    if |x| < |y| {
      assert false;
    } else if |y| < |x| {
      assert false;
    }
    assert x == w[4..4 + |x|] && y == w[4..4 + |y|];
    assert u == w[4 + |x|..] && v == w[4 + |y|..];
  }
}
