/** What holds over whole runs: authority periods, fencing tokens, first-in-first-out
    completion, when a claim is granted, and why no queue stays stuck. */
module CoordinationRuns {
  import opened Wrappers
  import opened CoordinationTables
  import opened CoordinationInvariants
  import opened CoordinationAnswers
  import opened CoordinationSteps

  datatype Timed = At(now: Millis, op: Op)

  /** A run from the empty store: `states[i]` is the state before `steps[i]`. */
  ghost predicate IsRun(states: seq<Db>, steps: seq<Timed>) {
    && |states| == |steps| + 1
    && states[0] == EMPTY
    && forall i :: 0 <= i < |steps| ==> states[i + 1] == Step(states[i], steps[i].now, steps[i].op).db
  }

  lemma {:induction false} RunStaysValid(states: seq<Db>, steps: seq<Timed>, k: nat)
    requires IsRun(states, steps) && k <= |steps|
    ensures Valid(states[k])
  {
    if k > 0 {
      hide Valid, Step;
      RunStaysValid(states, steps, k - 1);
      StepKeepsValid(states[k - 1], steps[k - 1].now, steps[k - 1].op);
    }
  }

  lemma RunMoves(states: seq<Db>, steps: seq<Timed>, k: nat)
    requires IsRun(states, steps) && k < |steps|
    ensures Moves(states[k], steps[k].now, steps[k].op, states[k + 1])
  {
    hide Valid, Step, Moves;
    RunStaysValid(states, steps, k);
    StepMoves(states[k], steps[k].now, steps[k].op);
  }

  // ----- authority periods -----

  ghost predicate ClaimSucceeds(states: seq<Db>, steps: seq<Timed>, k: nat, id: Id, lease: Id, key: Resource)
    requires IsRun(states, steps) && k < |steps|
  {
    var reply := Step(states[k], steps[k].now, steps[k].op).reply;
    && steps[k].op.Claim? && steps[k].op.request == id
    && reply.RequestReply? && reply.row.lease == Some(lease) && reply.row.Key() == key
  }

  /** A granted claim: its request gets the next lease, on a target whose leases, if any,
      have expired and are gone afterwards. */
  ghost predicate Grants(db: Db, now: Millis, op: Op, effect: Effect)
    requires op.Claim? && effect.reply.RequestReply?
  {
    && effect.reply.row.lease == Some(db.nextId)
    && Backs(effect.db, db.nextId, op.request) && effect.db.requests[op.request] == effect.reply.row
    && forall lease :: lease in db.leases && db.leases[lease].resource == effect.reply.row.Key() ==>
         LeaseExpired(db, lease, now) && lease !in effect.db.leases
  }

  lemma GrantedClaim(db: Db, now: Millis, op: Op)
    requires Valid(db) && op.Claim? && Step(db, now, op).reply.RequestReply?
    ensures Grants(db, now, op, Step(db, now, op))
  {
    hide Valid, RepositoryError, IsOid, AcquireInTransaction, LeaseOn;
    var live := Recover(db, now);
    var effect := Step(db, now, op);
    ValidIsSound(db);
    RecoverKeepsValid(db, now);
    ClaimGrants(live, op.request, op.agent, op.ttl, now);
    HeadTargetIsFree(live, op.request);
    assert live.requests[op.request].Key() == effect.reply.row.Key();
    forall lease | lease in db.leases && db.leases[lease].resource == effect.reply.row.Key()
      ensures LeaseExpired(db, lease, now) && lease !in effect.db.leases
    {
      assert lease !in live.leases;
    }
  }

  /** The authority of `id` through `lease` holds after step `from`, lasts up to step `k`,
      and step `k` ends it in one of the four ways. */
  ghost predicate AuthorityPeriod(states: seq<Db>, steps: seq<Timed>, id: Id, lease: Id, from: nat, k: nat)
    requires IsRun(states, steps) && k < |steps|
  {
    && from < k
    && (forall m :: from < m <= k ==> Backs(states[m], lease, id))
    && EndsAuthority(states[k], steps[k].now, steps[k].op, id, lease)
    && lease !in states[k + 1].leases
  }

  /** After a granted claim no other claim on the target is granted before, or without,
      an end to the first one's authority: its own completion, its own cancel, its
      holder's unregistering, or the expiry of its lease. */
  lemma AuthorityPeriodsAreDisjoint(states: seq<Db>, steps: seq<Timed>, i: nat, j: nat,
                                    id: Id, lease: Id, other: Id, later: Id, key: Resource)
    requires IsRun(states, steps) && i < j < |steps|
    requires ClaimSucceeds(states, steps, i, id, lease, key)
    requires ClaimSucceeds(states, steps, j, other, later, key)
    ensures exists k: nat :: k <= j && AuthorityPeriod(states, steps, id, lease, i, k)
  {
    hide Valid, Step, Moves, EndsAuthority;
    RunStaysValid(states, steps, i);
    GrantedClaim(states[i], steps[i].now, steps[i].op);
    FollowAuthority(states, steps, id, lease, i, i + 1, j, key, other, later);
  }

  lemma {:induction false} FollowAuthority(states: seq<Db>, steps: seq<Timed>, id: Id, lease: Id,
                                           i: nat, m: nat, j: nat, key: Resource, other: Id, later: Id)
    requires IsRun(states, steps) && i < m <= j < |steps|
    requires forall n :: i < n <= m ==> Backs(states[n], lease, id)
    requires id in states[m].requests && states[m].requests[id].Key() == key
    requires ClaimSucceeds(states, steps, j, other, later, key)
    ensures exists k: nat :: k <= j && AuthorityPeriod(states, steps, id, lease, i, k)
    decreases j - m
  {
    hide Valid, Step, Moves, EndsAuthority;
    assert Backs(states[m], lease, id);
    RunStaysValid(states, steps, m);
    RunMoves(states, steps, m);
    AuthorityLasts(states[m], steps[m].now, steps[m].op, states[m + 1], id, lease);
    if m == j {
      GrantedClaim(states[j], steps[j].now, steps[j].op);
      LeaseOfClaim(states[j], id);
      assert AuthorityPeriod(states, steps, id, lease, i, j);
    } else if Backs(states[m + 1], lease, id) && lease in states[m + 1].leases {
      FollowAuthority(states, steps, id, lease, i, m + 1, j, key, other, later);
    } else {
      assert AuthorityPeriod(states, steps, id, lease, i, m);
    }
  }

  lemma AuthorityLasts(db: Db, now: Millis, op: Op, after: Db, id: Id, lease: Id)
    requires Moves(db, now, op, after) && Backs(db, lease, id)
    ensures || (Backs(after, lease, id) && lease in after.leases && after.requests[id].Key() == db.requests[id].Key())
            || (EndsAuthority(db, now, op, id, lease) && lease !in after.leases)
  {
    hide EndsAuthority, GrantsMove;
    assert id in after.requests ==> after.requests[id].Key() == db.requests[id].Key();
  }

  // ----- fencing tokens -----

  /** The tokens granted on `resource` in the first `n` steps, in order. */
  ghost function TokensOn(states: seq<Db>, resource: Resource, n: nat): seq<nat>
    requires n < |states|
  {
    if n == 0 then [] else TokensOn(states, resource, n - 1) + GrantOn(states[n - 1], states[n], resource)
  }

  /** Fresh grants on a resource carry 1, 2, 3, ... in order. */
  lemma {:induction false} TokensCountUp(states: seq<Db>, steps: seq<Timed>, resource: Resource, n: nat)
    requires IsRun(states, steps) && n <= |steps|
    ensures TokensOn(states, resource, n) == seq(|TokensOn(states, resource, n)|, i => i + 1)
    ensures Counter(states[n], resource) == |TokensOn(states, resource, n)| + 1
  {
    hide Valid, Step, LeasesMove, RowsMove, AuthorityMoves;
    if n > 0 {
      TokensCountUp(states, steps, resource, n - 1);
      RunMoves(states, steps, n - 1);
      assert CounterMoves(states[n - 1], states[n], resource);
    }
  }

  /** `id` reaches `completed` on `key` in step `k`. */
  ghost predicate CompletesAt(states: seq<Db>, steps: seq<Timed>, k: nat, id: Id, key: Resource)
    requires IsRun(states, steps) && k < |steps|
  {
    var reply := Step(states[k], steps[k].now, steps[k].op).reply;
    && steps[k].op.Complete? && steps[k].op.request == id
    && reply.RequestReply? && reply.row.status == Completed && reply.row.Key() == key
  }

  lemma CompletionFacts(db: Db, now: Millis, op: Op)
    requires op.Complete? && Step(db, now, op).reply.RequestReply?
    ensures var reply, id := Step(db, now, op).reply, op.request;
            && id in db.requests && db.requests[id].status == Claimed && db.requests[id].Key() == reply.row.Key()
            && id in Step(db, now, op).db.requests && Step(db, now, op).db.requests[id] == reply.row
            && !reply.row.status.Active()
  {
  }

  /** A completion holds the highest token ever granted on its target. */
  lemma CompletionHoldsHighestToken(states: seq<Db>, steps: seq<Timed>, k: nat, id: Id, key: Resource)
    requires IsRun(states, steps) && k < |steps| && CompletesAt(states, steps, k, id, key)
    ensures id in states[k].requests && states[k].requests[id].lease.Some?
    ensures var lease, tokens := states[k].requests[id].lease.value, TokensOn(states, key, k);
            && lease in states[k].leases
            && tokens != [] && states[k].leases[lease].token == tokens[|tokens| - 1]
            && forall token :: token in tokens ==> token <= states[k].leases[lease].token
  {
    hide Valid, Step;
    RunStaysValid(states, steps, k);
    CompletionFacts(states[k], steps[k].now, steps[k].op);
    LeaseOfClaim(states[k], id);
    TokensCountUp(states, steps, key, k);
  }

  // ----- first in, first out -----

  /** The request was enqueued and is finished, or already pruned. */
  ghost predicate Over(db: Db, id: Id) {
    id < db.nextId && !(id in db.requests && db.requests[id].status.Active())
  }

  /** Finished requests never become active again: they stay exactly as they are until
      they are pruned, and pruned ones do not come back. */
  lemma {:induction false} FinishedIsFinal(states: seq<Db>, steps: seq<Timed>, i: nat, j: nat, id: Id)
    requires IsRun(states, steps) && i <= j <= |steps| && Over(states[i], id)
    ensures Over(states[j], id)
    ensures id in states[j].requests ==> id in states[i].requests && states[j].requests[id] == states[i].requests[id]
  {
    hide Valid, Step, LeasesMove, CounterMoves, AuthorityMoves;
    if i < j {
      FinishedIsFinal(states, steps, i, j - 1, id);
      RunMoves(states, steps, j - 1);
      IdsOnlyGrow(states, steps, j - 1);
    }
  }

  lemma IdsOnlyGrow(states: seq<Db>, steps: seq<Timed>, k: nat)
    requires IsRun(states, steps) && k < |steps|
    ensures states[k].nextId <= states[k + 1].nextId
  {
    hide Valid, Step, CounterMoves, RowsMove, AuthorityMoves;
    RunMoves(states, steps, k);
  }

  lemma {:induction false} NextIdsGrow(states: seq<Db>, steps: seq<Timed>, i: nat, j: nat)
    requires IsRun(states, steps) && i <= j <= |steps|
    ensures states[i].nextId <= states[j].nextId
  {
    hide Valid, Step;
    if i < j {
      NextIdsGrow(states, steps, i, j - 1);
      IdsOnlyGrow(states, steps, j - 1);
    }
  }

  /** A row present later, whose id was drawn before, was there with the same place in
      the same queue all along. */
  lemma {:induction false} RowsStayPut(states: seq<Db>, steps: seq<Timed>, i: nat, j: nat, id: Id)
    requires IsRun(states, steps) && i <= j <= |steps| && id < states[i].nextId && id in states[j].requests
    ensures id in states[i].requests
    ensures states[i].requests[id].Key() == states[j].requests[id].Key()
            && states[i].requests[id].rowid == states[j].requests[id].rowid
  {
    hide Valid, Step, LeasesMove, CounterMoves, AuthorityMoves;
    if i < j {
      RunMoves(states, steps, j - 1);
      NextIdsGrow(states, steps, i, j - 1);
      RowsStayPut(states, steps, i, j - 1, id);
    }
  }

  ghost predicate Arrives(states: seq<Db>, steps: seq<Timed>, k: nat, id: Id)
    requires IsRun(states, steps) && k < |steps|
  {
    steps[k].op.Enqueue? && Step(states[k], steps[k].now, steps[k].op).reply.RequestReply?
    && Step(states[k], steps[k].now, steps[k].op).reply.request == id
  }

  lemma ArrivalDrawsNextId(states: seq<Db>, steps: seq<Timed>, k: nat, id: Id)
    requires IsRun(states, steps) && k < |steps| && Arrives(states, steps, k, id)
    ensures id == states[k].nextId && states[k + 1].nextId == id + 1
  {
  }

  /** Requests that reach `completed` on one target do so in the order they were
      enqueued, whatever was pruned, refreshed, expired or unregistered in between. */
  lemma CompletionsFollowArrival(states: seq<Db>, steps: seq<Timed>, a: nat, b: nat, i: nat, j: nat, first: Id,
                                 second: Id, key: Resource)
    requires IsRun(states, steps) && a < |steps| && b < |steps| && i < j < |steps|
    requires Arrives(states, steps, a, first) && Arrives(states, steps, b, second)
    requires CompletesAt(states, steps, i, first, key) && CompletesAt(states, steps, j, second, key)
    ensures a < b
  {
    hide Valid, Step, Arrives;
    RunStaysValid(states, steps, i);
    RunStaysValid(states, steps, j);
    CompletionFacts(states[i], steps[i].now, steps[i].op);
    CompletionFacts(states[j], steps[j].now, steps[j].op);
    RequestsAreDrawn(states[i], first);
    IdsOnlyGrow(states, steps, i);
    if second == first {
      FinishedIsFinal(states, steps, i + 1, j, first);
    } else if second < first {
      RowsStayPut(states, steps, i, j, second);
      EarlierRowIsOver(states[i], first, second);
      FinishedIsFinal(states, steps, i, j, second);
    }
    assert first < second;
    ArrivalDrawsNextId(states, steps, a, first);
    ArrivalDrawsNextId(states, steps, b, second);
    if b < a { NextIdsGrow(states, steps, b + 1, a); }
  }

  lemma RequestsAreDrawn(db: Db, id: Id)
    requires Valid(db) && id in db.requests
    ensures id < db.nextId
  {
  }

  lemma EarlierRowIsOver(db: Db, claimed: Id, earlier: Id)
    requires Valid(db) && claimed in db.requests && earlier in db.requests && earlier < claimed
    requires db.requests[claimed].status == Claimed && db.requests[earlier].Key() == db.requests[claimed].Key()
    ensures Over(db, earlier)
  {
    assert !Ahead(db, earlier, claimed);
  }

  // ----- when a claim is granted -----

  /** What the caller of claimIntegration can check beforehand. */
  ghost predicate Claimable(db: Db, id: Id, agent: Id, secret: Id, sourceOid: string, targetOid: string, ttl: int) {
    && id in db.requests
    && var row := db.requests[id];
    && row.status == Queued
    && FirstOfItsQueue(db, id)
    && agent in db.agents && db.agents[agent].registered && db.agents[agent].secret == secret
    && db.agents[agent].workspace in db.workspaces && db.workspaces[db.agents[agent].workspace] == row.repository
    && IsOid(sourceOid) && IsOid(targetOid) && sourceOid == row.sourceOid && targetOid == row.targetOid
    && |row.Key().Text()| <= 512 && 1 <= ttl <= 900
  }

  /** In every valid state a claim is granted exactly then; in particular "Lease is held"
      never refuses it and it never replaces an expired lease. */
  lemma ClaimIsGrantedExactlyWhenClaimable(db: Db, id: Id, agent: Id, secret: Id, sourceOid: string, targetOid: string,
                                           ttl: int, now: Millis)
    requires Valid(db)
    ensures ClaimTx(db, id, agent, secret, sourceOid, targetOid, ttl, now).reply.RequestReply?
            <==> Claimable(db, id, agent, secret, sourceOid, targetOid, ttl)
    ensures Claimable(db, id, agent, secret, sourceOid, targetOid, ttl) ==>
            LeaseOn(Recover(db, now), db.requests[id].Key()).None?
  {
    hide Valid, AcquireInTransaction, IsOid, Resource.Text, HasEarlier, LeaseOn, FirstOfItsQueue;
    var live := Recover(db, now);
    RecoverKeepsValid(db, now);
    if id in db.requests && live.requests[id].status == Queued {
      RecoveryKeepsFirst(db, now, id);
      FirstMeansNoneEarlier(live, id);
      if !HasEarlier(live, id) {
        ClaimGrants(live, id, agent, ttl, now);
        HeadTargetIsFree(live, id);
      }
    }
  }

  // ----- no queue is stuck for ever -----

  ghost predicate ExpiriesWithin(db: Db, limit: Millis) {
    forall lease :: lease in db.leases ==> db.leases[lease].expiresAt <= limit
  }

  /** With a clock that never goes back, no lease outlives its last grant or renewal, and
      so the present, by more than 900 seconds. */
  lemma {:induction false} ExpiriesAreNear(states: seq<Db>, steps: seq<Timed>, k: nat)
    requires IsRun(states, steps) && k < |steps|
    requires forall i, j :: 0 <= i <= j < |steps| ==> steps[i].now <= steps[j].now
    ensures ExpiriesWithin(states[k + 1], steps[k].now + MAX_LEASE_SECONDS * 1000)
  {
    hide Valid, Step, CounterMoves, RowsMove, AuthorityMoves;
    RunMoves(states, steps, k);
    if k > 0 {
      ExpiriesAreNear(states, steps, k - 1);
      assert steps[k - 1].now <= steps[k].now;
    }
  }

  ghost function EarlierRows(db: Db, id: Id): set<Id>
    requires id in db.requests
  {
    set other | other in db.requests && Ahead(db, other, id)
  }

  /** Play operations one after the other at time `now`. */
  ghost function Play(db: Db, now: Millis, ops: seq<Op>): Db
    decreases |ops|
  {
    if ops == [] then db else Play(Step(db, now, ops[0]).db, now, ops[1..])
  }

  ghost predicate NothingClaimed(db: Db) {
    forall id :: id in db.requests ==> db.requests[id].status != Claimed
  }

  /** The owner's cancel of an unclaimed request in front strictly shortens the queue. */
  lemma OwnerCancelShortens(db: Db, now: Millis, id: Id, other: Id)
    requires Valid(db) && NothingClaimed(db) && id in db.requests && Ahead(db, other, id)
    ensures var effect := Step(db, now, OwnerCancel(other));
            && effect.reply.RequestReply?
            && Valid(effect.db) && NothingClaimed(effect.db)
            && id in effect.db.requests && effect.db.requests[id] == db.requests[id]
            && EarlierRows(effect.db, id) == EarlierRows(db, id) - {other}
  {
    StepKeepsValid(db, now, OwnerCancel(other));
    WaitingHoldsNothing(db, other);
    CancelShape(db, now, id, other);
  }

  lemma CancelShape(db: Db, now: Millis, id: Id, other: Id)
    requires NothingClaimed(db) && id in db.requests && Ahead(db, other, id) && db.requests[other].lease.None?
    ensures var effect := Step(db, now, OwnerCancel(other));
            && effect.reply.RequestReply? && NothingClaimed(effect.db)
            && id in effect.db.requests && effect.db.requests[id] == db.requests[id]
            && EarlierRows(effect.db, id) == EarlierRows(db, id) - {other}
  {
    var after := Step(db, now, OwnerCancel(other)).db;
    assert forall one :: one != other ==> (Ahead(after, one, id) <==> Ahead(db, one, id));
  }

  lemma {:induction false} OwnerClearsQueue(db: Db, now: Millis, id: Id) returns (ops: seq<Op>)
    requires Valid(db) && NothingClaimed(db) && id in db.requests
    ensures |ops| == |EarlierRows(db, id)| && forall op :: op in ops ==> op.OwnerCancel?
    ensures var end := Play(db, now, ops);
            Valid(end) && id in end.requests && end.requests[id] == db.requests[id] && !HasEarlier(end, id)
    decreases |EarlierRows(db, id)|
  {
    hide Valid, Step;
    if other :| Ahead(db, other, id) {
      OwnerCancelShortens(db, now, id, other);
      assert other in EarlierRows(db, id);
      var rest := OwnerClearsQueue(Step(db, now, OwnerCancel(other)).db, now, id);
      ops := [OwnerCancel(other)] + rest;
      assert ops[1..] == rest;
    } else {
      assert EarlierRows(db, id) == {};
      ops := [];
    }
  }

  /** Once every expiry has passed, recovery and one owner-cancel for each request in
      front bring any queued request to the head, unchanged. */
  lemma NoQueueIsStuck(db: Db, now: Millis, id: Id) returns (ops: seq<Op>)
    requires Valid(db) && ExpiriesWithin(db, now) && id in db.requests && db.requests[id].status == Queued
    ensures |ops| == |EarlierRows(db, id)| + 1 && ops[0] == RecoverExpired
    ensures forall op :: op in ops[1..] ==> op.OwnerCancel?
    ensures var end := Play(db, now, ops);
            Valid(end) && id in end.requests && end.requests[id] == db.requests[id] && !HasEarlier(end, id)
  {
    hide Valid, HasEarlier;
    var live := Recover(db, now);
    RecoverKeepsValid(db, now);
    RecoveryFreesAll(db, now, id);
    var rest := OwnerClearsQueue(live, now, id);
    ops := [RecoverExpired] + rest;
    assert ops[1..] == rest;
  }

  /** In particular 900 seconds after the last step of any run with a clock that never goes back. */
  lemma NoQueueStaysStuck(states: seq<Db>, steps: seq<Timed>, k: nat, now: Millis, id: Id) returns (ops: seq<Op>)
    requires IsRun(states, steps) && k <= |steps| && id in states[k].requests && states[k].requests[id].status == Queued
    requires forall i, j :: 0 <= i <= j < |steps| ==> steps[i].now <= steps[j].now
    requires k > 0 ==> steps[k - 1].now + MAX_LEASE_SECONDS * 1000 <= now
    ensures |ops| == |EarlierRows(states[k], id)| + 1 && ops[0] == RecoverExpired
    ensures forall op :: op in ops[1..] ==> op.OwnerCancel?
    ensures var end := Play(states[k], now, ops);
            Valid(end) && id in end.requests && end.requests[id] == states[k].requests[id] && !HasEarlier(end, id)
  {
    hide Valid, HasEarlier, Step, Play;
    RunStaysValid(states, steps, k);
    assert k > 0;
    ExpiriesAreNear(states, steps, k - 1);
    ops := NoQueueIsStuck(states[k], now, id);
  }

  lemma RecoveryFreesAll(db: Db, now: Millis, id: Id)
    requires Valid(db) && ExpiriesWithin(db, now) && id in db.requests && db.requests[id].status == Queued
    ensures var live := Recover(db, now);
            NothingClaimed(live) && live.requests[id] == db.requests[id] && EarlierRows(live, id) == EarlierRows(db, id)
  {
    var live := Recover(db, now);
    assert forall other :: Ahead(live, other, id) <==> Ahead(db, other, id);
  }
}
