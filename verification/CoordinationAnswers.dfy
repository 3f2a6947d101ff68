/** What each operation on agents, leases and integration requests answers and writes, told from
    the tables alone: when it succeeds, what a success changes, and what a refusal means. */
module CoordinationAnswers {
  import opened Wrappers
  import opened CoordinationTables
  import opened CoordinationInvariants

  // ----- who may act, and with what -----

  /** A registered agent with its own session token. */
  predicate MayAct(db: Db, agent: Id, secret: Id) {
    agent in db.agents && db.agents[agent].registered && db.agents[agent].secret == secret
  }

  /** One whose workspace is known and belongs to the repository. */
  predicate ActsFor(db: Db, agent: Id, secret: Id, repository: string) {
    && MayAct(db, agent, secret)
    && db.agents[agent].workspace in db.workspaces && db.workspaces[db.agents[agent].workspace] == repository
  }

  /** The agent or its workspace is not in the tables. */
  predicate Unknown(db: Db, agent: Id) {
    agent !in db.agents || !db.agents[agent].registered || db.agents[agent].workspace !in db.workspaces
  }

  /** The agent is there, and the token is wrong or the repository another. */
  predicate Stranger(db: Db, agent: Id, secret: Id, repository: string) {
    && agent in db.agents && db.agents[agent].registered
    && (db.agents[agent].secret != secret
        || (db.agents[agent].workspace in db.workspaces && db.workspaces[db.agents[agent].workspace] != repository))
  }

  predicate OnRequests(op: Op) {
    op.Enqueue? || op.Claim? || op.RenewIntegration? || op.Refresh? || op.Complete? || op.Cancel?
  }

  /** Whoever is served on a request is a registered agent of its repository, with its own token. */
  lemma OnlyMembersAreServed(db: Db, now: Millis, op: Op)
    requires OnRequests(op) && Step(db, now, op).reply.RequestReply?
    ensures ActsFor(db, op.agent, op.secret, Step(db, now, op).reply.row.repository)
  {
    hide IsOid, AcquireInTransaction, HasEarlier, Resource.Text, MaxRowid;
  }

  /** An OID is 40 to 64 hexadecimal digits of either case. */
  lemma OidsAreHexadecimal(s: string)
    ensures IsOid(s) <==> 40 <= |s| <= 64 && forall i :: 0 <= i < |s| ==> s[i] in "0123456789abcdefABCDEF"
  {
    forall i | 0 <= i < |s| ensures IsHex(s[i]) <==> s[i] in "0123456789abcdefABCDEF" {
      HexDigits(s[i]);
    }
  }

  lemma HexDigits(c: char)
    ensures IsHex(c) <==> c in "0123456789abcdefABCDEF"
  {
    var digits := "0123456789abcdefABCDEF";
    if '0' <= c <= '9' {
      assert digits[c as int - '0' as int] == c;
    } else if 'a' <= c <= 'f' {
      assert digits[10 + c as int - 'a' as int] == c;
    } else if 'A' <= c <= 'F' {
      assert digits[16 + c as int - 'A' as int] == c;
    }
  }

  // ----- the queue -----

  /** An enqueued request is last of its queue, waits, and carries what the caller gave. */
  lemma EnqueueIsAnswered(db: Db, now: Millis, repository: string, target: string, sourceOid: string,
                          targetOid: string, agent: Id, secret: Id)
    ensures var effect := Step(db, now, Enqueue(repository, target, sourceOid, targetOid, agent, secret));
            && (effect.reply.RequestReply? <==>
                IsOid(sourceOid) && IsOid(targetOid) && ActsFor(db, agent, secret, repository))
            && (effect.reply.RequestReply? ==>
                  var id, row := effect.reply.request, effect.reply.row;
                  && id == db.nextId && effect.db == db.(requests := db.requests[id := row], nextId := id + 1)
                  && row.repository == repository && row.target == target
                  && row.sourceOid == sourceOid && row.targetOid == targetOid
                  && row.status == Queued && row.requestedBy == agent && row.updatedAt == now
                  && row.claimedBy.None? && row.lease.None? && row.completedAt.None?
                  && forall other :: other in db.requests ==> db.requests[other].rowid < row.rowid)
            && (!effect.reply.RequestReply? ==> effect.db == db && effect.reply.Err?)
            && (effect.reply == Err(InvalidInput) <==> !IsOid(sourceOid) || !IsOid(targetOid))
            && (effect.reply == Err(NotFound) ==> Unknown(db, agent))
            && (effect.reply == Err(Forbidden) ==> Stranger(db, agent, secret, repository))
            && effect.reply != Err(Conflict) && effect.reply != Err(Expired)
  {
    hide IsOid, MaxRowid;
    assert IsMaxRowid(db.requests, MaxRowid(db.requests));
  }

  /** The request is claimed by the agent and its lease lives. */
  predicate LiveClaim(db: Db, now: Millis, id: Id, agent: Id) {
    && id in db.requests && db.requests[id].status == Claimed && db.requests[id].claimedBy == Some(agent)
    && db.requests[id].lease.Some? && db.requests[id].lease.value in db.leases
    && db.leases[db.requests[id].lease.value].expiresAt > now
  }

  /** Every earlier request on the same target of the same repository is finished. */
  ghost predicate FirstOfItsQueue(db: Db, id: Id)
    requires id in db.requests
  {
    forall other :: other in db.requests && db.requests[other].rowid < db.requests[id].rowid
                    && db.requests[other].repository == db.requests[id].repository
                    && db.requests[other].target == db.requests[id].target ==>
                      db.requests[other].status in {Completed, Failed, Cancelled}
  }

  lemma FirstMeansNoneEarlier(db: Db, id: Id)
    requires id in db.requests
    ensures FirstOfItsQueue(db, id) <==> !HasEarlier(db, id)
  {
    if !HasEarlier(db, id) {
      forall other | other in db.requests && db.requests[other].rowid < db.requests[id].rowid
                     && db.requests[other].repository == db.requests[id].repository
                     && db.requests[other].target == db.requests[id].target
        ensures db.requests[other].status in {Completed, Failed, Cancelled}
      {
        assert !Ahead(db, other, id);
      }
    }
  }

  /** Recovery frees no place in a queue. */
  lemma RecoveryKeepsFirst(db: Db, now: Millis, id: Id)
    requires id in db.requests
    ensures FirstOfItsQueue(Recover(db, now), id) <==> FirstOfItsQueue(db, id)
  {
    var live := Recover(db, now);
    forall other | other in db.requests
      ensures other in live.requests && live.requests[other].rowid == db.requests[other].rowid
      ensures live.requests[other].Key() == db.requests[other].Key()
      ensures live.requests[other].status in {Completed, Failed, Cancelled} <==>
              db.requests[other].status in {Completed, Failed, Cancelled}
    {
    }
  }

  /** The request waits for its claim, and the claimant found other commits than it names. */
  predicate Moved(db: Db, id: Id, agent: Id, secret: Id, sourceOid: string, targetOid: string) {
    && id in db.requests && db.requests[id].status == Queued
    && ActsFor(db, agent, secret, db.requests[id].repository) && IsOid(sourceOid) && IsOid(targetOid)
    && (db.requests[id].sourceOid != sourceOid || db.requests[id].targetOid != targetOid)
  }

  /** A granted claim takes a fresh lease on the target, for the time asked for, and names it in the
      row; nothing else happens but recovery. */
  lemma ClaimWrites(db: Db, now: Millis, id: Id, agent: Id, secret: Id, sourceOid: string, targetOid: string, ttl: int)
    requires Valid(db)
    requires Step(db, now, Claim(id, agent, secret, sourceOid, targetOid, ttl)).reply.RequestReply?
    ensures var effect := Step(db, now, Claim(id, agent, secret, sourceOid, targetOid, ttl));
            var live, key := Recover(db, now), db.requests[id].Key();
            var token := if key in db.counters then db.counters[key] else 1;
            var row := db.requests[id].(status := Claimed, claimedBy := Some(agent), lease := Some(db.nextId),
                                        updatedAt := now);
            && effect.reply == RequestReply(id, row)
            && effect.db == live.(
                              requests := live.requests[id := row], nextId := db.nextId + 1,
                              counters := db.counters[key := token + 1],
                              leases := live.leases[db.nextId := Lease(key, agent, token, now, now + ttl * 1000)])
  {
    hide Valid, AcquireInTransaction, IsOid, HasEarlier, Resource.Text, RepositoryError;
    RecoverKeepsValid(db, now);
    ClaimGrants(Recover(db, now), id, agent, ttl, now);
  }

  /** A claim that is refused writes nothing, except that a queued request whose commits moved is
      sent back to be refreshed, and then expired leases are recovered too. */
  lemma RefusedClaims(db: Db, now: Millis, id: Id, agent: Id, secret: Id, sourceOid: string, targetOid: string,
                      ttl: int)
    requires Valid(db)
    requires !Step(db, now, Claim(id, agent, secret, sourceOid, targetOid, ttl)).reply.RequestReply?
    ensures var effect := Step(db, now, Claim(id, agent, secret, sourceOid, targetOid, ttl));
            var live := Recover(db, now);
            && effect.reply.Err?
            && (if Moved(db, id, agent, secret, sourceOid, targetOid) then
                  && effect.reply == Err(Conflict)
                  && effect.db == live.(requests := live.requests[
                       id := db.requests[id].(status := NeedsRefresh, updatedAt := now)])
                else effect.db == db)
            && (effect.reply == Err(NotFound) ==> id !in db.requests || Unknown(db, agent))
            && (effect.reply == Err(Forbidden) ==>
                  id in db.requests && Stranger(db, agent, secret, db.requests[id].repository))
            && (effect.reply == Err(InvalidInput) ==>
                  && id in db.requests && db.requests[id].status == Queued
                  && (!IsOid(sourceOid) || !IsOid(targetOid) || !(1 <= ttl <= 900)
                      || |db.requests[id].Key().Text()| > 512))
            && (effect.reply == Err(Conflict) ==>
                  && id in db.requests && ActsFor(db, agent, secret, db.requests[id].repository)
                  && (db.requests[id].status != Queued || !FirstOfItsQueue(db, id)
                      || Moved(db, id, agent, secret, sourceOid, targetOid)))
            && effect.reply != Err(Expired)
  {
    hide Valid, AcquireInTransaction, IsOid, HasEarlier, Resource.Text, FirstOfItsQueue;
    var live := Recover(db, now);
    RecoverKeepsValid(db, now);
    if id in db.requests {
      FirstMeansNoneEarlier(live, id);
      RecoveryKeepsFirst(db, now, id);
      if db.requests[id].status == Queued && !HasEarlier(live, id) { ClaimGrants(live, id, agent, ttl, now); }
    }
  }

  /** Renewing extends the claim's lease and nothing else. */
  lemma RenewalIsAnswered(db: Db, now: Millis, id: Id, agent: Id, secret: Id, ttl: int)
    requires Valid(db)
    ensures var effect := Step(db, now, RenewIntegration(id, agent, secret, ttl));
            && (effect.reply.RequestReply? <==>
                && 1 <= ttl <= 900 && LiveClaim(db, now, id, agent)
                && ActsFor(db, agent, secret, db.requests[id].repository))
            && (effect.reply.RequestReply? ==>
                  var live, lease := Recover(db, now), db.requests[id].lease.value;
                  var row := db.requests[id].(updatedAt := now);
                  && effect.reply == RequestReply(id, row)
                  && effect.db == live.(requests := live.requests[id := row], leases := live.leases[
                       lease := db.leases[lease].(expiresAt := now + ttl * 1000)]))
            && (!effect.reply.RequestReply? ==> effect.db == db && effect.reply.Err?)
            && (effect.reply == Err(InvalidInput) <==> !(1 <= ttl <= 900))
            && (effect.reply == Err(NotFound) ==> id !in db.requests || Unknown(db, agent))
            && (effect.reply == Err(Forbidden) ==>
                  && id in db.requests
                  && (Stranger(db, agent, secret, db.requests[id].repository) || !LiveClaim(db, now, id, agent)))
            && effect.reply != Err(Conflict) && effect.reply != Err(Expired)
  {
    hide Valid, Resource.Text;
    RecoverKeepsValid(db, now);
    if id in db.requests && db.requests[id].status == Claimed {
      LeaseOfClaim(db, id);
      var live := Recover(db, now);
      if live.requests[id].status == Claimed { LeaseOfClaim(live, id); }
    }
  }

  /** Refreshing stores the commits the caller saw and queues the request again, at its old place. */
  lemma RefreshIsAnswered(db: Db, now: Millis, id: Id, agent: Id, secret: Id, sourceOid: string, targetOid: string)
    requires Valid(db)
    ensures var effect := Step(db, now, Refresh(id, agent, secret, sourceOid, targetOid));
            && (effect.reply.RequestReply? <==>
                && IsOid(sourceOid) && IsOid(targetOid) && id in db.requests
                && (db.requests[id].status == Queued || db.requests[id].status == NeedsRefresh)
                && db.requests[id].requestedBy == agent && ActsFor(db, agent, secret, db.requests[id].repository))
            && (effect.reply.RequestReply? ==>
                  var row := effect.reply.row;
                  && effect == Effect(db.(requests := db.requests[id := row]), RequestReply(id, row))
                  && row.sourceOid == sourceOid && row.targetOid == targetOid && row.status == Queued
                  && row == db.requests[id].(sourceOid := row.sourceOid, targetOid := row.targetOid,
                                             status := row.status, updatedAt := now))
            && (!effect.reply.RequestReply? ==> effect.db == db && effect.reply.Err?)
            && (effect.reply == Err(InvalidInput) <==> !IsOid(sourceOid) || !IsOid(targetOid))
            && (effect.reply == Err(NotFound) ==> id !in db.requests || Unknown(db, agent))
            && (effect.reply == Err(Forbidden) ==>
                  && id in db.requests
                  && (Stranger(db, agent, secret, db.requests[id].repository)
                      || (db.requests[id].requestedBy != agent && db.requests[id].claimedBy != Some(agent))))
            && (effect.reply == Err(Conflict) ==>
                  && id in db.requests && ActsFor(db, agent, secret, db.requests[id].repository)
                  && db.requests[id].status != Queued && db.requests[id].status != NeedsRefresh)
            && effect.reply != Err(Expired)
  {
    hide Valid, IsOid;
    if id in db.requests && (db.requests[id].status == Queued || db.requests[id].status == NeedsRefresh) {
      WaitingHoldsNothing(db, id);
    }
  }

  /** An outcome comes with the commit it left on the target, unless nothing was done. */
  predicate OutcomeIsComplete(outcome: CompletionOutcome, postTargetOid: Option<string>) {
    match postTargetOid
    case None => outcome == CancelledOutcome
    case Some(oid) => if oid == "" then outcome == CancelledOutcome else IsOid(oid)
  }

  /** A completion is accepted exactly from the claimant while its lease lives; it ends the lease
      and stores what the outcome means. */
  lemma CompletionIsAnswered(db: Db, now: Millis, id: Id, agent: Id, secret: Id, outcome: CompletionOutcome,
                             postTargetOid: Option<string>)
    requires Valid(db)
    ensures var effect := Step(db, now, Complete(id, agent, secret, outcome, postTargetOid));
            && (effect.reply.RequestReply? <==>
                && OutcomeIsComplete(outcome, postTargetOid) && LiveClaim(db, now, id, agent)
                && ActsFor(db, agent, secret, db.requests[id].repository))
            && (effect.reply.RequestReply? ==>
                  var row := effect.reply.row;
                  && effect.reply.request == id
                  && effect.db == db.(requests := db.requests[id := row],
                                      leases := db.leases - {db.requests[id].lease.value})
                  && row == db.requests[id].(status := row.status, completedAt := Some(now), updatedAt := now)
                  && (row.status == Completed <==> outcome in {Merged, Rebased, Squashed})
                  && (row.status == Failed <==> outcome == FailedOutcome)
                  && (row.status == Cancelled <==> outcome == CancelledOutcome))
            && (!effect.reply.RequestReply? ==> effect.db == db && effect.reply.Err?)
  {
    hide Valid, IsOid;
    if id in db.requests && db.requests[id].status == Claimed { LeaseOfClaim(db, id); }
  }

  lemma CompletionRefusals(db: Db, now: Millis, id: Id, agent: Id, secret: Id, outcome: CompletionOutcome,
                           postTargetOid: Option<string>)
    requires Valid(db)
    ensures var effect := Step(db, now, Complete(id, agent, secret, outcome, postTargetOid));
            && (effect.reply == Err(InvalidInput) <==> !OutcomeIsComplete(outcome, postTargetOid))
            && (effect.reply == Err(NotFound) ==> id !in db.requests || Unknown(db, agent))
            && (effect.reply == Err(Forbidden) ==>
                  && id in db.requests
                  && (Stranger(db, agent, secret, db.requests[id].repository) || !ClaimedBy(db.requests[id], agent)))
            && (effect.reply == Err(Expired) ==>
                  && id in db.requests && ActsFor(db, agent, secret, db.requests[id].repository)
                  && ClaimedBy(db.requests[id], agent) && !LiveClaim(db, now, id, agent))
            && effect.reply != Err(Conflict)
  {
    hide Valid, IsOid;
    if id in db.requests && db.requests[id].status == Claimed { LeaseOfClaim(db, id); }
  }

  /** Finished requests are nobody's to cancel, and any member's to ask for. */
  predicate MayCancel(row: Request, agent: Id) {
    match row.status
    case Claimed => row.claimedBy == Some(agent)
    case Queued => row.requestedBy == agent
    case NeedsRefresh => row.requestedBy == agent
    case _ => true
  }

  /** A cancel is served to the claimant of a claimed request and to the requester of a waiting one;
      cancelling a finished request answers it as it is. */
  lemma CancelIsAnswered(db: Db, now: Millis, id: Id, agent: Id, secret: Id)
    requires Valid(db)
    ensures var effect := Step(db, now, Cancel(id, agent, secret));
            && (effect.reply.RequestReply? <==>
                && id in db.requests && ActsFor(db, agent, secret, db.requests[id].repository)
                && MayCancel(db.requests[id], agent))
            && (effect.reply.RequestReply? ==>
                  var row := db.requests[id];
                  effect ==
                  if row.status in {Completed, Failed, Cancelled} then Effect(db, RequestReply(id, row))
                  else
                    var cancelled := row.(status := Cancelled, completedAt := Some(now), updatedAt := now);
                    var leases := if row.status == Claimed then db.leases - {row.lease.value} else db.leases;
                    Effect(db.(requests := db.requests[id := cancelled], leases := leases),
                           RequestReply(id, cancelled)))
            && (!effect.reply.RequestReply? ==> effect.db == db && effect.reply.Err?)
            && (effect.reply == Err(NotFound) ==> id !in db.requests || Unknown(db, agent))
            && (effect.reply == Err(Forbidden) ==>
                  && id in db.requests
                  && (Stranger(db, agent, secret, db.requests[id].repository) || !MayCancel(db.requests[id], agent)))
            && effect.reply != Err(InvalidInput) && effect.reply != Err(Conflict) && effect.reply != Err(Expired)
  {
    hide Valid;
    if id in db.requests {
      if db.requests[id].status == Claimed {
        LeaseOfClaim(db, id);
      } else if db.requests[id].status.Active() {
        WaitingHoldsNothing(db, id);
      }
    }
  }

  /** The owner cancels whatever is not claimed. */
  lemma OwnerCancelIsAnswered(db: Db, now: Millis, id: Id)
    requires Valid(db)
    ensures var effect := Step(db, now, OwnerCancel(id));
            if id !in db.requests then effect == Effect(db, Err(NotFound))
            else
              var row := db.requests[id];
              var cancelled := row.(status := Cancelled, completedAt := Some(now), updatedAt := now);
              match row.status
              case Claimed => effect == Effect(db, Err(Conflict))
              case Queued =>
                effect == Effect(db.(requests := db.requests[id := cancelled]), RequestReply(id, cancelled))
              case NeedsRefresh =>
                effect == Effect(db.(requests := db.requests[id := cancelled]), RequestReply(id, cancelled))
              case _ => effect == Effect(db, RequestReply(id, row))
  {
    hide Valid;
    if id in db.requests && db.requests[id].status.Active() && db.requests[id].status != Claimed {
      WaitingHoldsNothing(db, id);
    }
  }

  // ----- leases under a name -----

  /** The name is held by another agent. */
  ghost predicate HeldByAnother(db: Db, now: Millis, name: string, agent: Id) {
    exists lease ::
      Holds(db, lease, Named(name)) && db.leases[lease].expiresAt > now && db.leases[lease].holder != agent
  }

  /** A name is leased unless another agent holds it; an agent that holds it keeps its lease and
      token, and only the expiry moves. */
  lemma AcquisitionIsAnswered(db: Db, now: Millis, name: string, agent: Id, secret: Id, ttl: int)
    requires Valid(db)
    ensures var effect := Step(db, now, AcquireLease(name, agent, secret, ttl));
            && (effect.reply.LeaseReply? <==>
                && 0 < |name| <= 512 && !("git:" <= name) && 1 <= ttl <= 900 && MayAct(db, agent, secret)
                && !HeldByAnother(db, now, name, agent))
            && (effect.reply.LeaseReply? ==>
                  var live, id, lease := Recover(db, now), effect.reply.id, effect.reply.lease;
                  var token := if Named(name) in db.counters then db.counters[Named(name)] else 1;
                  if Holds(live, id, Named(name)) then
                    && effect.db == live.(leases := live.leases[id := lease])
                    && lease == live.leases[id].(expiresAt := now + ttl * 1000)
                  else
                    && (forall other :: !Holds(live, other, Named(name)))
                    && id == db.nextId && lease == Lease(Named(name), agent, token, now, now + ttl * 1000)
                    && effect.db == live.(leases := live.leases[id := lease], nextId := id + 1,
                                          counters := db.counters[Named(name) := token + 1]))
            && (!effect.reply.LeaseReply? ==> effect.db == db && effect.reply.Err?)
  {
    hide Valid, AcquireInTransaction, LeaseOn, Resource.Text;
    RecoverKeepsValid(db, now);
    OneLeaseOnly(Recover(db, now));
    NamedAcquisition(Recover(db, now), now, name, agent, ttl);
    HeldAfterRecovery(db, now, name, agent);
  }

  lemma AcquisitionRefusals(db: Db, now: Millis, name: string, agent: Id, secret: Id, ttl: int)
    requires Valid(db)
    ensures var effect := Step(db, now, AcquireLease(name, agent, secret, ttl));
            && (effect.reply == Err(InvalidInput) ==> !(0 < |name| <= 512) || "git:" <= name || !(1 <= ttl <= 900))
            && (effect.reply == Err(NotFound) ==> agent !in db.agents || !db.agents[agent].registered)
            && (effect.reply == Err(Forbidden) ==> agent in db.agents && db.agents[agent].secret != secret)
            && (effect.reply == Err(Conflict) ==> HeldByAnother(db, now, name, agent) && MayAct(db, agent, secret))
            && effect.reply != Err(Expired)
  {
    hide Valid, AcquireInTransaction, LeaseOn, Resource.Text;
    RecoverKeepsValid(db, now);
    OneLeaseOnly(Recover(db, now));
    NamedAcquisition(Recover(db, now), now, name, agent, ttl);
    HeldAfterRecovery(db, now, name, agent);
  }

  lemma HeldAfterRecovery(db: Db, now: Millis, name: string, agent: Id)
    ensures var live := Recover(db, now);
            HeldByAnother(db, now, name, agent) <==>
            exists lease :: Holds(live, lease, Named(name)) && live.leases[lease].holder != agent
  {
    var live := Recover(db, now);
    if lease :| Holds(db, lease, Named(name)) && db.leases[lease].expiresAt > now && db.leases[lease].holder != agent {
      assert Holds(live, lease, Named(name));
    }
    if lease :| Holds(live, lease, Named(name)) && live.leases[lease].holder != agent {
      assert Holds(db, lease, Named(name));
    }
  }

  /** What acquireLeaseInTransaction does for a name once expired leases are gone. */
  lemma NamedAcquisition(db: Db, now: Millis, name: string, agent: Id, ttl: int)
    requires OneLeasePerResource(db) && forall lease :: lease in db.leases ==> db.leases[lease].expiresAt > now
    ensures var granted := AcquireInTransaction(db, Named(name), agent, ttl, true, now);
            var held := exists lease :: Holds(db, lease, Named(name)) && db.leases[lease].holder != agent;
            var token := if Named(name) in db.counters then db.counters[Named(name)] else 1;
            if !(0 < |name| <= 512) || !(1 <= ttl <= 900) then granted.reply == Err(InvalidInput)
            else if agent !in db.agents || !db.agents[agent].registered then granted.reply == Err(NotFound)
            else if held then granted.reply == Err(Conflict)
            else
              && granted.reply.LeaseReply?
              && var id, lease := granted.reply.id, granted.reply.lease;
              if Holds(db, id, Named(name)) then
                && granted.db == db.(leases := db.leases[id := lease])
                && lease == db.leases[id].(expiresAt := now + ttl * 1000)
              else
                && (forall other :: !Holds(db, other, Named(name)))
                && id == db.nextId && lease == Lease(Named(name), agent, token, now, now + ttl * 1000)
                && granted.db == db.(leases := db.leases[id := lease], nextId := id + 1,
                                     counters := db.counters[Named(name) := token + 1])
  {
    var existing := LeaseOn(db, Named(name));
    if existing.Some? { assert Holds(db, existing.value, Named(name)); }
  }

  lemma OneLeaseOnly(db: Db)
    requires Valid(db)
    ensures OneLeasePerResource(db)
  {
  }

  /** A named lease is renewed or released by its holder; an expired one can only be released. */
  lemma HoldersKeepTheirLeases(db: Db, now: Millis, lease: Id, agent: Id, secret: Id, ttl: int)
    requires Valid(db)
    ensures var held := && MayAct(db, agent, secret) && lease in db.leases && db.leases[lease].holder == agent
                        && db.leases[lease].resource.Named?;
            var renewal, release :=
              Step(db, now, RenewLease(lease, agent, secret, ttl)), Step(db, now, ReleaseLease(lease, agent, secret));
            && (renewal.reply.LeaseReply? <==> held && 1 <= ttl <= 900 && db.leases[lease].expiresAt > now)
            && (renewal.reply.LeaseReply? ==>
                  var renewed := db.leases[lease].(expiresAt := now + ttl * 1000);
                  renewal == Effect(db.(leases := db.leases[lease := renewed]), LeaseReply(lease, renewed)))
            && (!renewal.reply.LeaseReply? ==> renewal.db == db && renewal.reply.Err?)
            && (renewal.reply == Err(Expired) <==> held && 1 <= ttl <= 900 && db.leases[lease].expiresAt <= now)
            && (release.reply == Done <==> held)
            && release.db == (if held then db.(leases := db.leases - {lease}) else db)
            && (!held ==> release.reply.Err? && release.reply != Err(Conflict) && release.reply != Err(Expired))
  {
    hide Resource.Text, ClaimsAreBacked, TargetLeasesAreClaims, FinishedRowsHoldNothing, TokensMatchCounters;
    if lease in db.leases { ReservedAreTargets(db, lease); }
  }

  lemma HolderRefusals(db: Db, now: Millis, lease: Id, agent: Id, secret: Id, ttl: int)
    requires Valid(db)
    ensures var renewal, release :=
              Step(db, now, RenewLease(lease, agent, secret, ttl)), Step(db, now, ReleaseLease(lease, agent, secret));
            var internal := lease in db.leases && db.leases[lease].resource.Target?;
            var gone := agent !in db.agents || !db.agents[agent].registered || lease !in db.leases;
            var other := && agent in db.agents && db.agents[agent].registered
                         && (db.agents[agent].secret != secret
                             || (lease in db.leases && db.leases[lease].holder != agent));
            && (renewal.reply == Err(InvalidInput) ==> !(1 <= ttl <= 900) || internal)
            && (release.reply == Err(InvalidInput) ==> internal)
            && (renewal.reply == Err(NotFound) || release.reply == Err(NotFound) ==> gone)
            && (renewal.reply == Err(Forbidden) || release.reply == Err(Forbidden) ==> other)
            && renewal.reply != Err(Conflict) && release.reply != Err(Conflict) && release.reply != Err(Expired)
  {
    hide Resource.Text, ClaimsAreBacked, TargetLeasesAreClaims, FinishedRowsHoldNothing, TokensMatchCounters;
    if lease in db.leases { ReservedAreTargets(db, lease); }
  }

  lemma ReservedAreTargets(db: Db, lease: Id)
    requires Valid(db) && lease in db.leases
    ensures Reserved(db.leases[lease].resource.Text()) <==> db.leases[lease].resource.Target?
  {
    if db.leases[lease].resource.Target? { TargetTextIsReserved(db.leases[lease].resource); }
  }

  // ----- agents -----

  /** A session that is new in its workspace becomes a new agent; one that is known is resumed with
      its token, which is replaced. */
  lemma RegistrationIsAnswered(db: Db, now: Millis, session: string, worktree: string, repository: string,
                               presented: Option<Id>, known: Option<Id>)
    requires forall id: Id :: HasSession(db, id, session, worktree) <==> known == Some(id)
    ensures var effect := Step(db, now, Register(session, worktree, repository, presented));
            var drawn := db.nextId;
            if known.None? then
              && effect.reply == AgentReply(drawn + 1, drawn)
              && effect.db == db.(
                                workspaces := db.workspaces[worktree := repository], nextId := drawn + 2,
                                agents := db.agents[drawn + 1 := Agent(session, worktree, drawn, true, now)])
            else if presented == Some(db.agents[known.value].secret) then
              var agent := Agent(session, worktree, drawn, true, now);
              && effect.reply == AgentReply(known.value, drawn)
              && effect.db == db.(workspaces := db.workspaces[worktree := repository], nextId := drawn + 1,
                                  agents := db.agents[known.value := agent])
            else effect == Effect(db, Err(Forbidden))
  {
    if known.Some? { assert HasSession(db, known.value, session, worktree); }
    var owner := SessionOwner(db, session, worktree);
    if owner.Some? { assert HasSession(db, owner.value, session, worktree); }
  }

  lemma HeartbeatIsAnswered(db: Db, now: Millis, agent: Id, secret: Id, worktree: string, repository: string)
    ensures var effect := Step(db, now, Heartbeat(agent, secret, worktree, repository));
            && (effect.reply == Done <==> MayAct(db, agent, secret) && db.agents[agent].workspace == worktree)
            && (effect.reply == Done ==>
                  effect.db == db.(workspaces := db.workspaces[worktree := repository],
                                   agents := db.agents[agent := db.agents[agent].(lastHeartbeat := now)]))
            && (effect.reply != Done ==> effect.db == db)
            && (effect.reply == Err(NotFound) <==> agent !in db.agents || !db.agents[agent].registered)
            && (effect.reply == Err(Forbidden) <==>
                && agent in db.agents && db.agents[agent].registered
                && (db.agents[agent].secret != secret || db.agents[agent].workspace != worktree))
  {
  }

  /** An agent that leaves takes its leases with it, and sends its claims back to be refreshed. */
  lemma UnregisterIsAnswered(db: Db, now: Millis, agent: Id, secret: Id)
    requires Valid(db)
    ensures var effect := Step(db, now, Unregister(agent, secret));
            && (effect.reply == Done <==> agent in db.agents && db.agents[agent].secret == secret)
            && (effect.reply == Done ==>
                  && effect.db == db.(agents := effect.db.agents, leases := effect.db.leases,
                                      requests := effect.db.requests)
                  && effect.db.agents == db.agents[agent := db.agents[agent].(registered := false)]
                  && effect.db.leases == (map id | id in db.leases && db.leases[id].holder != agent :: db.leases[id])
                  && effect.db.requests.Keys == db.requests.Keys
                  && forall id :: id in db.requests ==>
                       effect.db.requests[id] ==
                       var row := db.requests[id];
                       if row.status == Claimed && row.claimedBy == Some(agent)
                       then row.(status := NeedsRefresh, claimedBy := None, lease := None, updatedAt := now) else row)
            && (effect.reply != Done ==> effect.db == db)
            && (effect.reply == Err(NotFound) <==> agent !in db.agents)
            && (effect.reply == Err(Forbidden) <==> agent in db.agents && db.agents[agent].secret != secret)
  {
    hide TokensMatchCounters, FinishedRowsHoldNothing, RowidsFollowArrival, ClaimsAreHeads;
    if agent in db.agents {
      forall lease | BacksClaimOf(db, lease, agent) ensures lease in db.leases && db.leases[lease].holder == agent {}
      if !db.agents[agent].registered { GoneHoldNothing(db, agent); }
    }
  }

  lemma GoneHoldNothing(db: Db, agent: Id)
    requires Valid(db) && agent in db.agents && !db.agents[agent].registered
    ensures forall id :: id in db.leases ==> db.leases[id].holder != agent
    ensures forall id :: id in db.requests && db.requests[id].status == Claimed ==>
              db.requests[id].claimedBy != Some(agent)
    ensures db.agents[agent := db.agents[agent].(registered := false)] == db.agents
  {
    forall id | id in db.requests && db.requests[id].status == Claimed
      ensures db.requests[id].claimedBy != Some(agent)
    {
      LeaseOfClaim(db, id);
    }
  }

  // ----- recovery and maintenance -----

  /** Recovery drops the leases that have expired and takes their claims back; nothing else. */
  lemma RecoveryIsExact(db: Db, now: Millis)
    requires Valid(db)
    ensures var after := Step(db, now, RecoverExpired).db;
            && after == db.(leases := after.leases, requests := after.requests)
            && after.leases == (map id | id in db.leases && db.leases[id].expiresAt > now :: db.leases[id])
            && after.requests.Keys == db.requests.Keys
            && forall id :: id in db.requests ==>
                 after.requests[id] ==
                 var row := db.requests[id];
                 if row.status == Claimed && !LiveClaim(db, now, id, row.claimedBy.value)
                 then row.(status := NeedsRefresh, claimedBy := None, lease := None, updatedAt := now) else row
  {
    hide TokensMatchCounters, FinishedRowsHoldNothing, RowidsFollowArrival, ClaimsAreHeads;
  }

  /** The agent has not been heard of since the cutoff, and no lease of it lives. */
  ghost predicate Stale(db: Db, now: Millis, agent: Id, staleBefore: Millis) {
    && agent in db.agents && db.agents[agent].lastHeartbeat < staleBefore
    && forall lease :: lease in db.leases && db.leases[lease].holder == agent ==> db.leases[lease].expiresAt <= now
  }

  /** The request was finished before the cutoff. */
  predicate FinishedBefore(row: Request, cutoff: Millis) {
    row.status in {Completed, Failed, Cancelled} && row.completedAt.Some? && row.completedAt.value < cutoff
  }

  /** Applied maintenance recovers, takes stale agents offline and deletes requests finished before
      their cutoff, and nothing else; a preview and a cutoff that is not past change nothing. */
  lemma MaintenanceIsExact(db: Db, now: Millis, staleBefore: Millis, terminalBefore: Millis, apply: bool)
    requires Valid(db)
    ensures var effect := Step(db, now, Maintain(staleBefore, terminalBefore, apply));
            var live := Recover(db, now);
            if staleBefore >= now || terminalBefore >= now then effect == Effect(db, Err(InvalidInput))
            else if !apply then effect == Effect(db, Done)
            else
              && effect.reply == Done
              && effect.db == live.(agents := effect.db.agents, requests := effect.db.requests)
              && effect.db.agents.Keys == db.agents.Keys
              && (forall agent :: agent in db.agents ==>
                    effect.db.agents[agent] == if Stale(db, now, agent, staleBefore)
                                               then db.agents[agent].(registered := false) else db.agents[agent])
              && (forall id :: id in effect.db.requests <==>
                    id in db.requests && !FinishedBefore(db.requests[id], terminalBefore))
              && (forall id :: id in effect.db.requests ==> effect.db.requests[id] == live.requests[id])
  {
    hide Valid, MaintainTx, Recover;
    if apply && staleBefore < now && terminalBefore < now {
      var live := Recover(db, now);
      RecoverKeepsValid(db, now);
      AgentsGoOffline(db, now, staleBefore, terminalBefore);
      forall id | id in db.requests
        ensures id in live.requests
        ensures Prunable(live, live.requests[id], terminalBefore) <==> FinishedBefore(db.requests[id], terminalBefore)
      {
        PrunedAreFinished(db, now, id, terminalBefore);
      }
      MaintainedRequests(db, now, staleBefore, terminalBefore);
    } else {
      NotMaintained(db, now, staleBefore, terminalBefore, apply);
    }
  }

  lemma NotMaintained(db: Db, now: Millis, staleBefore: Millis, terminalBefore: Millis, apply: bool)
    requires !apply || staleBefore >= now || terminalBefore >= now
    ensures MaintainTx(db, staleBefore, terminalBefore, apply, now) ==
            Effect(db, if staleBefore >= now || terminalBefore >= now then Err(InvalidInput) else Done)
  {
  }

  lemma MaintainedRequests(db: Db, now: Millis, staleBefore: Millis, terminalBefore: Millis)
    requires staleBefore < now && terminalBefore < now
    ensures var effect, live := MaintainTx(db, staleBefore, terminalBefore, true, now), Recover(db, now);
            && effect.reply == Done
            && effect.db == live.(agents := effect.db.agents, requests := effect.db.requests)
            && live.requests.Keys == db.requests.Keys
            && (forall id :: id in effect.db.requests <==>
                  id in live.requests && !Prunable(live, live.requests[id], terminalBefore))
            && (forall id :: id in effect.db.requests ==> effect.db.requests[id] == live.requests[id])
  {
    hide Prunable, GoesOffline;
  }

  lemma PrunedAreFinished(db: Db, now: Millis, id: Id, terminalBefore: Millis)
    requires Valid(db) && id in db.requests
    ensures var live := Recover(db, now);
            && id in live.requests
            && (Prunable(live, live.requests[id], terminalBefore) <==> FinishedBefore(db.requests[id], terminalBefore))
  {
    hide TokensMatchCounters, TargetLeasesAreClaims, RowidsFollowArrival, ClaimsAreHeads, OneLeasePerResource;
  }

  lemma AgentsGoOffline(db: Db, now: Millis, staleBefore: Millis, terminalBefore: Millis)
    requires Valid(db) && staleBefore < now && terminalBefore < now
    ensures var after := MaintainTx(db, staleBefore, terminalBefore, true, now).db.agents;
            && after.Keys == db.agents.Keys
            && forall agent :: agent in db.agents ==>
                 after[agent] == if Stale(db, now, agent, staleBefore)
                                 then db.agents[agent].(registered := false) else db.agents[agent]
  {
    hide Valid, GoesOffline, Stale, Prunable;
    forall agent | agent in db.agents
      ensures GoesOffline(Recover(db, now), agent, staleBefore) <==>
              db.agents[agent].registered && Stale(db, now, agent, staleBefore)
    {
      OfflineIsStale(db, now, agent, staleBefore);
    }
    forall agent | agent in db.agents && !db.agents[agent].registered
      ensures db.agents[agent].(registered := false) == db.agents[agent]
    {
    }
  }

  lemma OfflineIsStale(db: Db, now: Millis, agent: Id, staleBefore: Millis)
    requires Valid(db) && agent in db.agents
    ensures GoesOffline(Recover(db, now), agent, staleBefore) <==>
            db.agents[agent].registered && Stale(db, now, agent, staleBefore)
  {
    hide Valid;
    var live := Recover(db, now);
    RecoverKeepsValid(db, now);
    forall id | id in live.requests && ClaimedBy(live.requests[id], agent)
      ensures exists lease :: lease in live.leases && live.leases[lease].holder == agent
    {
      LeaseOfClaim(live, id);
      assert live.requests[id].lease.value in live.leases;
    }
    if lease :| lease in db.leases && db.leases[lease].holder == agent && db.leases[lease].expiresAt > now {
      assert lease in live.leases && live.leases[lease].holder == agent;
    }
  }
}
