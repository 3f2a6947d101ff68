# AgentConduit coordination: a verified model

AgentConduit lets coding agents on several machines share repositories through one
coordination store. This project models the parts of it that have to be right under
concurrency, and proves what they promise.

* **Leases and the integration queue** (`CoordinationTables`, `CoordinationInvariants`,
  `CoordinationSteps`, `CoordinationRuns`, `CoordinationAnswers`, `CoordinationStore`). The store's
  tables are maps;
  every public operation is one transaction, written as a function from tables, time and
  arguments to tables and reply. A run is any sequence of operations at any times. The class
  `CoordinationStore.Store` has the tables as fields and the source's loops and rollbacks, and
  each of its methods is proved to be the transaction of the same name; `CoordinationAnswers` says of
  each transaction when it succeeds, what it writes and what a refusal means.
* **Jobs and the audit sequence** (`JobLog`, `JobRetries`, `JobAnswers`, `JobStore`, `AuditRetention`). One
  global cursor numbers all audit rows; a job's log is a projection of it. `history` is every
  row ever written, `audit` the rows still kept.
* **Replay** (`EventStream`, `EventPump`, `NodeEvents`, `NodeSupervisor`, `Sse`, `WireText`).
  The Hub's stream pump is suspended at each write, and anything may happen between two of its
  steps; the Node saves its cursor after handling an event and may crash at any point. The text
  of the stream is printed, cut into chunks and parsed again.
* **Paging** (`Paging`, `Drain`, `JobEventPages`, `Snapshot`, `Cursors`). Keyset pages cut by
  record count and encoded bytes, drained by a client while rows come and go; the staged
  snapshot; the cursor texts.
* **The bridge supervisor** (`BridgeLifecycle`, `BridgeProgress`, `BridgeSupervisor`). Start, stop,
  cycles and tracked calls as a state machine whose steps end at each await: what never happens, and
  what comes about when nothing disturbs it.
* **Admission** (`Attempts`, `RequestGate`). The fixed-window limiters and the active counter.

## What the proofs assume

* A transaction is atomic, reads the clock once, and is rolled back by an error; identifiers and
  session tokens are drawn from one supply that never repeats (they stand for random UUIDs,
  numbered in order of issue); repository identifiers hold no colon.
* Claims about retention, the stream and expiry times need a clock that does not run backwards;
  `PruningLeavesASuffixExactlyWhen` and
  `ABackwardClockLeavesAGap` show what else happens. Claims about replay are for one Hub history:
  no restore from an older backup, and one Node to a cursor store.
* Encoded lengths are an arbitrary function of a page or a frame; JSON text is on one line and
  decodes to what was encoded. The results on the snapshot's budget take the cursor to the start of
  a stage to add what its base64url text takes (`PaysForNames`).

## Where the source falls short of what one may expect

* A retried job request is answered with the original only as long as maintenance has kept the
  job, and for a create the parent it names and the place the caller is registered at;
  `RetryReturnsTheOriginalExactlyWhenKept` states the exact condition and
  `ALateRetryMakesASecondJob` a run outside it.
* "Published" is not "committed": a claim with moved OIDs commits its audit row and then throws,
  and the Hub publishes a cursor only after a request that returns. Such a row reaches a stream
  with the next replay. `BehindExactlyWhenUnread` says exactly when an idle pump is behind the
  history, and `ACommittedRowCanWait` gives a run.
* `snapshot` measures a page with a cursor to the next stage, but may return it with a cursor to
  a later one. `OverExactlyWhenItSkipsToALongName` says for which stores and positions the page is
  then over its budget, `WithoutGapsPagesFit` that this needs an empty listing between two others,
  and `APageIsEightBytesOver` gives a store.
* The comment at packages/bridge/src/supervisor.ts:572-576 says that failing closed cancels any
  remaining message work. It does so only while no stop is under way
  (`AFailedCycleGoesOnExactlyWhileStopping`, with a run in `AStopRevivesACycle`). The model follows
  the code.
* Framing depends on the chunks exactly if a CR LF is cut in two
  (`ChunksDoNotMatterExactlyWhenNoLineEndIsCut`, `ACutLineEndHidesABlankLine`); the Hub prints LF only.

## Model
| member | source | states |
|---|---|---|
| CoordinationTables.ResourceTextInjective | packages/core/src/store.ts:4113-4118 | two lease resources have the same text only if they are the same resource, so a target's key names one repository and one ref |
| CoordinationTables.MaxRowidExists | packages/core/src/store.ts:2207-2222 | a table with rows has a highest rowid, so the row that is inserted next is above every remaining one even after pruning |
| CoordinationInvariants.StepKeepsValid | packages/core/src/store.ts:1318-1327 | every operation keeps all eleven invariants: the one-to-one link of claimed requests and `git:` leases, waiting rows without lease or claimant, registered holders, one lease per resource, token counters, rowids in order of arrival, claims only at the head of their queue |
| CoordinationInvariants.RecoverKeepsValid | packages/core/src/store.ts:4735-4796 | recovery removes a lease together with the claim it backs and keeps every invariant |
| CoordinationInvariants.UnregisterKeepsValid | packages/core/src/store.ts:3635-3686 | after an agent leaves every invariant holds: in particular no unregistered agent holds a lease and every claimed request still has one |
| CoordinationInvariants.MaintainKeepsValid | packages/core/src/store.ts:4805-4990 | maintenance, applied or previewed, keeps every invariant |
| CoordinationInvariants.OnlyExpiredLeasesGo | packages/core/src/store.ts:4735-4796 | recovery and maintenance drop exactly the expired leases, and every remaining holder stays registered |
| CoordinationInvariants.ClaimKeepsValid | packages/core/src/store.ts:4528-4661 | a claim that is granted, refused or commits `needs_refresh` keeps every invariant |
| CoordinationInvariants.ClaimGrants | packages/core/src/store.ts:4106-4197 | for the head of a queue the lease acquisition inside a claim grants a fresh lease with the next token, unless the key, the TTL or the agent is refused; nothing is replaced |
| CoordinationInvariants.HeadTargetIsFree | packages/core/src/store.ts:4608-4625 | no lease is on the target of a queued request that has no earlier active request |
| CoordinationInvariants.LeaseOfClaim | packages/core/src/store.ts:4528-4661 | a claimed request's lease exists, is on the request's target, is held by its claimant and carries the latest token |
| CoordinationInvariants.ClaimantIsUnique | packages/core/src/store.ts:3635-3686 | one lease backs at most one claimed request |
| CoordinationSteps.StepMoves | packages/core/src/store.ts:1318-1327 | what any transaction may change: leases keep their grant, at most one fresh grant takes the next token, rows keep place and target, finished rows stay as they are, authority ends only in one of four ways |
| CoordinationRuns.RunStaysValid | packages/core/src/store.ts:1318-1327 | the invariants hold in every reachable state |
| CoordinationRuns.AuthorityPeriodsAreDisjoint | packages/core/src/store.ts:4528-4661 | between two granted claims on one target lies the end of the first one's authority: its complete, its cancel, its holder's unregister, or its expiry |
| CoordinationRuns.GrantedClaim | packages/core/src/store.ts:4572-4648 | a granted claim takes the next lease, and every other lease on its target had expired and is gone |
| CoordinationRuns.TokensCountUp | packages/core/src/store.ts:4158-4182 | over every run the fresh grants on a resource carry tokens 1, 2, 3, ... in order |
| CoordinationRuns.CompletionHoldsHighestToken | packages/core/src/store.ts:5058-5153 | a successful completion holds the highest token ever issued for its target |
| CoordinationRuns.CompletionsFollowArrival | packages/core/src/store.ts:4608-4625 | requests that reach `completed` on one target do so in the order they were enqueued |
| CoordinationRuns.FinishedIsFinal | packages/core/src/store.ts:4875-4887 | a finished request stays exactly as it is until it is pruned, and is never active again |
| CoordinationRuns.RowsStayPut | packages/core/src/store.ts:5005-5056 | a request keeps its target and its place in the queue for as long as its row exists |
| CoordinationRuns.ClaimIsGrantedExactlyWhenClaimable | packages/core/src/store.ts:4528-4661 | in every valid state a claim is granted if and only if the request is queued and first, the OIDs match, the caller is a registered agent with its own token whose workspace belongs to the request's repository, the key fits and the TTL is valid; no lease is then held or replaced |
| CoordinationRuns.ExpiriesAreNear | packages/core/src/store.ts:1057-1068 | no lease outlives its last grant or renewal, and so the present, by more than 900 s |
| CoordinationRuns.OwnerCancelShortens | packages/core/src/store.ts:5214-5253 | the owner's cancel of an unclaimed request in front removes exactly it from the queue |
| CoordinationRuns.NoQueueIsStuck | packages/core/src/store.ts:4735-4796 | once expiries have passed, recovery and one owner-cancel per earlier request bring any queued request to the head, unchanged |
| CoordinationRuns.NoQueueStaysStuck | packages/core/src/store.ts:4735-4796 | so they do 900 s after the last step of any run |
| CoordinationAnswers.OnlyMembersAreServed | packages/core/src/store.ts:3457-3472 | whoever is served on a request (enqueue, claim, renew, refresh, complete, cancel) is a registered agent with its own token whose workspace belongs to the request's repository |
| CoordinationAnswers.OidsAreHexadecimal | packages/core/src/store.ts:5012-5015 | an OID is 40 to 64 hexadecimal digits of either case |
| CoordinationAnswers.EnqueueIsAnswered | packages/core/src/store.ts:4349-4397 | an enqueue is accepted if and only if the OIDs are hexadecimal and the caller belongs to the repository; the new request is last in order, queued, and holds what was given; each refusal has its cause |
| CoordinationAnswers.ClaimWrites | packages/core/src/store.ts:4626-4648 | a granted claim stores claimant, a fresh lease with the next token and the time asked for, and changes nothing else but what recovery does |
| CoordinationAnswers.RefusedClaims | packages/core/src/store.ts:4528-4661 | a refused claim changes nothing, unless the commits of a queued request moved: then it is sent back to be refreshed; each refusal has its cause |
| CoordinationAnswers.RenewalIsAnswered | packages/core/src/store.ts:4664-4733 | a renewal is accepted if and only if the TTL is valid, the caller belongs to the repository and its claim's lease is alive; it moves that lease's expiry; each refusal has its cause |
| CoordinationAnswers.RefreshIsAnswered | packages/core/src/store.ts:5005-5056 | a refresh is accepted if and only if the OIDs are hexadecimal, the request waits and the caller requested it and belongs to the repository; source and target OID are stored and the request is queued again; each refusal has its cause |
| CoordinationAnswers.CompletionIsAnswered | packages/core/src/store.ts:5058-5153 | a completion is accepted if and only if a post-target OID is given and hexadecimal (or the outcome is cancelled and none is given), the caller belongs to the repository and its claim's lease is alive; merged, rebased and squashed are stored as completed, failed as failed, cancelled as cancelled; exactly the claim's lease goes |
| CoordinationAnswers.CompletionRefusals | packages/core/src/store.ts:5058-5153 | each refused completion has its cause; expired means a claim of the caller whose lease has run out |
| CoordinationAnswers.CancelIsAnswered | packages/core/src/store.ts:5155-5212 | a cancel is accepted if and only if the caller belongs to the repository and is the claimant of the claimed request or the requester of the waiting one; a finished request is answered as it is |
| CoordinationAnswers.OwnerCancelIsAnswered | packages/core/src/store.ts:5214-5253 | the owner cancels exactly the waiting requests; a claimed one is a conflict, a finished one is answered as it is |
| CoordinationAnswers.AcquisitionIsAnswered | packages/core/src/store.ts:4199-4222 | a name is leased if and only if it is well-formed, the TTL valid, the caller a registered agent with its token, and no other agent holds the name; the holder keeps its lease and token, else a fresh lease takes the next token |
| CoordinationAnswers.AcquisitionRefusals | packages/core/src/store.ts:4199-4222 | each refused acquisition has its cause |
| CoordinationAnswers.HoldersKeepTheirLeases | packages/core/src/store.ts:4224-4292 | a named lease is renewed if and only if its holder asks in time, and released if and only if its holder asks |
| CoordinationAnswers.HolderRefusals | packages/core/src/store.ts:4224-4292 | each refused renewal or release has its cause |
| CoordinationAnswers.RegistrationIsAnswered | packages/core/src/store.ts:3486-3595 | a session new to its workspace becomes a new agent; a known one is resumed if and only if its token is presented, and gets a new one |
| CoordinationAnswers.HeartbeatIsAnswered | packages/core/src/store.ts:3597-3633 | a heartbeat is accepted if and only if it comes from a registered agent with its token and from its workspace |
| CoordinationAnswers.UnregisterIsAnswered | packages/core/src/store.ts:3635-3686 | an agent that leaves takes exactly its leases along, and its claims go back to be refreshed |
| CoordinationAnswers.RecoveryIsExact | packages/core/src/store.ts:4735-4796 | recovery drops exactly the expired leases, takes exactly their claims back, and changes nothing else |
| CoordinationAnswers.MaintenanceIsExact | packages/core/src/store.ts:4805-4990 | applied maintenance takes exactly the agents offline that were not heard of since the cutoff and hold no live lease, deletes exactly the requests finished before theirs, and a preview changes nothing |
| CoordinationStore.Store.RecoverExpired | packages/core/src/store.ts:4735-4796 | the loops over expired leases and their requests are the recovery transaction |
| CoordinationStore.Store.AcquireLeaseInTransaction | packages/core/src/store.ts:4106-4197 | the statements are the specified acquisition, replacement of an expired lease and reuse by the holder included |
| CoordinationStore.Store.AcquireLease | packages/core/src/store.ts:4199-4222 | the statements are the specified transaction, rolled back on every error |
| CoordinationStore.Store.RenewLease | packages/core/src/store.ts:4224-4263 | the same; the delete of an expired lease is rolled back by the error that follows |
| CoordinationStore.Store.ReleaseLease | packages/core/src/store.ts:4265-4292 | the same for releasing |
| CoordinationStore.Store.UpsertWorkspace | packages/core/src/store.ts:3369-3374 | the same for recording a workspace |
| CoordinationStore.Store.RegisterAgent | packages/core/src/store.ts:3486-3595 | the same for a new or resumed registration |
| CoordinationStore.Store.Heartbeat | packages/core/src/store.ts:3597-3633 | the same for a heartbeat |
| CoordinationStore.Store.UnregisterAgent | packages/core/src/store.ts:3635-3686 | the loop over claimed requests and the deletes are the specified transaction |
| CoordinationStore.Store.NextRowid | packages/core/src/store.ts:2207-2222 | the highest remaining rowid plus one, found by a loop |
| CoordinationStore.Store.EnqueueIntegration | packages/core/src/store.ts:4349-4397 | the statements are the specified transaction |
| CoordinationStore.Store.ClaimIntegration | packages/core/src/store.ts:4528-4661 | the statements are the specified transaction: moved OIDs commit `needs_refresh` before the error, every other error rolls back the recovery too |
| CoordinationStore.Store.RenewIntegration | packages/core/src/store.ts:4664-4733 | the same for renewing integration authority |
| CoordinationStore.Store.RefreshIntegration | packages/core/src/store.ts:5005-5056 | the same for refreshing OIDs |
| CoordinationStore.Store.CompleteIntegration | packages/core/src/store.ts:5058-5153 | the same for completing; the row keeps its lease and claimant |
| CoordinationStore.Store.CancelIntegration | packages/core/src/store.ts:5155-5212 | the same for cancelling |
| CoordinationStore.Store.AdminCancelUnclaimedIntegration | packages/core/src/store.ts:5214-5253 | the same for the owner's cancel |
| CoordinationStore.Store.RunMaintenance | packages/core/src/store.ts:4937-5003 | the loop over stale agents and the deletes are the specified maintenance; a preview changes nothing |
| CoordinationStore.StepKeepsGood | packages/core/src/store.ts:2177-2178 | every operation keeps the invariants and the unique index on sessions |
| JobLog.StepKeepsValid | packages/core/src/store.ts:2529-2722 | in every reachable state a job's events are numbered 1..n with increasing cursors, its status is the fold of `nextJobStatus` over them, its last cursor and sequence are those of event n, `completed_at` is set exactly when terminal, and the log is the projection of the whole audit history on the job |
| JobLog.NothingFollowsATerminalEvent | packages/core/src/store.ts:872-902 | only the last event of a log can be terminal, and it is exactly when the job is completed |
| JobLog.StatusIsTheLastWord | packages/core/src/store.ts:872-902 | a job's status says what the last event of its audit history other than a heartbeat was |
| JobLog.KeptLogs | packages/core/src/store.ts:4888-4896 | pruning finished jobs leaves the logs of the others untouched |
| JobRetries.RetryReturnsTheOriginalExactlyWhenKept | packages/core/src/store.ts:2637-2657 | an authenticated retry of an accepted create or append is answered with the original job or event if and only if maintenance has kept the job (and the parent the create named) and, for a create, the caller is registered where it was; without maintenance in between the job is always kept |
| JobRetries.RetriesLeaveNoTrace | packages/core/src/store.ts:2541-2563 | a run with retries, at any later points and also after the job is terminal, ends in the same job, event and audit tables, cursors and identifiers included, as the run without them |
| JobRetries.ForgottenIsNotReturned | packages/core/src/store.ts:4888-4896 | a retry after the job was pruned, or its parent cleared, is refused or makes another job |
| JobRetries.ALateRetryMakesASecondJob | packages/core/src/store.ts:4888-4896 | a concrete run in which a retried create makes a second job |
| JobAnswers.FoundIsTheFirst | packages/core/src/store.ts:2637-2642 | the lookup by job and key finds a row if and only if one has both, and then the first |
| JobAnswers.ReportsAreAcceptable | packages/core/src/store.ts:932-978 | which event kinds a client may report, and with which fields |
| JobAnswers.AppendIsAnswered | packages/core/src/store.ts:2621-2722 | a new event is written if and only if the caller is let in, the input acceptable, the job there and the caller's, the key new for it, and the job not over; the row, the job and the audit history then hold what was reported |
| JobAnswers.RepeatIsAnswered | packages/core/src/store.ts:2643-2657 | a key already recorded for the job is answered with its event if that says the same and with a conflict if not, and nothing is written |
| JobAnswers.AppendRefusals | packages/core/src/store.ts:2627-2636 | what each refusal of an event means |
| JobAnswers.CreateIsAnswered | packages/core/src/store.ts:2564-2619 | under a new key a job is made as described, with its first event, unless the caller is not let in or the parent is not a job of the repository |
| JobAnswers.RepeatedCreateIsAnswered | packages/core/src/store.ts:2541-2563 | a key the caller has used is answered with its job if described alike and with a conflict if not, and nothing is written |
| JobAnswers.PruningIsExact | packages/core/src/store.ts:4888-4896 | maintenance deletes exactly the jobs that ended before the cutoff and clears exactly the parents that go |
| JobAnswers.PrunedRows | packages/core/src/store.ts:4888-4903 | events stay exactly with their jobs, each kept job's log as it was; audit rows go exactly when older than the cutoff, and the run is recorded |
| JobStore.Store.CreateJob | packages/core/src/store.ts:2529-2619 | the statements are the specified transaction |
| JobStore.Store.AppendJobEvent | packages/core/src/store.ts:2621-2722 | the statements are the specified transaction |
| JobStore.Store.RecordAudit | packages/core/src/store.ts:2386-2429 | the next cursor is taken, the counter moves on, the row is added |
| JobStore.Store.RecordAuditEvent | packages/core/src/store.ts:2432-2447 | the statements are the specified transaction |
| JobStore.Store.RunMaintenance | packages/core/src/store.ts:4888-4903 | finished jobs go with their events, parents are cleared, old audit rows go |
| AuditRetention.StepKeepsRetained | packages/core/src/store.ts:2386-2429 | with a clock that does not run backwards the audit table is, after every operation, a gap-free suffix of everything ever written |
| AuditRetention.PruningLeavesASuffixExactlyWhen | packages/core/src/store.ts:4897-4903 | deleting by age leaves a gap-free suffix if and only if no row that is too old comes after one that is new enough |
| AuditRetention.AgePrunesAPrefix | packages/core/src/store.ts:4897-4903 | deleting by age from rows in time order deletes a prefix |
| AuditRetention.ABackwardClockLeavesAGap | packages/core/src/store.ts:4897-4903 | without time order it may delete from the middle |
| AuditRetention.EarliestIsAfterThePruned | packages/core/src/store.ts:2462-2468 | the lower bound is one past the pruned rows, the upper bound the number of rows ever written |
| AuditRetention.ListingHasNoGaps | packages/core/src/store.ts:2470-2494 | inside the bounds, listing after a cursor returns the next rows of the history without a gap |
| EventStream.OpenServes | apps/hub/src/app.ts:281-317 | a stream opened at any cursor, also one past the history, starts in the invariant: it is served from that cursor, or from the latest after a reset |
| EventStream.ReactServes | apps/hub/src/app.ts:361-391 | every event at a stream keeps the invariant: the frames written are the history in order from where the reader is served, a running pump is waiting for something, an idle one has nothing pending, and the replay under way will reach every published cursor |
| EventStream.DbStepServes | apps/hub/src/app.ts:300-352 | commits and pruning in the middle of a replay keep it too |
| EventStream.NoLostWakeUp | apps/hub/src/app.ts:294-397 | from any start, in every interleaving of commits, pruning, publications, keepalives, slow and failing writes and closing, an idle open pump has passed every published cursor |
| EventStream.BehindExactlyWhenUnread | apps/hub/src/app.ts:294-397 | an idle open pump is behind the history if and only if rows were committed since it last read the table; none of them has been published, and if all is published it is at the end |
| EventStream.ACommittedRowCanWait | apps/hub/src/app.ts:690-701 | a concrete run in which a committed, unpublished row waits beside an idle open pump |
| EventStream.ResetExactlyWhen | apps/hub/src/app.ts:300-347 | a replay sends a reset if and only if the cursor is outside the retained rows or the backlog is over 500 rows or 256 KiB |
| EventStream.KeepalivesAreWritten | apps/hub/src/app.ts:361-395 | a keepalive due at an idle stream is written at once, and kept for a busy one |
| EventStream.NothingElseIsWrittenOnceClosed | apps/hub/src/app.ts:344-381 | over any run, once a stream is closed only rows of the replay that was under way can still be written, in order, and nothing if there are none |
| EventStream.AnUndisturbedPumpComesToRest | apps/hub/src/app.ts:361-381 | from any state of the stream, a pump whose writes succeed comes to rest, and an open one has then passed all that was in the table when it last read it |
| EventStream.AFailedWriteCloses | apps/hub/src/app.ts:374-381 | a write that fails closes the stream and ends the pump, with nothing more written |
| EventStream.BytesAddUp | apps/hub/src/app.ts:326-329 | the bytes of a replay are the sum of those of its frames |
| EventPump.StreamEvents | apps/hub/src/app.ts:281-397 | subscribing and the first pump are the specified opening, and the stream starts in its invariant |
| EventPump.Subscription.TotalBytes | apps/hub/src/app.ts:327-330 | the sum of the frames' encoded lengths |
| EventPump.Subscription.Replay | apps/hub/src/app.ts:300-352 | the closure's statements are the specified replay, up to the first write: it will reach the whole history, and keeps the invariant for a reader in step |
| EventPump.Subscription.Pump | apps/hub/src/app.ts:361-381 | the closure's statements are the specified pump; it comes to rest only with nothing pending |
| EventPump.Subscription.Resume | apps/hub/src/app.ts:348-351 | what follows each awaited write is the specified continuation; the invariant is kept, and at rest every published cursor is passed |
| EventPump.Subscription.OnPublish | apps/hub/src/app.ts:385-388 | the notifier's callback is the specified event, with the same promises |
| EventPump.Subscription.Fail | apps/hub/src/app.ts:374-380 | a failing write closes the stream, with the same promises |
| NodeEvents.EverythingSavedWasHandled | apps/node/src/events.ts:231-282 | across any number of reconnects and crashes every audit row at or below the saved cursor was handled to the end or a saved reset stands for it; the saved cursor is never ahead of the history |
| NodeEvents.HandledInOrder | apps/node/src/events.ts:268-272 | within a connection the handled cursors strictly increase |
| NodeEvents.RepeatsOnlyAfterACut | apps/node/src/events.ts:268-272 | a row is handed over again only if a connection broke between handling it and saving its cursor |
| NodeEvents.RestMeansCaughtUp | apps/node/src/events.ts:204-229 | when the pump rests and the Node has dealt with every frame, the saved cursor has passed every published one |
| NodeEvents.MovedIsSound | apps/node/src/events.ts:231-282 | every step of Hub, store and Node keeps the invariant that ties the Node's cursor to its place in the stream |
| NodeSupervisor.Supervisor.Consume | apps/node/src/events.ts:231-282 | the reading loop of one connection connects, takes every frame before the one it ends at, handles and saves each new row among them, and at that frame ends as the handler and the save do; what is saved, handled and handled without being saved follows from the frames; this is a run of the Node's steps |
| NodeSupervisor.ReadingHandlesTheNews | apps/node/src/events.ts:231-282 | in the Node's steps too, reading k frames takes each of them, handles exactly the new rows in order, and saves the cursor it is at |
| Sse.FramesSurviveAnyChunking | apps/node/src/events.ts:236-276 | for frames as the Hub prints them, cut into chunks anywhere, a reader whose buffer does not overflow sees exactly these frames in order and parses each to what was printed |
| Sse.ChunksDoNotMatterExactlyWhenNoLineEndIsCut | apps/node/src/events.ts:240-254 | without overflow the blocks are those of the whole text with its line ends replaced, if and only if no chunk border cuts a CR LF |
| Sse.ChunksDoNotMatter | apps/node/src/events.ts:243-254 | so a text without carriage returns may be cut anywhere |
| Sse.LongestFrameAndChunkFit | apps/node/src/events.ts:246-251 | the buffer does not overflow if a longest frame and a longest chunk fit it together |
| Sse.ACutLineEndHidesABlankLine | apps/node/src/events.ts:243-245 | with CRLF line ends framing does depend on the chunks |
| Sse.PrintedBlocksParse | apps/hub/src/app.ts:245-247 | the parser undoes the printer |
| Sse.ParseBlock | apps/node/src/events.ts:90-118 | the loop over lines reads the fields as specified |
| Sse.ReadBlocks | apps/node/src/events.ts:240-254 | the loop over chunks takes the blocks as specified, and fails on a buffer over 1 MiB |
| WireText.TheNodeReadsTheWire | apps/node/src/events.ts:120-149 | through the text of the stream the Node handles exactly the frames the pump wrote, each row under its own cursor |
| Paging.BoundedPage | apps/hub/src/service.ts:67-99 | the loop returns the specified page |
| Paging.PagesFit | apps/hub/src/service.ts:67-99 | a returned page is the last proposal that was measured: it fits the byte budget, has a next cursor only with records on it, names its last record as that cursor exactly when records are left, and a longer page would break a limit; an error means the first record does not fit |
| Paging.AfterComposes | packages/core/src/store.ts:2770-2799 | listing after the n-th row of a listing lists the rest of it |
| Drain.CollectPages | apps/node/src/backend.ts:84-123 | the loop collects the specified rows; its check that a cursor was not seen before never fails |
| Drain.DrainIsSorted | apps/node/src/backend.ts:84-123 | a drain returns rows in strict key order, so none twice, while other rows come and go |
| Drain.DrainMissesNoKey | apps/node/src/backend.ts:84-123 | a key that is listed for every request of a drain is returned, whatever becomes of its row's value |
| Drain.DrainReturnsEachKeyOnce | apps/node/src/backend.ts:84-123 | it is returned exactly once, with a value that it had for one of the requests |
| Drain.DrainMissesNothing | apps/node/src/backend.ts:84-123 | a row that stays as it is throughout a drain is returned as it is |
| Drain.DrainInventsNothing | apps/node/src/backend.ts:84-123 | a drain returns only rows that were listed for one of its requests |
| Drain.StillDrainIsTheListing | apps/node/src/backend.ts:84-123 | on a listing that does not change a drain returns the listing, with at most one request a row |
| JobEventPages.JobEvents | apps/node/src/backend.ts:267-329 | the loop reads the specified events, and fails with an invalid input exactly outside 1 to 500; its check that a cursor was not seen before never fails |
| JobEventPages.ReadIsOneListing | apps/node/src/backend.ts:267-329 | what is read in pages equals one listing with the whole limit, of the log as the last request made found it, though events are appended in between; it takes at most one request an event and fails only on a record over the budget |
| Snapshot.RecordsAreAllThatFit | apps/hub/src/service.ts:674-721 | the number of records on a page is n if and only if the pages of 1 to n records all fit, each measured with the cursor that would follow it, and there are 100, or there is no record more, or the page of n + 1 does not fit |
| Snapshot.FillStage | apps/hub/src/service.ts:665-727 | reading one stage leaves the first records of what there was to read, and returns the page that is served when a limit is met, or the error when not even one record fits |
| Snapshot.TakeSnapshot | apps/hub/src/service.ts:635-727 | at every store and position the page, its records and next position, or the error, are those of what is left to read there: its first records that fit, and a position inside the last one's stage or at the start of the next record's |
| Snapshot.PageSplitsTheRest | apps/hub/src/service.ts:635-727 | a page and what is left at its next position are together what was left to read, under one watermark and at most 100 records; an error means that the first record does not fit with the cursor after it |
| Snapshot.DrainSnapshot | apps/hub/src/service.ts:635-727 | for a still store whose records fit alone the pages concatenate to all nine listings, under the first page's watermark, and end; each page is the one of what the pages before it left. What was read holds the first eight listings in full, row by row, and of the audit listing exactly the rows above the watermark less 100, in order and once |
| Snapshot.RestOfStage | apps/hub/src/service.ts:545-590 | of each stage what is left to read at a position is the rest of its listing, no row lost or doubled at a boundary |
| Snapshot.ListingsAreLeftInFull | apps/hub/src/service.ts:545-572 | from the start, each of the first eight listings is left to read in full, as the store holds it |
| Snapshot.RecentEventsAreLeft | apps/hub/src/service.ts:573-588 | from the start, of the audit listing exactly the rows with a cursor above the watermark less 100 are left, in order and once |
| Snapshot.OverExactlyWhenItSkipsToALongName | apps/hub/src/service.ts:674-704 | for every store and position the page is over the byte budget if and only if, after the records that fit, the next record is of a later stage than the one after theirs, and the room they leave is enough for the name of that one but not for the name of its own |
| Snapshot.StartLengthIsExact | apps/hub/src/service.ts:101-103 | the length a cursor to a stage's start adds is that of its field with the base64url text of the position |
| Snapshot.OverByFifteenBytesAtMost | apps/hub/src/service.ts:674-704 | no page with records is over the budget by more than 15 bytes |
| Snapshot.WithoutGapsPagesFit | apps/hub/src/service.ts:674-704 | no page is over the budget while no empty listing lies between two that are not empty |
| Snapshot.APageIsEightBytesOver | apps/hub/src/service.ts:674-704 | a device, a workspace, an agent, sixteen messages of less than 32 KiB, no lease and an integration: the first page is full to the last byte with a cursor to the leases, and is returned with one to the integrations |
| Cursors.RowCursorsRoundTrip | packages/core/src/store.ts:1203-1219 | a row number's cursor reads as that number, and a text is accepted only if it is the cursor of the positive safe integer it reads as |
| Cursors.EncodeRoundTrips | packages/core/src/store.ts:1221-1225 | base64url decoding undoes encoding for all bytes |
| Cursors.MessageCursorsRoundTrip | packages/core/src/store.ts:1221-1270 | a message cursor reads as its creation time and identifier, and a text is accepted only if it is the cursor of an instant and a message identifier, which it reads as |
| Cursors.IdsAreNamed | packages/core/src/store.ts:66 | a message identifier is `msg_` or `opm_` and 32 hexadecimal digits |
| Cursors.KeysOrderByTimeThenId | packages/core/src/store.ts:3973-4004 | the cursor's bytes order messages as the query does, by creation time and then by identifier |
| BridgeLifecycle.StepKeepsInv | packages/bridge/src/supervisor.ts:409-435 | every call and every continuation keeps the lifecycle invariants |
| BridgeLifecycle.FailedClosedIsForGood | packages/bridge/src/supervisor.ts:828-847 | once the bridge has failed closed no interleaving makes it run again, and only a forced stop sends an unregister |
| BridgeLifecycle.StoppedMeansNoRow | packages/bridge/src/supervisor.ts:1179-1261 | `stopped` means that no register was ever sent or an unregister was acknowledged |
| BridgeLifecycle.UnregisterIsDrained | packages/bridge/src/supervisor.ts:1188-1205 | when an unregister is sent no cycle and no tracked call is outstanding, and none is ever again |
| BridgeLifecycle.WhenUnregisterIsSent | packages/bridge/src/supervisor.ts:1191-1206 | an unregister is sent only by a stop past its waits, with a registration, and forced after a failure |
| BridgeLifecycle.ClosedClientHasNoRow | packages/bridge/src/supervisor.ts:1241-1246 | an owned client is closed only after an acknowledged unregister or with no registration obtained |
| BridgeLifecycle.AnUndisturbedStopEndsStopped | packages/bridge/src/supervisor.ts:1179-1261 | a stop while running that nothing disturbs sends the unregister and ends in `stopped` |
| BridgeLifecycle.AFailedCycleGoesOnExactlyWhileStopping | packages/bridge/src/supervisor.ts:572-579 | a cycle of a bridge that has failed closed goes on with its messages if and only if a stop has begun since the last failure and has not ended |
| BridgeLifecycle.StoppingExactlyWhile | packages/bridge/src/supervisor.ts:1179-1188 | the state is `stopping` if and only if a stop is under way that the bridge has not failed closed under |
| BridgeLifecycle.AStopRevivesACycle | packages/bridge/src/supervisor.ts:572-579 | a run from the start that gets there: while degraded the cycle would end, once stopping it goes on |
| BridgeProgress.AnUndisturbedStartRuns | packages/bridge/src/supervisor.ts:886-989 | a start that nothing disturbs passes its waits in order (heartbeat timeout, ownership record, register, private callback, record, heartbeat, first poll) and leaves the bridge running and registered |
| BridgeProgress.AFailedStartEnds | packages/bridge/src/supervisor.ts:945-987 | a start that fails at any wait is recorded, closes an owned client without a registration, and ends failed, or degraded if the bridge failed closed meanwhile |
| BridgeProgress.AnUnhealthyStartFails | packages/bridge/src/supervisor.ts:850-862 | a start that finds the bridge failed closed does not go on, whatever it waited for |
| BridgeProgress.TheFirstPollReadsOn | packages/bridge/src/supervisor.ts:940-952 | the first poll reads on while there is more and the bridge has not failed |
| BridgeProgress.EveryUndisturbedStopEnds | packages/bridge/src/supervisor.ts:1179-1261 | a stop in any state with nothing outstanding ends within five waits; it sends one unregister if and only if the bridge is registered and runs or is starting or the stop is forced, ends stopped if and only if that is so or no row is known, and closes an owned client just then |
| BridgeProgress.AFailedUnregisterEndsDegraded | packages/bridge/src/supervisor.ts:1204-1222 | an unregister that is not acknowledged leaves the row unknown, the client open and the bridge degraded |
| BridgeProgress.AnUndisturbedStopPassesItsWaits | packages/bridge/src/supervisor.ts:1179-1261 | a stop of a running bridge waits in order for the unregister, the runtime, the client and the record |
| BridgeProgress.AStopWaitsForWork | packages/bridge/src/supervisor.ts:1188-1189 | a stop goes on only when no cycle, and then no tracked call, is under way |
| BridgeProgress.AnUndisturbedCyclePolls | packages/bridge/src/supervisor.ts:793-811 | a cycle sends and records a heartbeat if one is due, then reads the inbox, and ends with the bridge as it was |
| BridgeProgress.ACycleEndsAfterAPoll | packages/bridge/src/supervisor.ts:793-811 | in any interleaving, a cycle that ends while the bridge has been running all along has read the inbox |
| BridgeProgress.AnUndisturbedCallReachesTheBroker | packages/bridge/src/supervisor.ts:508-558 | a tracked call sends and records its heartbeat, reaches the broker, and ends with the bridge as it was |
| BridgeProgress.ACallEndsAtTheBroker | packages/bridge/src/supervisor.ts:508-558 | in any interleaving, a tracked call that leaves while the bridge has been running all along leaves after its broker call |
| BridgeProgress.AHeartbeatOnDemandEnds | packages/bridge/src/supervisor.ts:1016-1036 | a heartbeat on demand ends once recorded; without a registration it fails closed |
| BridgeProgress.AStopLetsWorkFinish | packages/bridge/src/supervisor.ts:560-570 | work under way when a stop begins is let finish, but a cycle does not begin to read the inbox |
| BridgeProgress.FailuresCloseTheBridge | packages/bridge/src/supervisor.ts:828-847 | a failing cycle or call and an exit of the runtime fail a running bridge closed, and what failed ends once that is recorded |
| BridgeProgress.LateResultsAreRefused | packages/bridge/src/supervisor.ts:560-570 | what the broker answers a cycle after the bridge has failed closed or ended is not taken over |
| BridgeProgress.LateCallsEnd | packages/bridge/src/supervisor.ts:560-570 | nor what it answers a tracked call: the call ends and changes nothing |
| BridgeProgress.CallsAreLetIn | packages/bridge/src/supervisor.ts:992-1036 | a cycle begins exactly while running with none under way, a tracked call exactly before a stop is asked for and while active |
| BridgeProgress.RequestsAreLetIn | packages/bridge/src/supervisor.ts:1123-1177 | what a stop, a second forced stop and an exit of the runtime change at once |
| BridgeSupervisor.Supervisor.FailClosed | packages/bridge/src/supervisor.ts:828-847 | the statements are the specified transition; the invariant is kept and the bridge does not run |
| BridgeSupervisor.Supervisor.ContinueStart | packages/bridge/src/supervisor.ts:886-989 | each segment of performStart is the specified step, keeps the invariant and sends no unregister |
| BridgeSupervisor.Supervisor.ContinueStop | packages/bridge/src/supervisor.ts:1179-1261 | each segment of performStop is the specified step and keeps the invariant: an unregister only with all work done and after a failure only if forced, `stopped` only with no row left |
| BridgeSupervisor.Supervisor.BeginTask | packages/bridge/src/supervisor.ts:416-422 | lifecycle operations begin one at a time, in order, under the same promises |
| BridgeSupervisor.Supervisor.ContinueCycle | packages/bridge/src/supervisor.ts:793-826 | each segment of a cycle, and its failing closed, is the specified step under the same promises |
| BridgeSupervisor.Supervisor.RunCycle | packages/bridge/src/supervisor.ts:992-1013 | a cycle begins only while running, and calls join the one under way |
| BridgeSupervisor.Supervisor.TrackOperation | packages/bridge/src/supervisor.ts:1016-1036 | a tracked call begins only before a stop is requested and while active |
| BridgeSupervisor.Supervisor.ContinueOperation | packages/bridge/src/supervisor.ts:508-558 | each segment of a tracked call is the specified step under the same promises |
| BridgeSupervisor.Supervisor.CallStop | packages/bridge/src/supervisor.ts:1133-1177 | the first stop queues a stop, later ones join it |
| BridgeSupervisor.Supervisor.NotifyRuntimeExit | packages/bridge/src/supervisor.ts:1123-1131 | the statements are the specified step |
| Attempts.AtMostTwiceTheMaximum | apps/hub/src/app.ts:516-551 | any interval one window long permits a key that is not evicted or cleared in it at most twice its maximum |
| Attempts.RunStaysBounded | apps/hub/src/app.ts:532-548 | the map never holds more windows than its capacity, and no window counts past its maximum |
| Attempts.AttemptMeans | apps/hub/src/app.ts:516-550 | an attempt counts in its key's live window or starts one, and leaves every other live window alone unless it reports it evicted |
| Attempts.ExpiredWindowsGoFirst | apps/hub/src/app.ts:517-551 | the window attempted now is the newest; the others stay while there is room, expired ones go when there is none, and the oldest live one only when all are live |
| Attempts.Limiter.PermitAttempt | apps/hub/src/app.ts:516-550 | the statements, with their loops over expired and oldest windows, are the specified attempt |
| Attempts.Limiter.ClearAttempts | apps/hub/src/app.ts:551 | a success forgets the key |
| RequestGate.AtMostTwiceTheMaximum | apps/server/src/http.ts:151-171 | any interval one window long counts at most twice the maximum of requests |
| RequestGate.HandleKeepsSound | apps/server/src/http.ts:172-188 | the active counter is the number of admitted requests not yet released, never exceeds its limit, and never has to be stopped at zero |
| RequestGate.RequestsAreAnswered | apps/server/src/http.ts:151-180 | an unauthorized request changes nothing; over the rate of the current window it is refused uncounted, with too many active refused and counted, else let in |
| RequestGate.ReleasesAreAnswered | apps/server/src/http.ts:180-188 | a response releases once, however often it reports its end |
| RequestGate.TwiceIsReached | apps/server/src/http.ts:151-171 | twice the maximum is reached |
| RequestGate.Gate.OnRequest | apps/server/src/http.ts:151-188 | the middleware's statements are the specified request |
| RequestGate.Gate.OnRelease | apps/server/src/http.ts:180-188 | a response that finishes and closes releases once |

## Left out
- SQLite itself, its SQL texts, schema migration, backups, integrity checks, and rows that are stored malformed or without tokens (legacy rows).
- The audit rows that lease and integration operations write: in the job model they are `RecordAudit` operations, and `CoordinationTables` has no audit table.
- `MAX(fencing_token)` in lease acquisition adds nothing under the unique index on resources, and is not in the model.
- A request's result and outcome JSON, its source ref and creation time, display names and capabilities: they are stored and returned, and no branch depends on them.
- The syntax of refs, session references, idempotency keys, kinds and texts (`canonicalTargetRef`, `isValidBranchName`, length checks): inputs are taken as already normalized, and a refused text changes nothing.
- Messages and their acknowledgement, reconciliations, devices, enrollment and remote workspaces, except that their listings are paged.
- Hashing of tokens, cookies, CSRF, redaction and logging; git execution and path checks, whose OIDs are inputs.
- The counts and blockers that maintenance reports; its cutoffs for messages; the job activity filter of listings.
- The text of snapshot positions (base64url of JSON): positions are values. The snapshot's other fields are part of its abstract length.
- Checks of the shape of responses in the Node's paging loops (`items` is an array, a cursor matches its pattern): responses are typed, and `Cursors` shows what cursors look like.
- UTF-8 decoding of the stream (a library's streaming decoder); `Sse` starts from decoded chunks.
- Backoff, abort signals and warnings of the Node's reconnecting loop: a reconnect may follow at any time.
- The bridge's ownership file, message handling, native push and callbacks: a callback that calls the supervisor again, also from an observer inside a synchronous stretch, is a call at the next step boundary.
- The bridge's poll is one wait that goes on or ends; the requests inside it are not told apart.
- HTTP routing, TLS, configuration, the MCP tools, the RPC client and the dashboard.
