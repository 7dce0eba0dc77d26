# Verified model of the ERP backend's protocols and algorithms

This project models the parts of the backend that carry an argument: the transactional
outbox with its relay and consumer inbox, the leases and counters kept in Redis, keyset
pagination and its cursors, the source scanner of the query-safety check, and three pure
transformations (LIKE escaping, versioned ciphertexts, locale merging). `dafny verify
dfyconfig.toml` checks everything.

## How the model is organised

**Outbox.** `OutboxEntities` has the row, the in-memory entity, the table and the queue;
`OutboxEnvelope` the event categories and kill switches; `OutboxRelay` the relay service as
methods on those objects, each proved equal to a row transformation; `OutboxReplay` the replay
script. `OutboxRuns` cuts the same transformations into steps (claim, kill, renew, add, save,
crash, tick, replay) that any number of relays and scripts interleave over one shared clock,
and proves what every reachable state satisfies. `OutboxLeases` proves what the claim lease
buys, exactly when a run loses it, and a guard that would keep it; `OutboxAttempts` counts
failures and rejections; `OutboxHazards` has runs of the code in which things go wrong. `OutboxDelivery` is the queue consumer and the inbox, for one run of
the processor and for any interleaving of duplicated, retried and aborted runs.
`OutboxEndToEnd` composes both machines, from a row in the table to its side effects.

**Leases and counters.** `TtlStore` is a key-value store whose entries expire.
`DistributedLock`, `IpRateLimit` and `Idempotency` are the three services over it, as
imperative methods. `LockRuns`, `LimitRuns` and `IdempotencyRuns` interleave their store
operations for many clients and prove statements over whole runs.

**Pagination.** `Base64` is base64 and base64url (sections 4 and 5 of RFC 4648), `Cursors` the
plain and the signed cursors, `Pagination` the helper against a simple sorted listing,
`PageWalks` the walk that follows `nextCursor` over a table that may change between pages.

**Scanner.** `SourceScanner` is the lexer with its six flags, refined to a mode machine and
then to a token grammar; `BracketCheck` the parenthesis matcher, the regular-expression scans
and the file check; `LineNumbers` the binary search and the linear count.

**Pure transformations.** `IlikeEscape` (against a LIKE matcher, section 9.7.1 of the
PostgreSQL documentation), `Encryption` (over an ideal authenticated cipher) and `LocaleMerge`.

Where a definition only fixes a constant, a name or a table, a lemma beside it says so in
literals: `ConsumerNames`, `NewRowWrittenOut`, `EligibleWrittenOut`, `ClaimWrittenOut`,
`JobsWrittenOut`, `LiveExactly`, `WindowIsRoundedUp`, `TtlExactly`, `GroupByGroup`, `OneCharacter`,
`CappedExactly`, `JoinedWithAColon`, `NothingIsLeft`, `DottedExactly`, `NeverFilledExactly`, `TheSpaces`.

## What the proofs found

- *A late save can undo a dispatch.* The relay does not look at its row again before it saves,
  and a save overwrites the whole row. In `OutboxHazards.LateSaveUndoesDispatch` a dispatched
  row goes back to PENDING, while no relay is live on it. `OutboxLeases.FinishedExactly` is the
  exact condition: a run lets finished rows go only by the replay of parked ones if and only if
  no save puts another value over a finished row and no replay hits one that is not parked.
- *A late save can also break exclusion.* In `OutboxHazards.LateSaveBreaksExclusion` it takes
  away the lease of a relay that is live, and two relays are live on the event afterwards. So do
  two overlapping replay scripts with every relay in time
  (`OutboxHazards.OverlappingReplaysBreakExclusion`). `OutboxLeases.ExclusionExactly` is the
  exact condition here: a run keeps exclusion throughout if and only if no save changes a row
  that another relay is live on.
- *One guard would do for both.* If a save went through only while the row is still the one
  that was claimed, and a replay only while it is still parked, exclusion and finished rows
  would be kept without any assumption on timing (`OutboxLeases.GuardedRunIsSafe`).
- *Consumers are safe regardless.* If consumers commit their inbox row with their side effect,
  no side effect commits twice, late saves, replays and repeated dispatches included
  (`OutboxEndToEnd.EffectsAtMostOnce`).
- *Failures can be forgotten.* A relay that crashes between the queue's rejection and its save
  leaves no trace of the attempt, so an event can be rejected any number of times with its
  retry count at zero (`OutboxHazards.FailuresWithoutATrace`). Five is a bound on the failures
  that are saved; `OutboxAttempts.AtMostFiveRejectionsExactly` is the exact condition for it to
  bound the rejections.
- *The backoff hardly matters.* The lease that a relay renews before the queue call is saved
  with a failed attempt, so the row waits for the lease and not for the exponential backoff,
  unless the queue took more than 52 seconds to fail (`OutboxRelay.LeaseOutlastsBackoff`).
- *A block can be shortened.* Two requests that both exceed the hard limit each compute
  `blockedUntil` from their own look at the clock; if the earlier look is written last, the
  deadline goes down (`LimitRuns.LaterWriteLowersDeadline`), and `LimitRuns.AdmittedDuringABlock`
  is a run from the start in which a request is admitted before the first deadline.
- *Thirty seconds, not sixty.* `IdempotencyRuns.SafeExactly` says exactly which deployments run
  a handler successfully at most once per key and window: no request looks between another's
  look and its mark, no response is lost, and a handler's success, the landing of its response
  and the deletion of a failed run's marker all come within the 30 s staleness bound. The 60 s
  life of the marker protects none of them; each condition has a run that shows it is needed.
- *Empty plaintexts.* Their ciphertexts are not recognised by `isEncrypted` and, in the
  three-part format, cannot be decrypted (`Encryption.RecognisedExactly`,
  `Encryption.LegacyDecryptsExactly`). A previous key configured under the current version
  takes the current key's place (`Encryption.RingOfConfig`).
- *Inherited names.* A translation key such as `constructor` is never filled in, because a
  property read finds the inherited function (`LocaleMerge.InheritedNameIsNeverFilled`);
  `LocaleMerge.CoversExactly` is the exact condition under which no English leaf is missing.
- *A comment that disagrees with the code.* `acquireWithRetry` makes `max(1, maxRetries)`
  attempts; the comment at src/common/services/distributed-lock.service.ts:197 promises one
  more. The model follows the code.

## Model

| member | source | states |
|---|---|---|
| OutboxEnvelope.DurableCategoriesForEventType | src/common/events/outbox-envelope.ts:84-92 | lists exactly the categories the event type belongs to, each once, in the fixed order |
| OutboxEnvelope.ListedInOrder | src/common/events/outbox-envelope.ts:84-92 | such a list is what remains of financial, invoice, notification, mail, webhook, in this order |
| OutboxEnvelope.EachCategoryHasItsTypes | src/common/events/outbox-envelope.ts:25-55 | the event types of each category, by their names |
| OutboxEnvelope.EachCategoryHasItsFlag | src/common/events/outbox-envelope.ts:94-107 | a category is switched off iff the flag service holds false under that category's own name, the five names written out |
| OutboxEnvelope.IsDurableRelayEnabled | src/common/services/outbox-relay.service.ts:110-120 | an event is relayed iff it has no category, or some category of it is switched on; OneFlagDecides says which flag that is |
| OutboxEnvelope.HeldBackExactly | src/common/services/outbox-relay.service.ts:110-120 | an event is held back iff it has a category and the flag of each of its categories, by its literal name, is off |
| OutboxEnvelope.OneFlagDecides | src/common/services/outbox-relay.service.ts:110-120 | an event type with one category is relayed iff that category's flag, by its literal name, is not off |
| OutboxEnvelope.KillSwitchesAreIndependent | src/common/events/outbox-envelope.ts:94-107 | turning one category's flag off switches off that category and no other |
| OutboxRelay.SelectBatch | src/common/services/outbox-relay.service.ts:78-88 | the claim query: eligible, unlocked, distinct rows, oldest first, at most 50, and none older left out unless locked |
| OutboxRelay.BatchTakesTheOldest | src/common/services/outbox-relay.service.ts:78-88 | a claimable row that the claim leaves behind is younger than all it takes, and there are fifty of those |
| OutboxRelay.OutboxRelayService.LoadBatch | src/common/services/outbox-relay.service.ts:78-88 | the selected rows loaded into new, distinct objects, field for field |
| OutboxRelay.OutboxRelayService.ClaimBatch | src/common/services/outbox-relay.service.ts:73-98 | the claim transaction: exactly the batch's rows get the instance and a 60 s lease, in memory and in the table |
| OutboxRelay.OutboxRelayService.RelayOne | src/common/services/outbox-relay.service.ts:122-174 | one relay: killed, dispatched, failed or dead-lettered, the whole row saved once, the job added iff the queue stored it |
| OutboxRelay.RelayWrittenOut | src/common/services/outbox-relay.service.ts:122-174 | the row such a relay saves, field by field: the reason and no claim when switched off, else the lease renewed for 60 s and dispatched, or counted as failed with 1, 2, 4, 8 s of backoff, or dead the fifth time |
| OutboxRelay.OutboxRelayService.RelayAll | src/common/services/outbox-relay.service.ts:106-108 | the loop equals saving the relayed value of each claimed row in order |
| OutboxRelay.OutboxRelayService.ProcessBatch | src/common/services/outbox-relay.service.ts:73-109 | a whole batch, claim and relays, as one transformation of table and queue |
| OutboxRelay.BatchRowByRow | src/common/services/outbox-relay.service.ts:73-109 | read row by row: batch rows are relayed from their claimed value, every other row is untouched, no row appears or disappears |
| OutboxRelay.BatchJobsAdded | src/common/services/outbox-relay.service.ts:145-150 | a batch adds exactly the jobs of its events that are switched on and that the queue stored, whether it answered or failed |
| OutboxRelay.BackoffOfAttempt | src/common/services/outbox-relay.service.ts:43-45 | 1, 2, 4, 8 s for attempts one to four, one minute from the seventh on, never more |
| OutboxRelay.EligibleExactlyFrom | src/common/services/outbox-relay.service.ts:81-84 | a PENDING row is eligible exactly from the later of next attempt and lease end |
| OutboxRelay.LeaseOutlastsBackoff | src/common/services/outbox-relay.service.ts:142-173 | a failed row is eligible within 60 s of its save, and at the renewed lease's end exactly if the queue did not take longer than 60 s less the backoff |
| OutboxReplay.ReplayRow | scripts/outbox-dlq-replay.ts:79-86 | seven fields reset, the row saved, nothing else changed |
| OutboxReplay.Replay | scripts/outbox-dlq-replay.ts:45-93 | resets exactly the selected rows; a dry run changes nothing |
| OutboxReplay.SelectsExactly | scripts/outbox-dlq-replay.ts:45-60 | dead letters, or rows the kill switch stopped, of one event if an id is given |
| OutboxReplay.TakesTheEarliest | scripts/outbox-dlq-replay.ts:48-52 | what the limit cuts off failed last, or was written last, and nothing is cut off below the limit |
| OutboxReplay.ReplayLeavesNoneBehind | scripts/outbox-dlq-replay.ts:48-60 | a run below its limit leaves no selected row parked and changes only selected rows |
| OutboxRuns.InvStep | src/common/services/outbox-relay.service.ts:73-174 | every step of relays, crashes and replay scripts keeps the invariant of rows, in-memory copies and loaded replay rows |
| OutboxRuns.InvAlways | src/common/services/outbox-relay.service.ts:73-174 | the invariant holds in every reachable state, late saves and overlapping replays included |
| OutboxRuns.RowPatterns | src/common/entities/outbox-event.entity.ts:44-70 | the field pattern of each status in every reachable state; a PENDING row is claimable within 60 s |
| OutboxRuns.IdsOfARun | scripts/outbox-dlq-replay.ts:76-88 | over a run the event ids are those at its start and those produced since: no step of a relay, crash or replay adds or loses one |
| OutboxRuns.ClaimStepIsClaimBatch | src/common/services/outbox-relay.service.ts:73-98 | the claim step does what the claim method does, for every batch its query can return |
| OutboxRuns.RelayStepsAreRelayOne | src/common/services/outbox-relay.service.ts:122-174 | renew, add and save in a row do what the relay method does |
| OutboxLeases.ExclusiveStepExactly | src/common/services/outbox-relay.service.ts:122-174 | a step keeps lease exclusion iff it is no save over a row that another relay is live on |
| OutboxLeases.ExclusionExactly | src/common/services/outbox-relay.service.ts:73-174 | a run keeps lease exclusion throughout iff none of its steps is such a save |
| OutboxLeases.FinishedStepExactly | src/common/services/outbox-relay.service.ts:122-174 | a step keeps every finished row, but for the replay of a parked one, iff it neither saves another value over a finished row nor replays a finished row that is not parked |
| OutboxLeases.FinishedExactly | src/common/services/outbox-relay.service.ts:122-174 | a run does so throughout iff none of its steps is such a save |
| OutboxLeases.DispatchedStays | src/common/services/outbox-relay.service.ts:151-153 | a dispatched row is unchanged for as long as no such save comes |
| OutboxLeases.FinishedRowsFailTheGuard | src/common/services/outbox-relay.service.ts:129-173 | at every save over a finished row the row differs from the one that was claimed, so a test before the save would stop it |
| OutboxLeases.GuardedStepIsSafe | src/common/services/outbox-relay.service.ts:129-173 | a save whose row is still the claimed one, or a replay of a row still parked, breaks neither exclusion nor a finished row |
| OutboxLeases.GuardedRunIsSafe | src/common/services/outbox-relay.service.ts:73-174 | with that guard exclusion and finished rows are kept in every run, whatever the timing |
| OutboxLeases.LeaseExclusion | src/common/services/outbox-relay.service.ts:73-174 | if every relay acts before its claim lease ends and replays save parked rows only, no two relays are live on one event |
| OutboxLeases.FinishedRowsStay | src/common/services/outbox-relay.service.ts:122-174 | in such a run a row leaves DISPATCHED, FAILED or DEAD_LETTER only by a replay, and DISPATCHED never |
| OutboxAttempts.RetryCountIsExact | src/common/services/outbox-relay.service.ts:156-173 | in such a run the stored retry count is the number of failures saved since production or replay |
| OutboxAttempts.AtMostFiveSavedFailures | src/common/services/outbox-relay.service.ts:39-45 | at most five failures are saved between replays, and the row is DEAD_LETTER exactly at the fifth |
| OutboxAttempts.RejectionsAreConserved | src/common/services/outbox-relay.service.ts:145-173 | in every run each job the queue rejected is saved as a failure, dropped by a crash before the save, or still held unsaved |
| OutboxAttempts.SavesAreCounted | src/common/services/outbox-relay.service.ts:156-173 | in such a run the retry count grows by exactly the failures saved between replays |
| OutboxAttempts.RejectionsAreAccountedFor | src/common/services/outbox-relay.service.ts:145-173 | so between replays the rejections are the growth of the retry count, of the failures held, and the failures dropped |
| OutboxAttempts.AtMostFiveRejectionsExactly | src/common/services/outbox-relay.service.ts:39-45 | an event is rejected at most five times iff the failures dropped and held do not exceed the attempts that the retry count has left; if all are saved, the fifth rejection parks it |
| OutboxHazards.FailuresWithoutATrace | src/common/services/outbox-relay.service.ts:145-173 | for every n a run, timely throughout, in which the queue rejects an event n times and its row is PENDING with a retry count of zero |
| OutboxHazards.LateSaveUndoesDispatch | src/common/services/outbox-relay.service.ts:142-173 | a run from the start in which a save after lease end turns a DISPATCHED row back to PENDING, exclusion being kept |
| OutboxHazards.LateSaveBreaksExclusion | src/common/services/outbox-relay.service.ts:142-173 | a run from the start in which a save after lease end hits a row that another relay is live on, and two relays are live on it afterwards |
| OutboxHazards.OverlappingReplaysBreakExclusion | scripts/outbox-dlq-replay.ts:76-88 | a run from the start, over five timely failures, in which two overlapping replay scripts let two relays be live on one event |
| OutboxDelivery.UnhandledExactlyWhen | src/common/services/outbox-relay.service.ts:236-285 | whatever the flags were at the relay, the event goes unhandled iff no category of it is enabled at the job, except notification without a consumer; if the flags are as they were only that exception is left |
| OutboxDelivery.OneFlagDecidesDelivery | src/common/services/outbox-relay.service.ts:238-281 | an event type with one category is delivered iff that category's flag, by its literal name, is not off, and a notification only to a consumer |
| OutboxDelivery.SwitchedOffInBetween | src/common/services/outbox-relay.service.ts:227-240 | a switch turned off between relay and job leaves a dispatched event unhandled |
| OutboxDelivery.DeliveredAllRecords | src/common/services/consumer-inbox.service.ts:13-27 | delivering records every delivery, forgets none, and changes nothing when all are recorded |
| OutboxDelivery.ProcessingAgainIsHarmless | src/common/services/consumer-inbox.service.ts:13-27 | a second run of a job changes nothing |
| OutboxDelivery.InboxStore.TryClaim | src/common/services/consumer-inbox.service.ts:17-22 | true iff no inbox row exists for consumer and event |
| OutboxDelivery.InboxStore.RunInTransaction | src/common/services/outbox-relay.service.ts:288-304 | effect and inbox row commit together, once; a fault leaves everything as it was |
| OutboxDelivery.InboxStore.Process | src/common/services/outbox-relay.service.ts:232-286 | financial, invoice, notification, mail, webhook, in this order: a run that ends normally served exactly the categories reached; one that stops does so at a reached category whose consumer fails, having served exactly those before it and recorded nothing for it or after it |
| OutboxDelivery.DeliveriesReach | src/common/services/outbox-relay.service.ts:238-281 | the due deliveries are one for each matching, enabled category, notification only with a consumer |
| OutboxDelivery.InvStep | src/common/services/outbox-relay.service.ts:232-304 | every step of interleaved job runs keeps one effect per inbox row of a live consumer |
| OutboxDelivery.InvAlways | src/common/services/outbox-relay.service.ts:232-304 | so in every reachable state |
| OutboxDelivery.AtMostOnce | src/common/entities/consumer-inbox.entity.ts:4 | however deliveries are duplicated, retried, interleaved or aborted, each side effect commits at most once, and only for queued events |
| OutboxDelivery.ExactlyOnceWhenDone | src/common/services/outbox-relay.service.ts:232-286 | a run that ended normally left each of its deliveries recorded, its effect committed exactly once |
| OutboxDelivery.EveryReachedCategoryIsServed | src/common/services/outbox-relay.service.ts:232-286 | after a run that ended normally every category the event reaches has its inbox row, and its effect exactly once if a consumer is supplied |
| OutboxDelivery.CommitIsOneTransaction | src/common/services/outbox-relay.service.ts:288-304 | begin and commit without a rival in between do what one transaction does |
| OutboxEndToEnd.InvAlways | src/common/services/outbox-relay.service.ts:73-304 | in every reachable state of relays, scripts and job runs together both machines keep their invariants and the queue holds only events of the table |
| OutboxEndToEnd.EffectsAtMostOnce | src/common/services/outbox-relay.service.ts:73-304 | with late saves, replays, repeated dispatches and retried runs, each side effect commits at most once, and only for an event of the table whose job was stored |
| OutboxEndToEnd.DispatchedCanBeProcessed | src/common/services/outbox-relay.service.ts:145-153 | for a dispatched event a job run can start at any time |
| OutboxEndToEnd.ServedExactlyOnce | src/common/services/outbox-relay.service.ts:232-304 | once a job run begun for an event ends normally, every category the event reached has its inbox row and its effect exactly once, and keeps it through everything later |
| TtlStore.Store.SetIfAbsent | src/common/services/distributed-lock.service.ts:112-118 | SET PX NX: sets iff no live entry is there; a non-positive time to live is an error |
| TtlStore.Store.CompareAndDelete | src/common/services/distributed-lock.service.ts:50-56 | deletes iff the live entry holds the given value |
| TtlStore.Store.CompareAndExpire | src/common/services/distributed-lock.service.ts:63-69 | moves the deadline iff the live entry holds the given value |
| TtlStore.Store.Set | src/common/cache/cache-utils.service.ts:21-31 | the entry lives from now for its time to live, others unchanged |
| DistributedLock.DistributedLockService.Acquire | src/common/services/distributed-lock.service.ts:106-127 | acquired iff no live lock was on that resource, and then locked with this token for the time to live; no other resource is touched; a lost reply can leave a lock behind |
| DistributedLock.DistributedLockService.Release | src/common/services/distributed-lock.service.ts:139-161 | removes the resource's lock iff the token holds it, and touches no other; a Redis failure is swallowed |
| DistributedLock.DistributedLockService.Extend | src/common/services/distributed-lock.service.ts:173-186 | extends the resource's lock iff the token holds it, and otherwise changes nothing |
| DistributedLock.LockKeysDiffer | src/common/services/distributed-lock.service.ts:106-127 | different resources have different locks |
| DistributedLock.DistributedLockService.AcquireWithRetry | src/common/services/distributed-lock.service.ts:195-217 | its steps are exactly the attempts with their tokens and the doubling waits between; between 1 and n = max(1, maxRetries) attempts, n when it gives up; a token returned holds the lock for a full time to live |
| DistributedLock.StepByStep | src/common/services/distributed-lock.service.ts:201-213 | attempt by attempt: its own token, then a wait of the retry delay times two to the number of waits before, plus its jitter |
| DistributedLock.RetryWaitIsBounded | src/common/services/distributed-lock.service.ts:208-212 | the waits of a retry with made attempts sum up to at least retryDelay * (2^(made-1) - 1) and at most that plus 49 per wait |
| DistributedLock.Task.Run | src/common/services/distributed-lock.service.ts:237-238 | the body may be run only while its token holds the lock for a full time to live; the run is recorded with the locks it started from and left |
| DistributedLock.DistributedLockService.WithLock | src/common/services/distributed-lock.service.ts:230-243 | without a lock its steps are the attempts alone; with one they are the attempts and one run of the body under the lock, and the store it leaves is the one the body left, less that token's lock unless Redis fails |
| LockRuns.InvAlways | src/common/services/distributed-lock.service.ts:106-186 | in every reachable state a body whose lock has not run out is the one the server names, tokens are distinct, and of two bodies on one resource the earlier has run out |
| LockRuns.OverlapOnlyAfterExpiry | src/common/services/distributed-lock.service.ts:230-243 | two bodies on one resource overlap only while the earlier one has outlived its lock |
| LockRuns.OthersCannotTouchAHeldLock | src/common/services/distributed-lock.service.ts:139-186 | no release or extend with another token, and none after expiry, changes a held lock or its deadline |
| LockRuns.OtherResourcesAreLeftAlone | src/common/services/distributed-lock.service.ts:106-186 | a step about one resource leaves every other resource's lock as it was |
| LockRuns.LocksAreRemembered | src/common/services/distributed-lock.service.ts:106-186 | in every reachable state a resource's lock is the one the steps about that resource alone account for |
| LockRuns.GrantedExactlyWhenFree | src/common/services/distributed-lock.service.ts:106-127 | an acquire whose reply arrives gets its body iff no earlier step about that very resource left a lock on it that is still live |
| IpRateLimit.AdmitsUpToTheCap | src/common/guards/ip-rate-limit.guard.ts:68-97 | the verdicts on a count admit it iff it is within the cap, which is at most three quarters for anonymous requests |
| IpRateLimit.AnswersExactly | src/common/guards/ip-rate-limit.guard.ts:68-97 | in whole numbers: blocked iff the count exceeds the hard limit, admitted iff it exceeds neither; for anonymous requests four times the count against three times the limits |
| IpRateLimit.IpRateLimitGuard.Increment | src/common/cache/cache-utils.service.ts:53-59 | one more than the live count; only the first count of a window sets its end |
| IpRateLimit.IpRateLimitGuard.CanActivate | src/common/guards/ip-rate-limit.guard.ts:52-98 | one request: turned away untouched while blocked, else counted; admitted iff within both limits, or three quarters of both when anonymous; a block written iff beyond the hard one |
| LimitRuns.AdmittedBelowCount | src/common/guards/ip-rate-limit.guard.ts:68-97 | in every interleaving the admissions of the current window are at most its counter and at most the cap |
| LimitRuns.AdmitsExactly | src/common/guards/ip-rate-limit.guard.ts:68-97 | in every interleaving a request is admitted iff it finds the window within both limits, or three quarters of both, and goes on to write a block iff beyond the hard one |
| LimitRuns.UninterruptedSteps | src/common/guards/ip-rate-limit.guard.ts:52-98 | look, check, count and block in a row do what the guard does for one request |
| LimitRuns.RateBound | src/common/guards/ip-rate-limit.guard.ts:68-97 | at most min(soft, hard) admissions per window, and at most the floor of three quarters of each for anonymous requests |
| LimitRuns.TurnedAwayExactlyByLastWrite | src/common/guards/ip-rate-limit.guard.ts:56-66 | a request that looks after a block write is turned away iff it checks before the deadline written last |
| LimitRuns.DeadlineHonouredUnlessLowered | src/common/guards/ip-rate-limit.guard.ts:56-77 | so a deadline holds for all later requests unless a later write lowers it |
| LimitRuns.LaterWriteLowersDeadline | src/common/guards/ip-rate-limit.guard.ts:56-77 | two racing block writes do lower it, and a newcomer passes the block check before the first deadline |
| LimitRuns.AdmittedDuringABlock | src/common/guards/ip-rate-limit.guard.ts:56-97 | a run from the start in which a newcomer is admitted while the first deadline has not been reached |
| Idempotency.CacheKeysAreDistinct | src/common/interceptors/idempotency.interceptor.ts:221-225 | no two tenants and no two valid keys of one tenant share a cache entry |
| Idempotency.KeyProblemExactly | src/common/interceptors/idempotency.interceptor.ts:189-219 | 16 to 256 letters, digits, hyphens and underscores are accepted, and what is refused gets the error of its first fault |
| Idempotency.DecideExactly | src/common/interceptors/idempotency.interceptor.ts:138-159 | a cached response is replayed, a marker younger than 30 s refuses, anything else proceeds |
| Idempotency.IdempotencyInterceptor.Intercept | src/common/interceptors/idempotency.interceptor.ts:109-187 | one request: passes through, is refused with the right error, replays the cached body, or runs the handler; then a success leaves its response for the time to live under its own key, a failure nothing, and every other unexpired entry is as it was |
| IdempotencyRuns.InvAlways | src/common/interceptors/idempotency.interceptor.ts:138-187 | over all prompt runs at most one handler is current, the entry is its marker, a successful handler is current until its response lands, and no handler is current while a request is between look and mark |
| IdempotencyRuns.ProceedsExactly | src/common/interceptors/idempotency.interceptor.ts:138-159 | a request may proceed iff there is no entry, it has expired, or it is a marker thirty seconds old |
| IdempotencyRuns.UninterruptedSteps | src/common/interceptors/idempotency.interceptor.ts:138-187 | the steps of one request in a row leave its marker for 60 s, and then its response for the time to live, or nothing |
| IdempotencyRuns.ServesUntilExpiry | src/common/interceptors/idempotency.interceptor.ts:138-187 | from the landing of a response on the cache serves it for its whole time to live: nothing overwrites or deletes it |
| IdempotencyRuns.LaterRequestsGetTheBody | src/common/interceptors/idempotency.interceptor.ts:138-158 | every request in that window gets that run's body |
| IdempotencyRuns.OneSuccessPerWindow | src/common/interceptors/idempotency.interceptor.ts:138-187 | a second success comes only after the first response landed and its time to live has passed |
| IdempotencyRuns.FreeAfterDelete | src/common/interceptors/idempotency.interceptor.ts:180-185 | after a failed run whose marker deletion lands the key stays usable until the next request looks |
| IdempotencyRuns.SafeExactly | src/common/interceptors/idempotency.interceptor.ts:138-187 | every run of a deployment has at most one success per window iff looks and marks do not interleave, no response is lost, and success, landing and deletion all come within thirty seconds of the marker (or no handler succeeds) |
| IdempotencyRuns.TwoSuccessesIfLooksInterleave | src/common/interceptors/idempotency.interceptor.ts:139-162 | a run with two handlers at once, after a second look between a look and its mark |
| IdempotencyRuns.TwoSuccessesIfResponseIsLost | src/common/interceptors/idempotency.interceptor.ts:175-178 | a run with two successes after the first response was lost |
| IdempotencyRuns.TwoSuccessesIfHandlerIsLate | src/common/interceptors/idempotency.interceptor.ts:141-162 | for every delay of thirty seconds or more a handler that succeeds so late does so beside the one that took over |
| IdempotencyRuns.TwoSuccessesIfResponseLandsLate | src/common/interceptors/idempotency.interceptor.ts:168-178 | for every landing time of thirty seconds or more two handlers can both succeed |
| IdempotencyRuns.TwoSuccessesIfDeleteLandsLate | src/common/interceptors/idempotency.interceptor.ts:180-185 | for every landing time of thirty seconds or more a late deletion can remove a rival's response, and a further handler succeeds in its window |
| Base64.DecodeInvertsEncode | src/common/utils/cursor.utils.ts:9-35 | decoding inverts encoding for every byte string, in both alphabets |
| Base64.DigitsAreFromTheTables | src/common/utils/cursor.utils.ts:9-35 | the digits are those of the two tables of RFC 4648, sections 4 and 5 |
| Base64.GroupsAreNumbers | src/common/utils/cursor.utils.ts:9-35 | a group of digits is the same number to base 64 as its bytes are to base 256, a short last group filled up with zero bits |
| Base64.UrlFormIsSafe | src/common/services/cursor-auth.service.ts:19-23 | the url form holds letters, digits, hyphen and underscore only |
| Base64.StandardLength | src/common/utils/cursor.utils.ts:32-35 | the standard form is padded to groups of four |
| Cursors.CursorRoundTripExactly | src/common/utils/cursor.utils.ts:9-35 | a plain cursor decodes to its date and id iff the id is not blank and has no bar |
| Cursors.RefusedExactly | src/common/utils/cursor.utils.ts:9-30 | which error a cursor gets, by its parts: no bar, an empty part, a date that does not parse, a blank id |
| Cursors.SignedDecodesExactly | src/common/services/cursor-auth.service.ts:24-45 | a signed cursor decodes to d iff its payload is d, a bar and the digest of d |
| Cursors.SignedRoundTrip | src/common/services/cursor-auth.service.ts:19-45 | decoding inverts encoding for every text, bars included |
| Cursors.UserCursorRoundTripExactly | src/common/services/cursor-auth.service.ts:53-66 | a user cursor parses back iff the id is not empty and has no bar |
| Pagination.PrecedesTotal | src/common/utils/cursor-pagination.helper.ts:61-63 | of two different rows exactly one comes first in (date, id) descending order |
| Pagination.PrecedesTransitive | src/common/utils/cursor-pagination.helper.ts:61-63 | that order is transitive |
| Pagination.PrecedesExactly | src/common/utils/cursor-pagination.helper.ts:61-63 | later dates first, and on one date the greater id in byte order |
| Pagination.ListingSorts | src/common/utils/cursor-pagination.helper.ts:61-63 | the reference listing is in that order and has exactly the table's rows |
| Pagination.WhereKeeps | src/common/utils/cursor-pagination.helper.ts:57-72 | filtering keeps exactly the matching rows, in order |
| Pagination.SafeIdentifierExactly | src/common/utils/cursor-pagination.helper.ts:24-28 | which alias and field names are accepted, character by character |
| Pagination.ExecutePagination | src/common/utils/cursor-pagination.helper.ts:45-94 | a call answers with the page of the filtered listing after the cursor's position, or the error of the identifier or cursor; in a table of distinct rows that page is as PageShowsNext says |
| Pagination.FetchPage | src/common/utils/cursor-pagination.helper.ts:74-93 | the limit + 1 probe yields the first rows of what is left, and a cursor iff there is more |
| Pagination.PageShowsNext | src/common/utils/cursor-pagination.helper.ts:57-93 | told without the query: at most the limit of rows, in order, each matching and after the position; every other such row comes after them, and there is a next cursor, that of the last row, iff there is one |
| PageWalks.CursorLeadsOn | src/common/utils/cursor-pagination.helper.ts:78-88 | a page's cursor decodes to the position of its last row |
| PageWalks.CursorsAreFaithful | src/common/utils/cursor-pagination.helper.ts:45-94 | following cursors is following positions, page by page |
| PageWalks.WalkSoFar | src/common/utils/cursor-pagination.helper.ts:45-94 | after any number of pages over a changing table what was shown is in order and ends at the next position |
| PageWalks.SteadyRowSoFar | src/common/utils/cursor-pagination.helper.ts:45-94 | a matching row that stays in the table is shown already or still ahead |
| PageWalks.FinishedWalkShowsSteadyRows | src/common/utils/cursor-pagination.helper.ts:45-94 | with rows coming and going between pages, a finished walk is in order and shows every matching row present throughout |
| PageWalks.SortedShowsOnce | src/common/utils/cursor-pagination.helper.ts:45-94 | so no row is shown twice |
| PageWalks.StaticWalkIsTheListing | src/common/utils/cursor-pagination.helper.ts:45-94 | over a table that does not change a finished walk is the filtered listing, in pages of the limit but the last |
| PageWalks.WalkIsBounded | src/common/utils/cursor-pagination.helper.ts:45-94 | an unfinished walk has shown that many full pages of the listing |
| PageWalks.StaticWalkEnds | src/common/utils/cursor-pagination.helper.ts:45-94 | from any page reached, following cursors comes to an end |
| SourceScanner.SanitizeForScanning | scripts/ci/check-tenant-query-safety.ts:45-147 | the six-flag loop computes the mode machine's output |
| SourceScanner.SanitizedShape | scripts/ci/check-tenant-query-safety.ts:45-147 | same length, same newlines, each character kept or a space, no quote and no comment opener left |
| SourceScanner.CleanIsFixed | scripts/ci/check-tenant-query-safety.ts:45-147 | a text without quotes and comment openers is left as it is |
| SourceScanner.SanitizingIsIdempotent | scripts/ci/check-tenant-query-safety.ts:45-147 | sanitizing twice is sanitizing once |
| SourceScanner.SanitizedMasksTokens | scripts/ci/check-tenant-query-safety.ts:45-147 | of a source made of tokens exactly the literals and comments are blanked |
| SourceScanner.EverySourceHasTokens | scripts/ci/check-tenant-query-safety.ts:45-147 | every source is made of tokens |
| BracketCheck.FindMatchingParen | scripts/ci/check-tenant-query-safety.ts:149-168 | the first closing parenthesis at which the depth returns to zero, and -1 iff there is none |
| BracketCheck.ClosedIsBalanced | scripts/ci/check-tenant-query-safety.ts:149-168 | everything between an opening parenthesis and its match is nested in it |
| BracketCheck.MatchInside | scripts/ci/check-tenant-query-safety.ts:170-190 | no pattern match starts, and no parenthesis comes, inside a match |
| BracketCheck.MatchesExactly | scripts/ci/check-tenant-query-safety.ts:170-190 | both patterns match exactly where they occur by index: `.orWhere`, any white space, a parenthesis; `new`, some white space, `Brackets`, any white space, a parenthesis |
| BracketCheck.FindBracketRanges | scripts/ci/check-tenant-query-safety.ts:170-190 | exactly the closed parentheses of the `new Brackets(` occurrences, told by indices |
| BracketCheck.CheckFile | scripts/ci/check-tenant-query-safety.ts:229-260 | reports exactly the `.orWhere(` occurrences, told by indices, outside every such range, in order, each with its line |
| BracketCheck.ReportedTextIsInSource | scripts/ci/check-tenant-query-safety.ts:229-260 | a reported `.orWhere` stands in the source at that offset |
| LineNumbers.BuildLineStarts | scripts/ci/check-tenant-query-safety.ts:196-204 | the offsets at which the lines begin, all of them |
| LineNumbers.LineBetweenStarts | scripts/ci/check-tenant-query-safety.ts:196-227 | an offset is on a line iff it lies between that line's start and the next |
| LineNumbers.GetLineNumber | scripts/ci/check-tenant-query-safety.ts:206-227 | the binary search ends and returns one plus the newlines before the offset; before the text it returns the number of lines |
| LineNumbers.GetLineNumberForIndex | scripts/ci/check-tenant-contract.ts:297-305 | the linear count returns one plus the newlines before the index |
| LineNumbers.SearchRefinesCount | scripts/ci/check-tenant-query-safety.ts:206-227 | what search and count return at every offset, and that they agree iff the offset is not negative or the text has one line |
| IlikeEscape.ThreePassesAreOne | src/common/utils/ilike-escape.util.ts:16-19 | the three replacements are one per-character pass |
| IlikeEscape.EscapingCanBeUndone | src/common/utils/ilike-escape.util.ts:16-19 | unescaping gives the value back |
| IlikeEscape.SearchFindsSubstrings | src/common/utils/ilike-escape.util.ts:47-56 | the search pattern of s matches exactly the texts containing s, and never ends in a dangling escape |
| IlikeEscape.UnescapedWildcardFindsEverything | src/common/utils/ilike-escape.util.ts:16-19 | without escaping a wildcard would find everything; with it, only itself |
| IlikeEscape.TrimExactly | src/common/utils/ilike-escape.util.ts:47 | a text is white space, its trimmed form, and white space |
| IlikeEscape.IlikeSearch.ApplyIlikeSearch | src/common/utils/ilike-escape.util.ts:39-58 | trims and caps before escaping; below the minimum nothing happens, else one condition under a fresh parameter |
| IlikeEscape.SearchNarrows | src/common/utils/ilike-escape.util.ts:39-58 | one more search narrows to the rows with a column containing the term, and leaves earlier searches as they were |
| Encryption.SplitInvertsJoin | src/common/services/encryption.service.ts:76-153 | colon-free parts joined by colons are split back into them |
| Encryption.EncryptedParts | src/common/services/encryption.service.ts:76-100 | a ciphertext's parts are its version, its salt if any, nonce, tag and body |
| Encryption.DecryptsUnderLaterRings | src/common/services/encryption.service.ts:108-153 | a value decrypts under every later ring that still holds its key |
| Encryption.TryOthersFinds | src/common/services/encryption.service.ts:155-187 | the fallback over other keys finds the plaintext iff one of them is the key |
| Encryption.LegacyDecryptsExactly | src/common/services/encryption.service.ts:155-187 | a three-part value whose key is held decrypts iff its plaintext is not empty |
| Encryption.RecognisedExactly | src/common/services/encryption.service.ts:214-239 | a fresh ciphertext is recognised iff its plaintext is not empty |
| Encryption.RecognisedByItsParts | src/common/services/encryption.service.ts:214-239 | any text is recognised iff it has five or four parts of which the first is a version in the ring and the others are base64, or three that are base64 |
| Encryption.IsBase64Exactly | src/common/services/encryption.service.ts:241-244 | one or more characters of the alphabet, then equals signs only |
| Encryption.RejectedByItsParts | src/common/services/encryption.service.ts:108-153 | which texts are refused as malformed, as malformed three-part values, or for a version without a key |
| Encryption.NeededByItsParts | src/common/services/encryption.service.ts:254-258 | all needs re-encryption but four or five parts of which the first is the current version |
| Encryption.ReencryptKeepsPlaintext | src/common/services/encryption.service.ts:254-263 | re-encrypting keeps the plaintext, brings the current version, and is idempotent |
| Encryption.OtherKeysCanBeDropped | src/common/services/encryption.service.ts:108-153 | what needs no re-encryption decrypts the same without the other keys |
| Encryption.RotationLosesNothing | src/common/services/encryption.service.ts:254-263 | re-encrypt every readable value, drop the old keys: every plaintext is still there |
| Encryption.EncryptionService.OnModuleInit | src/common/services/encryption.service.ts:57-65 | derives the pending keys in order into the ring and clears them |
| Encryption.EncryptionService.Create | src/common/services/encryption.service.ts:27-51 | fails iff there is no key outside development, else the configured starting state |
| Encryption.EncryptionService.DecryptLegacyParts | src/common/services/encryption.service.ts:155-187 | the loop over keys computes the functional fallback |
| Encryption.RingOfConfig | src/common/services/encryption.service.ts:27-65 | the ring a configuration ends up with holds both keys if their versions differ, and the previous one otherwise |
| LocaleMerge.DeepMergeMissing | scripts/ci/sync-locale-placeholders.ts:11-25 | the key-by-key loop computes the merge of the fields, whatever the order of keys; a target that is no object counts as empty, and an English leaf only fills a gap |
| LocaleMerge.MergedKeyByKey | scripts/ci/sync-locale-placeholders.ts:11-25 | what the merge puts under each key, for all trees, whether or not they agree |
| LocaleMerge.MergeIsIdempotent | scripts/ci/sync-locale-placeholders.ts:11-25 | merging again changes nothing, for all trees |
| LocaleMerge.MergedLeaves | scripts/ci/sync-locale-placeholders.ts:11-25 | every leaf of the target keeps its value, every other leaf is the English one |
| LocaleMerge.FlattenedKeyHasPath | scripts/ci/check-i18n-locale-parity.ts:10-21 | each flattened key is the dotted path of a leaf |
| LocaleMerge.PathIsFlattenedKey | scripts/ci/check-i18n-locale-parity.ts:10-21 | each leaf's dotted path is a flattened key |
| LocaleMerge.MergedKeysAreTheUnion | scripts/ci/check-i18n-locale-parity.ts:49-54 | the merged tree's flattened keys are the union of both, so "only in en" is empty |
| LocaleMerge.CoversExactly | scripts/ci/sync-locale-placeholders.ts:11-25 | the exact condition under which the merged tree has every English leaf path |
| LocaleMerge.InheritedNameIsNeverFilled | scripts/ci/sync-locale-placeholders.ts:11-25 | a text under "constructor" is never copied and stays "only in en" |

## Left out

Outbox:

- The early return of `processOutbox` and `relayOne` without a queue, its catch-all, and logging.
- `toEnvelope` and the columns no step writes (payload, tenant, aggregate, correlation id).
- OutboxRuns.InvStep: the copies of one batch may be relayed in any order, which includes the loop's order; a loop ended early by a failing save is a crash of the rest.
- OutboxReplay.Replay: the arguments come parsed; a limit of zero or one that is not a number, which the query builder treats in its own way, is not part of this model.
- OutboxDelivery.EveryReachedCategoryIsServed: supplied consumers are taken to commit their inbox row and their side effect in one transaction, as tryClaim's comment asks of them; effects outside the database, such as a mail, and checks the consumers make on their own are not part of this model.
- BullMQ's retention and retry settings: a queued job may be run any number of times, at any time, and abort anywhere.

Leases and counters:

- Redis expiry within its last millisecond, eviction and failover; INCR and EXPIRE are one step, and the fallback of `increment` without Redis is not modelled.
- IpRateLimit.IpRateLimitGuard.CanActivate: a negative window or block length and limits that are not whole numbers are not modelled; the key of a request is given, and counter and block keys are taken to be apart; the skip decorator and the switch that turns the guard off are not part of this model.
- IdempotencyRuns.OneSuccessPerWindow: stated for runs in which no request looks between another's look and its mark and everything comes within 30 s; SafeExactly says that nothing less will do.
- Idempotency.IdempotencyInterceptor.Intercept: responses are texts; whether a handler's `undefined` survives the cache's serialisation is not part of this model.
- DistributedLock.Task.Run: the function run under a lock is known by this contract only: it may take any time, change the store in any way, and throw.
- LockRuns.InvAlways: tokens are fresh, as 16 random bytes are in practice.

Pagination and cursors:

- Dates travel through a codec that is assumed lossless on the runtime's range of milliseconds; sub-millisecond database timestamps and a date field that holds no date are not modelled.
- Pagination.ExecutePagination: a page limit that is not a whole number, which the clamp lets through unrounded, is not modelled.
- Base64.DecodeInvertsEncode: of Node's lenient decoder only the skipping of foreign characters is modelled; text after a padding sign is not cut off.
- Cursors.CursorRoundTripExactly: texts are bytes, so blank means white space of the ASCII range.
- The strength of HMAC: the digest is any function whose results have no bar, and `Cursors.BarFreeDigest` is an instance, as `Cursors.LosslessCodec` is one of the date codec. Comparison in constant time is plain equality.

Scanner:

- The walk over files, the text of a violation's message, its trimmed line content, and the sorting and printing of the report.

Pure transformations:

- SQL quoting of the ESCAPE literal, case folding of ILIKE, surrogate pairs cut by the cap, and an empty list of columns.
- AES-GCM, scrypt and HKDF are ideal functions on text (`Encryption.IdealCipher` is an instance); the asynchronous wrappers of encrypt and decrypt are not modelled.
- A `__proto__` key in a locale file, and everything that reads or writes files.

Everywhere: framework wiring, decorators, validation, telemetry, migrations, seeds and the other scripts.
