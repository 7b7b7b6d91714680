# Verified model of the escrow platform's backend

This Dafny project models the protocols of the escrow platform's backend and proves what they keep, over
every run: refresh tokens that rotate and are revoked by family, event indexing under a leased lock, the
hash structures for files and for the audit log, the failure controls that are driven by a clock (circuit
breaker, retries, rate limit, idempotency), the escrow's money, the cache and the reputation score against
simpler things, and the two transformations (tenant scoping of queries, CSV reports).

`dafny verify dfyconfig.toml` checks all of it.

## How the model is built

There is one file, and one module, per source file, except that the ledger worker has two (`LedgerBatch.dfy`
for one batch and one tick, `LedgerWorker.dfy` for whole runs), and that `TemplatePayout.dfy` and
`TextPayout.dfy` join the template validator to the escrow service.  Objects and module-level state that the
code changes in place are classes, their methods are proved against step functions on plain values, and the
theorems speak of runs of those steps: any order, any times that do not go back, any failures.  A database
transaction is one step; where a call makes several writes, a parameter says how many of them went through.
What comes from outside (the clock, random ids, replies of the network, the order in which the database
returns equal rows, the number and date parsing of JavaScript) is a parameter of the step.

Hashes are functions of fixed output width without collisions on the finitely many strings that the two
compared computations hash.  A hash that is injective on all strings does not exist, so nothing is assumed
about other strings.

Some results differ from what the code's documentation says, and the model follows the code:

- `RetryUtils.RecoversIffACallCanProbe`: the breaker's documentation has it pass from OPEN to HALF_OPEN after
  its timeout.  The retry helper rejects every new call while the breaker is OPEN without asking it, so a
  breaker used through it alone recovers only through a call from before that has an attempt left, and whose
  next attempt falls on the probe time or later.
- `LedgerWorker.SavedLedgerIsDispatchedIff`: the worker's documentation promises zero data loss, and takes a
  range whose lock it does not get for one that another node is processing.  A batch without its lock returns as
  if it were done, and its own lost reply (`LostReplyLosesBatch`) or its own earlier key (`StaleLockLosesBatch`)
  is enough for that.
- `AuditVerifier.MovedColumnBoundaryIsInvisible`: "any discrepancy" is reported, but the columns of an
  entry are hashed without separators, so an alteration that moves text across a column boundary is not one;
  nor is any alteration of a column that is not hashed.
- `IpfsHash.CountIsNeededIff`: a root does not bind the number of leaves.  Every list other than of one leaf shares
  its root with the list of that root alone, so the count has to be trusted along with the root.
- `Idempotency.LateFinishBreaksExclusion`: when a handler's finish event comes after the entry was
  dropped and taken again, it frees an entry that is not its own.  `ExclusionIffOrderly` gives the exact order
  that prevents it: no request is let through while a handler of its key has responded and not yet finished.
  `LetThroughOnlyWithoutEntry` says when one can be: after a status of 500 or above, or once the TTL has passed.
- `DriftDetector.AgreesUnlessRecreated`: the detector says that it mirrors the handlers, which ignore a second
  creation, while it takes the escrow to be active again.
- `RefreshTokens.RunKeepsInv`: the oldest tokens by last use are evicted, but every active token has no
  last use, so the database may return any of them.
- `ReputationService.RepeatIsCounted`: a repeated call is a no-op on the event table, as its comment says,
  but it still counts in the record.
- `TextPayout.ValidTemplatePaysOutIff`: amounts are validated as rounded numbers and released as the texts they
  are, so a template with a fraction, or with amounts from 2^53 on that only rounding brings under the total,
  validates and cannot be paid out.
- `ComplianceCsv.RoundTripIff`: field contents always survive, header names only if they need no escaping.
- `TenantScope.StaysHomeIff`: a tenant named in the written data wins over the caller's own.

## Model

| member | source | states |
|---|---|---|
| RefreshTokens.RevokedFamilyNeverRotates | backend/services/refreshTokenService.js:121-336 | Once a family is revoked, by a call or by reuse detection, no token of it is ever accepted for rotation again, in any later run, also after the seven-day blacklist entry has lapsed or was cleaned up |
| RefreshTokens.StepKeepsDead | backend/services/refreshTokenService.js:121-157 | Every call leaves a revoked family with only tokens from before the revocation, barred for as long as one may be unexpired |
| RefreshTokens.StepKeepsBarred | backend/services/tokenBlacklistService.js:75-100 | No call shortens the entry of a family or a user before the tokens it bars have expired |
| RefreshTokens.RevokedUserIsKeptOut | backend/services/refreshTokenService.js:390-411 | Revoking all of a user's tokens refuses every token issued by then for good, and tokens of later logins until the entry lapses |
| RefreshTokens.RunKeepsInv | backend/services/refreshTokenService.js:28-157 | In every reachable state a family has at most one active record and one user, a user at most five active unexpired records, and no active record was ever used, so the eviction order is open |
| RefreshTokens.StepKeepsInv | backend/services/refreshTokenService.js:211-336 | Each call keeps that invariant, wherever its writes stop |
| RefreshTokens.CapLeavesRoom | backend/services/refreshTokenService.js:58-87 | However the database picks them, deactivating count - 5 + 1 tokens leaves fewer than five active unexpired ones |
| RefreshTokens.SpentTokenStaysSpent | backend/services/refreshTokenService.js:222-292 | A token whose record was retired is never accepted again, also after its record was deleted, and presenting it while the record exists counts as reuse |
| RefreshTokens.RotatingSpends | backend/services/refreshTokenService.js:303-320 | A rotation that got as far as deactivating the record has spent the token, even if it then fails |
| RefreshTokens.ReuseEndsFamily | backend/services/refreshTokenService.js:242-266 | Reuse of a known token leaves its family without an active record |
| RefreshTokens.RotationContinues | backend/services/refreshTokenService.js:303-356 | The token a rotation hands out is itself accepted from then until it expires |
| RefreshTokens.OthersLeaveATokenAlone | backend/services/refreshTokenService.js:28-432 | Calls for other users and families, and the cleanups, leave an unexpired token's record as it is and do not change whether it is accepted later |
| RefreshTokens.LoginIsAccepted | backend/services/refreshTokenService.js:28-116 | The token a login hands out is accepted from then until it expires, unless the blacklist stands in its way |
| RefreshTokens.RevokedTokenIsSpent | backend/services/refreshTokenService.js:366-385 | A token whose revocation went through is never accepted again, in any later run, and counts as reuse while its record exists |
| RefreshTokens.RevokedTokenIsKeptOut | backend/services/refreshTokenService.js:371-377 | From the first write of its revocation on, with or without a record, its own entry keeps a token out in every run that does not take the entry off: for good if it was issued by then, and in any case until the entry lapses |
| RefreshTokens.RevokingAllEndsAll | backend/services/refreshTokenService.js:390-411 | Revoking all of a user's tokens leaves the user without an active record |
| RefreshTokens.CleanupRemovesTheExpired | backend/services/refreshTokenService.js:416-432 | A cleanup that works removes exactly the user's records of expired tokens |
| RefreshTokens.TokenService.RotateRefreshToken | backend/services/refreshTokenService.js:211-361 | The new state for every outcome and every point of failure; it succeeds exactly when the token is accepted and all writes go through |
| RefreshTokens.TokenService.WriteRotation | backend/services/refreshTokenService.js:303-356 | The writes of an accepted rotation, in order, up to the one that fails |
| RefreshTokens.TokenService.CreateRefreshToken | backend/services/refreshTokenService.js:28-116 | Cleanup, cap and the new record, up to the write that fails |
| RefreshTokens.TokenService.RevokeTokenFamily | backend/services/refreshTokenService.js:121-157 | The family's entry, and exactly the active records of the family that are the user's deactivated |
| RefreshTokens.TokenService.SiblingTokenIds | backend/services/refreshTokenService.js:129-145 | The loop collects exactly the user's active records of the family |
| RefreshTokens.TokenService.RevokeRefreshToken | backend/services/refreshTokenService.js:366-385 | The token's entry and its record deactivated, up to the write that fails |
| RefreshTokens.TokenService.RevokeAllUserTokens | backend/services/refreshTokenService.js:390-411 | The user's entry and all its active records deactivated, up to the write that fails |
| RefreshTokens.TokenService.CleanupExpiredTokens | backend/services/refreshTokenService.js:416-432 | Deletes the user's expired records; a failure is ignored |
| TokenBlacklist.EntriesOutliveTokens | backend/services/tokenBlacklistService.js:75-100 | When an entry may have lapsed, every token issued before it has reached its own expiry in whole seconds |
| TokenBlacklist.CleanupChangesAnswerIff | backend/services/tokenBlacklistService.js:240-261 | A cleanup changes what a later check answers only for an entry that expires at that very instant |
| TokenBlacklist.ReasonOf | backend/services/tokenBlacklistService.js:146-174 | There is a reason exactly when the token is blocked |
| TokenBlacklist.Blacklist.Add | backend/services/tokenBlacklistService.js:41-100 | Registry and cache take the entry, for seven days |
| TokenBlacklist.Blacklist.RemoveFromBlacklist | backend/services/tokenBlacklistService.js:181-189 | Drops the token's own entry and no other |
| TokenBlacklist.Blacklist.IsTokenBlacklisted | backend/services/tokenBlacklistService.js:118-139 | True exactly when the token, its family or its user has a live entry |
| TokenBlacklist.Blacklist.GetBlacklistMetadata | backend/services/tokenBlacklistService.js:146-174 | The reason of the first live entry in that order |
| TokenBlacklist.Blacklist.CleanupExpiredEntries | backend/services/tokenBlacklistService.js:240-261 | Removes exactly the expired entries from both stores and counts them |
| EventIndexer.DatabaseIsAPrefixProjection | backend/services/eventIndexer.js:392-522 | Over any run of overlapping ticks, failures, re-fetches and restarts the database is the fold of the handlers over a prefix of the chain, each event once, and nothing before the cursor is missing from it |
| EventIndexer.RowsAreThePrefix | backend/services/eventIndexer.js:530-543 | The event rows are exactly the known events of that prefix |
| EventIndexer.BalanceIsCreatedLessReleased | backend/services/eventIndexer.js:98-257 | An escrow's balance is the amount of its first creation less each later release taken off once |
| EventIndexer.EffectOnAmounts | backend/services/eventIndexer.js:98-257 | What one event does to the amounts of any escrow |
| EventIndexer.MilestoneIsItsEvents | backend/services/eventIndexer.js:134-233 | A milestone has a row exactly after its first mil_add, with that amount, the status of the last later event that sets one or else pending, and the times of its last submission and of its last approval or rejection |
| EventIndexer.EffectOnMilestone | backend/services/eventIndexer.js:134-233 | What one event does to the row of a milestone |
| EventIndexer.DisputeIsItsEvents | backend/services/eventIndexer.js:281-340 | A dispute has a row exactly after its first dis_rai, with who raised it and when, and the settlement of the last later dis_res, each amount in its role |
| EventIndexer.ReputationIsTheLastScore | backend/services/eventIndexer.js:346-369 | A reputation is the score of the address's last event |
| EventIndexer.EscrowIsItsCreation | backend/services/eventIndexer.js:98-130 | An escrow keeps the parties, time and ledger of its first creation |
| EventIndexer.FaultlessTickCatchesUp | backend/services/eventIndexer.js:489-522 | Without a fault, and with escrows created before their milestones and disputes, a tick handles everything it fetched, whatever of it was handled before |
| EventIndexer.FaultlessDispatch | backend/services/eventIndexer.js:392-451 | And one dispatch passes over an event handled before, and handles the next one |
| EventIndexer.DispatchExtends | backend/services/eventIndexer.js:392-451 | Dispatching an event of the prefix again changes nothing; dispatching the next one extends the prefix by it, or fails without trace |
| EventIndexer.StopsAtFirstThrow | backend/services/eventIndexer.js:461-483 | After the first failure the rest of a fetch is not dispatched |
| EventIndexer.StepKeepsInv | backend/services/eventIndexer.js:489-522 | Each step of a tick keeps the database a prefix projection that covers the cursor |
| EventIndexer.Indexer.Handle | backend/services/eventIndexer.js:98-369 | The new rows for each of the eleven event types |
| EventIndexer.Indexer.DispatchEvent | backend/services/eventIndexer.js:392-451 | All or nothing with the event row; a row already there means success without effect |
| EventIndexer.Indexer.Tick | backend/services/eventIndexer.js:500-517 | The cursor, then its saved copy, advance only when every event was dispatched |
| DriftDetector.ProjectedStatusIsInferred | backend/services/escrowDriftDetector.js:40-64 | On any chain the status left by the handlers is the one the detector infers, if the escrow's events start with its only creation |
| DriftDetector.AgreesUnlessRecreated | backend/services/escrowDriftDetector.js:40-64 | For every chain and every escrow with a row, the inferred status is the handlers' unless the last status event is a creation that follows one of another kind after the first creation, and then it is not |
| DriftDetector.ProjectedIsHandled | backend/services/eventIndexer.js:98-332 | The status the handlers leave, from the escrow's own events alone |
| DriftDetector.ProjectedDriftsIff | backend/services/escrowDriftDetector.js:40-64 | On the projected status an escrow is reported exactly when some status event follows a resolution or cancellation, or it was created again last |
| DriftDetector.FindStatusDrift | backend/services/escrowDriftDetector.js:74-98 | The scan reports, in order, exactly the escrows of its batch that drift from their own events, with the inferred status and the last event, however all events are interleaved |
| DriftDetector.GroupByEscrow | backend/services/escrowDriftDetector.js:88-93 | The map of lists holds each escrow's rows in order |
| DriftDetector.RowsForKeepsEvents | backend/services/escrowDriftDetector.js:83-86 | The queried rows of an escrow are its events on the chain |
| DriftDetector.DetectDrift | backend/services/escrowDriftDetector.js:40-64 | No drift exactly when nothing continues after an end and the inferred status is the stored one; otherwise the reason, with the first event that comes after an end, and the last event |
| DriftDetector.FlagsExactly | backend/services/escrowDriftDetector.js:47-49 | The flag raised inside the loop means exactly that a status event comes after an end |
| DriftDetector.SecondCreationLooksStale | backend/services/escrowDriftDetector.js:12-18 | Without the condition on creations the two disagree |
| DriftDetector.StatusAfter | backend/services/eventIndexer.js:264-332 | What one event does to the status of any escrow |
| LockManager.AtMostOneLiveHolder | backend/services/lockManager.js:33-138 | Over every interleaving of acquire, renew, release and time, with requests or replies lost, at most one lock on a key is within its TTL and not released |
| LockManager.OthersCannotTouchAHolder | backend/services/lockManager.js:33-48 | No other token's step changes a live holder's entry |
| LockManager.StaleHolderChangesNothing | backend/services/lockManager.js:71-110 | A renew or release changes an entry only if its own token is the one held, and only that entry |
| LockManager.GrantedIffFree | backend/services/lockManager.js:123-138 | A delivered acquire ends in a live lock exactly when no one holds the key unexpired |
| LockManager.RenewalExtends | backend/services/lockManager.js:71-89 | A live holder's renewal extends its entry by the full TTL, and the holder stays live for that long in every run in which it does not release |
| LockManager.ReleaseFreesTheKey | backend/services/lockManager.js:99-110 | A live holder's release frees the key |
| LockManager.StepKeepsInv | backend/services/lockManager.js:71-138 | Each step keeps every live lock backed by its entry |
| LockManager.Redis.Acquire | backend/services/lockManager.js:123-138 | A lock exactly when the key was free and the reply arrived |
| LockManager.Lock.Renew | backend/services/lockManager.js:71-89 | Extends only an entry it owns; stops its timer on learning that it does not |
| LockManager.Lock.Release | backend/services/lockManager.js:99-110 | Deletes only an entry it owns and stops its timer |
| LockManager.Lock.StartRenewal | backend/services/lockManager.js:63-69 | Starts the timer, at half the TTL |
| LedgerWorker.TicksTile | backend/workers/escrowIndexer.js:365-405 | With the lease kept, under failure at any step, two ticks never overlap, the batches that returned tile (start, cursor] with widths up to the batch size, and the saved cursor is never ahead |
| LedgerWorker.SavedLedgerIsDispatchedIff | backend/workers/escrowIndexer.js:341-405 | A ledger behind the saved cursor has its events dispatched, by then or at any later time in any run, if and only if some processBatch with its range's lock moved the cursor past it, or came that far before it failed; otherwise each one that moved the cursor past it returned without the lock |
| LedgerWorker.NoneLostIfAllLocked | backend/workers/escrowIndexer.js:341-363 | If every batch that returned had its range's lock, every ledger behind the saved cursor was dispatched |
| LedgerWorker.LostReplyLosesBatch | backend/workers/escrowIndexer.js:85-98 | One lost reply of Redis makes the batch find its own key, be skipped, and its events never be dispatched |
| LedgerWorker.StaleLockLosesBatch | backend/workers/escrowIndexer.js:103-108 | A lost release after a failed fetch does the same at the next tick |
| LedgerWorker.SkipsAHeldRange | backend/workers/escrowIndexer.js:90-97 | A batch whose range stays held through its tries is skipped and the cursor saved behind it |
| LedgerWorker.RestartResumesBehindReturnedBatches | backend/workers/escrowIndexer.js:143-160 | Every ledger behind the cursor a restart resumes from was in a batch that returned normally, dispatched or not |
| LedgerWorker.PastIsPast | backend/workers/escrowIndexer.js:388-393 | What lies behind the saved cursor is never taken up again |
| LedgerWorker.TickIsAlone | backend/workers/escrowIndexer.js:375-380 | Two running ticks that hold the lease are the same tick |
| LedgerWorker.StepKeepsInv | backend/workers/escrowIndexer.js:341-405 | Each step keeps the tiling, the saved cursor, and the account of what was dispatched |
| LedgerBatch.TilesCover | backend/workers/escrowIndexer.js:388-393 | Tiling batches cover every ledger and no ledger twice |
| LedgerBatch.DispatchedIff | backend/workers/escrowIndexer.js:341-363 | The ledgers dispatched are those that some attempt with its lock passed or reached; of the others every attempt that passed them was without |
| LedgerBatch.RangeLockWorks | backend/workers/escrowIndexer.js:85-110 | A try takes a free range for thirty seconds and leaves a held one; a release frees the caller's own range and no other |
| LedgerBatch.Worker.AcquireLock | backend/workers/escrowIndexer.js:85-98 | The tries, with lost requests and replies, up to the first that succeeds |
| LedgerBatch.Worker.ProcessBatch | backend/workers/escrowIndexer.js:341-363 | What a batch dispatched, whether it threw, and the range keys it leaves, for every course of tries, fetch, dispatch and release |
| LedgerBatch.Worker.Tick | backend/workers/escrowIndexer.js:375-405 | Cursor, saved cursor, range keys and backoff for every course of a tick: a failure, and nothing else, doubles the backoff up to its limit and keeps every finished batch; without one the tick catches up and the backoff is reset |
| LedgerBatch.Worker.NextBatch | backend/workers/escrowIndexer.js:388-393 | One round of the catch-up loop: the batch behind the cursor, and the save |
| LedgerBatch.HarmlessCatchesUp | backend/workers/escrowIndexer.js:388-405 | A catch-up fails only if some batch throws or is not saved |
| IpfsHash.MerkleRoot | backend/services/ipfsHashService.js:47-64 | The level-by-level loop ends, and computes the root of the tree defined top down |
| IpfsHash.RootBinds | backend/services/ipfsHashService.js:47-64 | Two lists of one length of digests have the same root exactly when they are equal |
| IpfsHash.LevelsBind | backend/services/ipfsHashService.js:53-61 | Equal levels of two trees over digests mean equal leaves |
| IpfsHash.CountIsNeededIff | backend/services/ipfsHashService.js:47-64 | Which lists of digests share their root with a list of another length: all but those of one leaf, and those of one leaf exactly when it is the digest of `empty` or of a text of two digests' width |
| IpfsHash.OddListHidesItsLength | backend/services/ipfsHashService.js:55-58 | Repeating the last leaf of an odd list of at least three does not change the root either |
| IpfsHash.HashFiles | backend/services/ipfsHashService.js:72-76 | The digests and their root, with which the files verify |
| IpfsHash.HashAll | backend/services/ipfsHashService.js:72-76 | One digest per buffer, in order |
| IpfsHash.VerifyFilesIsExact | backend/services/ipfsHashService.js:97-105 | Against an authentic root and count, verification succeeds exactly when buffers and stored hashes give the original digests |
| AuditVerifier.ComputeChainRoot | backend/services/auditVerifier.js:89-121 | For every positive batch size the streamed root and count are those of the fold over all of the tenant's rows; the loop ends |
| AuditVerifier.Fetch | backend/services/auditVerifier.js:95-109 | From the cursor the database returns the next rows of the log |
| AuditVerifier.HashBatch | backend/services/auditVerifier.js:111-114 | The inner loop extends the chain by the batch |
| AuditVerifier.CursorSkips | backend/services/auditVerifier.js:116-116 | Moving the cursor to a row's id drops exactly the rows up to it |
| AuditVerifier.RowsAfterSelects | backend/services/auditVerifier.js:95-97 | The query selects exactly the tenant's rows above the cursor |
| AuditVerifier.ChainBinds | backend/services/auditVerifier.js:71-121 | Root and count agree exactly when the logs have equal encodings entry by entry |
| AuditVerifier.MovedColumnBoundaryIsInvisible | backend/services/auditVerifier.js:71-81 | Two different entries with one encoding |
| AuditVerifier.Verifier.VerifyTenant | backend/services/auditVerifier.js:216-259 | Sets the baseline once, then reports and locks on a mismatch |
| AuditVerifier.BaselineIsFixed | backend/services/auditVerifier.js:221-228 | Over any run the baseline is that of the tenant's first pass |
| AuditVerifier.PassIsSilentIffUnaltered | backend/services/auditVerifier.js:216-259 | A pass after any run is silent exactly when the log has the encodings the first pass saw |
| AuditVerifier.AlterationIsReported | backend/services/auditVerifier.js:216-259 | After any run, a pass over a log with rows added or taken away, or with one hashed column of some row changed, since the tenant's first pass reports the tenant, and locks its admin features if Redis is up |
| AuditVerifier.OneColumnShows | backend/services/auditVerifier.js:71-81 | Changing any one of id, tenant, category, action, actor and time changes what is hashed |
| AuditVerifier.IdTextIsInjective | backend/services/auditVerifier.js:74-74 | Different ids are written differently |
| CircuitBreaker.RunRefines | backend/lib/circuitBreaker.js:71-183 | The breaker that prunes its failure list refines one that keeps the whole history and counts afresh |
| CircuitBreaker.WindowCountIsExact | backend/lib/circuitBreaker.js:175-183 | With overlapping calls the pruned list has exactly the failures since the last close or reset that lie in the window |
| CircuitBreaker.HistorySinceLastClear | backend/lib/circuitBreaker.js:148-169 | The history that counts is that of the failures since the last close or reset |
| CircuitBreaker.ClosedIsBelowThreshold | backend/lib/circuitBreaker.js:129-140 | A closed breaker holds fewer failures than the threshold |
| CircuitBreaker.OpenHolds | backend/lib/circuitBreaker.js:142-146 | Before its probe time only a reset moves an open breaker |
| CircuitBreaker.NoStartWhileOpen | backend/lib/circuitBreaker.js:71-87 | Between opening and opening + timeout no operation starts, whatever late results arrive, unless reset |
| CircuitBreaker.ProbeAfterTimeout | backend/lib/circuitBreaker.js:129-146 | At the probe time the next call is let through, and its failure opens the breaker again for the full timeout |
| CircuitBreaker.RefusedIffShut | backend/lib/circuitBreaker.js:71-77 | Over every run a call is refused if and only if some step opened the breaker less than the timeout ago and no one has reset it since |
| CircuitBreaker.ModeChanges | backend/lib/circuitBreaker.js:115-173 | What one more step does to the mode after any run, from its steps alone: a closed breaker opens exactly on the failure that fills its window, a probing one opens on any failure and closes on the success that completes its count, an open one probes on the first call after its timeout, a reset closes it, and nothing else moves it |
| CircuitBreaker.SuccessesSinceProbe | backend/lib/circuitBreaker.js:115-127 | The success count is the number of successes since the probe was let through |
| CircuitBreaker.RecentCounts | backend/lib/circuitBreaker.js:175-178 | Pruning keeps exactly the times after the cutoff, each as often as it occurred |
| CircuitBreaker.Breaker.Transition | backend/lib/circuitBreaker.js:148-173 | The new state of every transition |
| CircuitBreaker.Breaker.StartCall | backend/lib/circuitBreaker.js:71-77 | The answer, for whatever run of steps came before: refused exactly when one of them opened the breaker less than the timeout ago with no reset since; and the new state |
| CircuitBreaker.Breaker.Succeeded | backend/lib/circuitBreaker.js:115-127 | The state after a success |
| CircuitBreaker.Breaker.Failed | backend/lib/circuitBreaker.js:129-140 | The state after a failure |
| CircuitBreaker.Breaker.ResetCircuit | backend/lib/circuitBreaker.js:93-97 | The state after a reset |
| CircuitBreaker.Breaker.ToJson | backend/lib/circuitBreaker.js:102-111 | The count of the recent failures, and the list pruned by counting |
| RetryUtils.RetryDatabaseOperation | backend/lib/retryUtils.js:64-117 | An operation starts at most `attempts` times, never after a rejection, with the outcome and the breaker's state for every script of results; past the first look a turn is rejected exactly when it comes less than the timeout after a step that opened the breaker, with no reset since |
| RetryUtils.Execute | backend/lib/circuitBreaker.js:71-87 | One guarded attempt, with other calls' steps in between |
| RetryUtils.AdmissionIsRight | backend/lib/retryUtils.js:81-90 | A turn of the loop is let through or not by all the steps the breaker made before, the call's own turns and those of others included |
| RetryUtils.RetriedIff | backend/lib/retryUtils.js:33-55 | An error is retried exactly when it has one of the eight codes or its message speaks of a connection or a timeout |
| RetryUtils.DelayGrows | backend/lib/retryUtils.js:102-102 | The first wait is the configured delay, each further one longer by the factor |
| RetryUtils.RecoversIffACallCanProbe | backend/lib/retryUtils.js:72-112 | Reached through the helper alone, with a clock that does not go back, timers that are never early and late by at most some lag, and each call's attempts counted: an open breaker can leave OPEN exactly when some call runs with an attempt left, or sleeps and may still wake at the probe time |
| RetryUtils.RecoversIffAnAttemptIsLeft | backend/lib/retryUtils.js:72-112 | With timers late by any amount: exactly when some call sleeps, or runs with an attempt left |
| RetryUtils.ARunThatProbes | backend/lib/retryUtils.js:97-112 | The run that leads there: sleepers due too early are rejected, then one call probes |
| RetryUtils.RunKeepsValid | backend/lib/retryUtils.js:79-112 | In every run a call sleeps only with an attempt left, and no longer than its delay and the lag |
| RetryUtils.OpenForeverWithoutCallsInProgress | backend/lib/retryUtils.js:72-75 | With no call in progress, no calls at any times ever move it |
| PublicRateLimit.WindowAdmitsAtMostMax | backend/middleware/publicRateLimit.js:65-74 | Each counter window admits at most max increments |
| PublicRateLimit.CounterIsHitsInWindow | backend/middleware/publicRateLimit.js:65-74 | A counter counts exactly the increments of its key since its window opened |
| PublicRateLimit.AdmittedIffBudgetLeft | backend/middleware/publicRateLimit.js:65-74 | An increment stays within the limit exactly when fewer than max came since the window opened, or the window has ended |
| PublicRateLimit.IntervalAdmitsLessThanTwiceMax | backend/middleware/publicRateLimit.js:65-74 | Any half-open interval of a window's length admits at most 2 * max - 1 |
| PublicRateLimit.BoundIsTight | backend/middleware/publicRateLimit.js:65-74 | That bound is reached for every max |
| PublicRateLimit.PassesAreAdmissions | backend/middleware/publicRateLimit.js:132-148 | The requests of an IP past the IP check are the admitted increments of its own key |
| PublicRateLimit.RequestsPerInterval | backend/middleware/publicRateLimit.js:132-165 | The bound for requests of one IP, over every run of requests |
| PublicRateLimit.KeysAreApart | backend/middleware/publicRateLimit.js:141-153 | A wallet's counter is never an address's |
| PublicRateLimit.RateLimiter.MemIncr | backend/middleware/publicRateLimit.js:65-74 | The counter after an increment |
| PublicRateLimit.RateLimiter.Handle | backend/middleware/publicRateLimit.js:132-165 | The verdict and the counters for every request |
| Idempotency.AtMostOneHandlerInFlight | backend/lib/idempotency.js:12-59 | In every run in which no request that is let through finds a handler of its key that has responded and not yet finished, at most one handler per key has started and not finished |
| Idempotency.StoredResponseIsReplayed | backend/lib/idempotency.js:21-51 | Until a timer of its key fires at least the TTL later, a stored response below 500 is given to every same-payload request, without a handler, and every other payload is refused |
| Idempotency.StoredUntilDue | backend/lib/idempotency.js:43-51 | Until it is due nothing replaces or drops a stored response |
| Idempotency.TimerFreesTheKey | backend/lib/idempotency.js:48-48 | Once the TTL has passed its timer can fire, and after that the next request on the key runs its handler |
| Idempotency.ExclusionIffOrderly | backend/lib/idempotency.js:12-59 | Over everything that can happen, there is never more than one handler per key if and only if no request that is let through finds a handler of its key that has responded and not yet finished; handlers still to respond are kept out by the cache alone |
| Idempotency.LetThroughOnlyWithoutEntry | backend/lib/idempotency.js:43-51 | After a response a request on its key is let through only if the status was 500 or above or a timer of the key has since fired, at least the TTL later |
| Idempotency.BusyUntilAnswered | backend/lib/idempotency.js:21-40 | From the request that is let through until its handler responds or finishes, every request on the key is answered as busy or as a conflict, and changes nothing |
| Idempotency.LateFinishBreaksExclusion | backend/lib/idempotency.js:54-56 | A finish after the key was taken again lets two handlers run |
| Idempotency.IdempotencyCache.Middleware | backend/lib/idempotency.js:12-40 | The answer and the entry for every request |
| Idempotency.IdempotencyCache.Json | backend/lib/idempotency.js:43-51 | The entry and the timer a response leaves |
| Idempotency.IdempotencyCache.OnFinish | backend/lib/idempotency.js:54-56 | Frees the key if it is in flight |
| Idempotency.IdempotencyCache.OnTimer | backend/lib/idempotency.js:48-48 | Drops the entry |
| EscrowService.MoneyIsConserved | backend/services/escrowService.js:12-195 | Over every run and for any amounts, the total is what remains, was released and was settled |
| EscrowService.BalancesAreSound | backend/services/escrowService.js:12-195 | With positive fundings no balance is negative, active and disputed escrows hold something, completed ones nothing |
| EscrowService.EndedStays | backend/services/escrowService.js:49-195 | Completed and Cancelled are absorbing |
| EscrowService.DisputedAtMostOnce | backend/services/escrowService.js:93-137 | A dispute is raised at most once per escrow, and its row is there exactly then |
| EscrowService.GoesThroughIff | backend/services/escrowService.js:12-195 | In every reachable state, exactly when each operation goes through |
| EscrowService.DisputeIsAsResolved | backend/services/escrowService.js:93-195 | A dispute row names who raised it and gives client and freelancer what the resolution said, each in their role |
| EscrowService.EscrowIsAsFunded | backend/services/escrowService.js:12-42 | An escrow keeps the amount and the deadline it was funded with |
| EscrowService.MilestoneIsAsLastSet | backend/services/escrowService.js:49-137 | Milestone rows stay, each with the status set by the last release or dispute on it that went through |
| EscrowService.CancelledIffFoundOverdue | backend/services/expiryService.js:72-139 | Over every run an escrow is cancelled exactly when some expiry found it active and past its deadline |
| EscrowService.Ledger.FundEscrow | backend/services/escrowService.js:12-46 | The new escrow, or an error and no change |
| EscrowService.Ledger.ReleaseMilestone | backend/services/escrowService.js:49-90 | The new rows, or the error and no change |
| EscrowService.Ledger.RaiseDispute | backend/services/escrowService.js:93-137 | The new rows, or the error and no change |
| EscrowService.Ledger.ResolveDispute | backend/services/escrowService.js:140-195 | The new rows, or the error and no change |
| EscrowService.Ledger.ExpireEscrow | backend/services/expiryService.js:72-139 | Cancels an active escrow past its deadline and nothing else |
| ExpiryService.ProcessExpiredEscrows | backend/services/expiryService.js:150-223 | With any operations by others between its transactions: the counters tally how each transaction found its escrow, and the whole is a run of the escrow service |
| ExpiryService.CancelledIffExpired | backend/services/expiryService.js:72-139 | Exactly the escrows are cancelled whose own transaction found them still active and past their deadline, whatever others did in between short of another expiry |
| ExpiryService.TurnsAreARun | backend/services/expiryService.js:185-203 | The turns of the loop with what others do make up one run of the escrow service |
| ExpiryService.EveryEscrowCountsOnce | backend/services/expiryService.js:185-203 | Each escrow found is counted once |
| ExpiryService.SkippedTurnChangesNothing | backend/services/expiryService.js:80-96 | A transaction that does not expire its escrow changes nothing |
| ExpiryService.UndisturbedRunLeavesNoMatch | backend/services/expiryService.js:37-60 | With nothing else going on, a run with room left in its batch expires all it found and leaves no match |
| TemplateValidator.ValidateEscrowTemplate | backend/services/escrowTemplateValidator.js:174-231 | Valid exactly when the declarative condition holds, with no error recorded; when comparing the parties throws |
| TemplateValidator.ValidTemplateMeans | backend/services/escrowTemplateValidator.js:174-231 | What a valid template guarantees of each field, spelled out |
| TemplateValidator.ValidMilestonesMean | backend/services/escrowTemplateValidator.js:120-155 | And of each milestone, and that no index repeats |
| TemplateValidator.PlainTemplateIsValid | backend/services/escrowTemplateValidator.js:174-231 | A template of one milestone over the whole amount is valid for any two different addresses and any positive whole amount |
| TemplateValidator.ValidateMilestones | backend/services/escrowTemplateValidator.js:107-159 | No new error exactly when every milestone is well formed and no index repeats; the sum of the amounts |
| TemplateValidator.ValidateMilestone | backend/services/escrowTemplateValidator.js:120-155 | No new error exactly when the milestone is well formed and its index new |
| TemplateValidator.ValidateAmount | backend/services/escrowTemplateValidator.js:76-93 | The amount or the error |
| TemplateValidator.ValidateAddress | backend/services/escrowTemplateValidator.js:36-44 | The error, if any |
| TemplateValidator.ValidateFutureDate | backend/services/escrowTemplateValidator.js:53-66 | The error, if any |
| TemplatePayout.ValidTemplateCanBePaidOut | backend/services/escrowService.js:12-90 | For a valid template of whole amounts below 2^53, funding and then releasing milestones once each in any order never fails, and releasing all completes the escrow exactly when they sum to the total |
| TemplatePayout.PayoutSucceeds | backend/services/escrowService.js:49-90 | The same for any positive amounts within the total, and every partial order |
| TemplatePayout.PickedWithinSum | backend/services/escrowTemplateValidator.js:211-222 | Releasing positions once each takes at most the sum, and all of it when none is left out |
| TemplatePayout.TotalIsSum | backend/services/escrowTemplateValidator.js:107-159 | The validator's sum is the sum of the amounts that are released |
| TemplatePayout.ReadableIffNoPoint | backend/services/escrowTemplateValidator.js:81-92 | Of the accepted amounts `BigInt` reads exactly those written without a decimal point |
| TextPayout.ValidTemplatePaysOutIff | backend/services/escrowService.js:49-90 | For every valid template and any rounding of `parseFloat`: releasing milestones once each succeeds in every order if and only if no amount has a decimal point and the amounts, as the numbers they are, add up to no more than the total; then releasing all completes the escrow exactly when they sum to it |
| TextPayout.PaysOutIff | backend/services/escrowService.js:49-90 | The same for any positive amounts that need not come from a template |
| TextPayout.ReleaseTextIsRelease | backend/services/escrowService.js:60-63 | A release that reads texts is the service's release of the numbers they write |
| TextPayout.BalanceIsWhatIsLeft | backend/services/escrowService.js:60-76 | After releases in any order the stored text reads as the total less what they took |
| TextPayout.DecimalReadsBack | backend/services/escrowService.js:76-76 | The text written for a balance reads back as that balance |
| TextPayout.FractionIsNotReleased | backend/services/escrowTemplateValidator.js:82-92 | A template over 10.5 that validates, is funded, and whose release throws |
| TextPayout.RoundedAmountIsNotReleased | backend/services/escrowTemplateValidator.js:89-89 | A template that validates although its milestone exceeds the total, for any two whole numbers that `parseFloat` rounds to one |
| TextPayout.FirstRoundedPair | backend/services/escrowTemplateValidator.js:89-89 | The texts of 2^53 and 2^53 + 1 are such a pair: their values, and the one number that both are rounded to |
| TextPayout.NearestPairIsNotReleased | backend/services/escrowTemplateValidator.js:89-89 | With `parseFloat` rounding to nearest, ties to even, between 2^53 and 2^54, every such pair that is rounded to one number gives a template that validates and whose release fails |
| TextPayout.Nearest | backend/services/escrowTemplateValidator.js:89-89 | The even number within one of a whole number in that range, with an even half in a tie |
| CacheService.RefinesPlain | backend/services/cacheService.js:35-67 | Over every run with a monotone clock every read gives what a plain map from keys to values and expiry times would |
| CacheService.TagSetsAreExact | backend/services/cacheService.js:57-66 | A tag holds exactly the keys tagged since it was last invalidated |
| CacheService.InvalidateTagIsExact | backend/services/cacheService.js:221-233 | Invalidating a tag removes those keys and touches no other |
| CacheService.OthersAreInvisible | backend/lib/tenantContext.js:41-51 | Dropping all calls of other tenants changes nothing a tenant reads, if no other name meets its own |
| CacheService.KeysCollideIffNamesMeet | backend/lib/tenantContext.js:41-45 | Scoped keys of two names collide exactly when one name is the other or continues it after a colon; names without colons never do |
| CacheService.MeetingNamesInterfere | backend/lib/tenantContext.js:41-45 | And then one tenant can write what the other reads |
| CacheService.TenantsShareNoKey | backend/lib/tenantContext.js:41-45 | Tenants told apart by their slugs, or for want of slugs by their ids, share no key |
| CacheService.FlushReachesTheTenant | backend/services/cacheService.js:199-214 | Flushing a tenant by its slug leaves its context nothing to read |
| CacheService.Cache.CacheGet | backend/services/cacheService.js:109-127 | The unexpired value; an expired entry is dropped; hits and misses are counted |
| CacheService.Cache.CacheSet | backend/services/cacheService.js:129-140 | The entry with its expiry |
| CacheService.Cache.SetWithTags | backend/services/cacheService.js:150-162 | The entry, then every tag |
| CacheService.Cache.TagAll | backend/services/cacheService.js:155-161 | Adds the key to exactly the scoped tags |
| CacheService.Cache.CacheInvalidate | backend/services/cacheService.js:164-170 | Removes the key |
| CacheService.Cache.CacheInvalidatePrefix | backend/services/cacheService.js:172-190 | Removes exactly the keys with the scoped prefix |
| CacheService.Cache.CacheFlushTenant | backend/services/cacheService.js:199-214 | Removes exactly the keys with the tenant's prefix |
| CacheService.Cache.CacheInvalidateTag | backend/services/cacheService.js:221-233 | Removes the tagged keys and the tag |
| ReputationService.FlooredScore | backend/services/reputationService.js:89-228 | The score floored call by call is the plain sum less the least sum of a prefix, and never negative |
| ReputationService.RunningAgainstRecomputed | backend/services/reputationService.js:236-278 | Without repeats the score is never below the recomputed one and equal exactly when no prefix sum is negative or the last is the least; the counters agree |
| ReputationService.HistoryIsCallsLessRepeats | backend/services/reputationService.js:94-120 | With repeats, sums and counters differ from the history by exactly the repeated calls |
| ReputationService.LeastPrefixIsLeast | backend/services/reputationService.js:172-178 | The least prefix sum is a lower bound of all of them, and reached |
| ReputationService.PointsPerMerit | backend/services/reputationService.js:89-228 | Before flooring a score is ten per completion as freelancer, five as client, fifteen per dispute won, less five per dispute lost and eight per cancellation at fault |
| ReputationService.StoredIffRecorded | backend/services/reputationService.js:94-110 | An event row exists exactly when some call recorded it |
| ReputationService.RepeatIsCounted | backend/services/reputationService.js:109-120 | A repeated completion leaves the history as it was and the record above it |
| ReputationService.Reputation.RecordEscrowCompletion | backend/services/reputationService.js:89-121 | The new rows, up to the write that fails |
| ReputationService.Reputation.RecordDisputeOutcome | backend/services/reputationService.js:131-179 | The new rows, up to the write that fails |
| ReputationService.Reputation.RecordEscrowCancellation | backend/services/reputationService.js:189-228 | The new rows, up to the write that fails; nothing without fault |
| ReputationService.Reputation.RecalculateFromEventHistory | backend/services/reputationService.js:236-278 | Whatever happened before, the selected records are those of the history and the others stay; after a failure, those updated by then |
| ReputationService.Reputation.FoldEvents | backend/services/reputationService.js:247-262 | Sum and counts over the address's events |
| TenantScope.MergeIsExact | backend/lib/prisma.js:56-64 | A merged clause holds on a row exactly when the original does and the row is the tenant's, for nested AND, OR and NOT |
| TenantScope.AndAppend | backend/lib/prisma.js:61-63 | One more clause under AND, given as one clause, a list or not at all, is one more condition |
| TenantScope.ApplyTenantScope | backend/lib/prisma.js:72-113 | The arguments pass unchanged without a tenant, under a bypass or on a model that is not scoped; otherwise the clause of every read, update and delete that is passed on matches exactly the tenant's rows among those asked for |
| TenantScope.PassedWhereIsExact | backend/lib/prisma.js:17-88 | The same of the passed query, for every scoped model |
| TenantScope.PassedRowsHaveATenant | backend/lib/prisma.js:91-110 | What create, createMany and upsert insert is passed on with its columns as given, and with the caller's tenant if it names none |
| TenantScope.Args.Rewrite | backend/lib/prisma.js:81-110 | The arguments are rewritten in place |
| TenantScope.TenantsDoNotInterfere | backend/lib/prisma.js:72-113 | Over every run a tenant's rows are what they would be had the other tenants never been there |
| TenantScope.AnswersDoNotInterfere | backend/lib/prisma.js:72-113 | And so are the answers to its calls |
| TenantScope.StepLeavesOthers | backend/lib/prisma.js:17-113 | A scoped call whose data names no other tenant leaves every other tenant's rows unchanged |
| TenantScope.StepUsesOwnRows | backend/lib/prisma.js:35-113 | Its effect and answer depend on its own tenant's rows alone |
| TenantScope.InsertsItsOwnRows | backend/lib/prisma.js:91-110 | What create, createMany and upsert insert under new ids are the caller's own rows, with the data as given |
| TenantScope.StaysHomeIff | backend/lib/prisma.js:72-113 | For every listed operation: all other tenants' rows stay as they are if and only if the data of every row the call actually writes, matched or inserted, names no other tenant |
| TenantScope.UpdateMovesRows | backend/lib/prisma.js:81-89 | A matched row moves to the tenant that the data of an update names |
| ComplianceCsv.RoundTripIff | backend/services/complianceService.js:461-478 | The output parses back to the header row and all field texts, whatever the fields hold, exactly when no header needs escaping |
| ComplianceCsv.FieldsAreTheValues | backend/services/complianceService.js:461-478 | What comes back is, under each header, the row's own value, and nothing where it has none or null |
| ComplianceCsv.FileBack | backend/services/complianceService.js:461-478 | Parsing undoes printing for all records |
| ComplianceCsv.QuotedBack | backend/services/complianceService.js:467-469 | A quoted field with doubled quotes parses back, whatever follows it |
| ComplianceCsv.FileConsumes | backend/services/complianceService.js:461-478 | No shorter text than the escaped one parses to the same records |
| ComplianceCsv.RoundTripWithFinalBreakIff | backend/services/complianceService.js:461-478 | Through a parser that takes a final line break for no record, the output comes back exactly when no header needs escaping and it is not one column with an empty last field, which loses its last row |
| ComplianceCsv.FinalBreakBack | backend/services/complianceService.js:474-477 | That parser gives back printed records less an empty last one |
| ComplianceCsv.WithoutKeysPrintsBlankLines | backend/services/complianceService.js:461-478 | When the first row has no keys, as many line feeds are printed as there are rows, and neither parser gets the rows back |

## Left out

- Concurrent rotations of one token, concurrent releases under ReadCommitted, and several processes sharing
  an indexer's saved cursor: the code makes no strong claim there.  A token call reads the clock once.
- Refresh tokens without a family or without user claims, and an explicit `now` for the blacklist cleanup.
- A restart that loses an in-memory blacklist.
- The Redis branches of the cache and the rate limiter, and the counters' headers.
- EventIndexer.DatabaseIsAPrefixProjection: the tenant, a required column and part of the unique key of an event row
  (backend/database/schema.prisma:449-470), which the handlers do not name; the model is the database of one tenant,
  so there the key is transaction hash and event index.
- RefreshTokens.StepKeepsDead: the blacklist is read as the plain map that the cache refines, so the lazy deletion of
  an expired entry is not a step there.
- CacheService.Cache.SetWithTags: the tags are added after an await; runs take the two halves as separate
  steps, so that other calls may come between them, and the method is the undisturbed case.
- How an idempotency key is composed from scope, method and path, wallet extraction and the whitelist's
  parsing in the rate limiter.
- Floating point and dates: `parseFloat`, `parseInt` and `Date.parse` are parameters of the validator;
  times and amounts are integers.
- TemplatePayout.ValidTemplateCanBePaidOut: amounts with decimals and whole amounts from 2^53 on;
  TextPayout.ValidTemplatePaysOutIff covers them.
- TextPayout.PaysOutIff: of what `BigInt` reads, only decimal digits with white space around; no other text passes
  the validator.
- TokenBlacklist.Blacklist.Add: custom lifetimes and those of access tokens.
- AuditVerifier.Verifier.VerifyTenant: the expiry of the admin lock.
- TenantScope.TenantsDoNotInterfere: operations the interceptor does not list, nested writes, and new rows
  that take the id of another tenant's row, whose refusal shows that the id is taken.
- TenantScope.StepLeavesOthers: data that names another tenant, which the interceptor lets through;
  TenantScope.StaysHomeIff covers it.
- RetryUtils.RetryDatabaseOperation: the delays between attempts, of which only the times at which they start matter
  there; RetryUtils.RecoversIffACallCanProbe has them.
- LedgerWorker.SavedLedgerIsDispatchedIff: what other nodes dispatch is not counted, and a ledger counts once all of
  its events are dispatched.
- Growth of the audit log after its baseline, which every later pass reports as an alteration.
- Fund movement on expiry: the code changes only the status.
- The stale count of an expiry run and the errors' texts.
- Reads, badges, completion rate, leaderboard and percentile of the reputation service.
- `createSimplePdf`, report rows and schedules of the compliance service.
- `backend/services/escrowIndexer.js` and the projections of the worker's handlers: they are not tied to a
  unique event row.
- Webhooks, broadcasts, logging, metrics, audit rows of the money operations.
- The archive move, IPFS garbage collection, export jobs, incident and state-machine tables: they would only
  add easy members.
