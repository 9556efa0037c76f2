# Verification model of the job queue library

This project models the stateful managers of the job queue library (a layer over BullMQ and Redis)
and proves what they keep over every run. Redis is a map from keys to records, the clock is a
parameter that never runs backwards in a run, and a queue is a map or a sequence of jobs. Classes
carry the fields that the original objects update; each method states its whole effect, usually as
one step of a state machine given by functions, and the lemmas reason about all runs of that machine.

| module | what it covers |
|---|---|
| `Prelude` | options, distinct lists, and the arbitrary order of a key scan |
| `Glob` | the queue-pattern matcher: leftmost search decides the meaning of `*` |
| `KeyPattern` | the patterns of the KEYS command, and which continuations of a text they match |
| `AccessControl` | entries in the store, the key scan, the cache that writes invalidate, and the access decision |
| `CircuitBreaker` | the breaker with any number of calls in flight, manual open, close and reset, and a callback that may throw |
| `GlobalQueue` | replication of jobs to regions, and failover of the primary by health checks that interleave |
| `DeadLetters` | replay of failed jobs by the DLQ manager, and the older replay of `JobQueue` |
| `Encryption` | key rotation over shared key objects, and what becomes of ciphertexts |
| `Webhooks` | registry, broadcast, the delivery loop with growing pauses, and the delivery history |
| `Processing` | events, handlers, metrics, span and retry decision of one job, and the tally over many |
| `JobChain` | waiting for parent results under one deadline, and stored workflow records |
| `Backoff` | delays, their sums and the retry decision, over exact reals |
| `Idempotency` | records with a time-to-live, clean-ups in two steps, and check-run-record handlers |

Outcomes of the environment are parameters: whether the store answers a call, whether an add throws,
how long a request takes, which failed job `clean` removes. What a failing call does to a property is
part of its statement; where a property fails, the condition under which it holds is given as an
if-and-only-if, with a run for the failing side.

## Where the code differs from its documentation

The model follows the code.

- A custom condition checker never takes effect: entries are stored as JSON, which drops functions
  (`src/core/interfaces/access-control.interface.ts:131-134` promises one). `ipWhitelist` is never
  consulted.
- A principal's id stands unescaped in the pattern of its key scan. An id that is a pattern, such as
  `*`, sees other principals' entries or misses its own, and so does an id that another one extends by a
  colon; writes invalidate only the list of the id written to. `AccessControl.SafeIdsExactly` gives the
  exact condition on ids.
- `README.md:261-276` adds a key and then encrypts. `addKey` never makes a key the active one, so this
  fails until `rotateKey` is called (`Encryption.EncryptWorksExactly`); `rotateKey` takes the new key's
  configuration, not two ids. `initialize` finds the active id but loads no key
  (`Encryption.RestartNeedsKeysAgain`), and a deactivated key goes on encrypting while it is the active
  id.
- A string that is itself valid JSON does not come back from decryption as that string, nor does one
  with a lone surrogate (`Encryption.EncodingIsFaithful`).
- A replay limit of 0 lists every failed job (`DeadLetters.LimitBoundsExactly`), and a replay removes
  whichever failed job `clean` takes, not the one it replayed (`DeadLetters.ReplayConservesExactly`,
  `DeadLetters.DistinctConserveExactly`).
- The older replay puts the dead-letter wrapper, not the original data, on the main queue
  (`DeadLetters.OlderReplayNeverRestores`), under the wrapper job's id, which may be in use there.
- A failed sync replication is swallowed and `addJob` still returns the id; and a region where the id is
  already in use keeps its job while its status says 'replicated' (`GlobalQueue.HoldsNewJobExactly`).
- Delivery attempts are filed under the url while the history is looked up by webhook id, so the history
  of a webhook with an ordinary url is empty (`Webhooks.HistoryMissesDeliveries`). The announced
  `nextRetryAt` of the last attempt names a retry that is never made.
- The documented check-run-record handler runs its effect once only when handlers do not overlap, every
  lookup is answered, and no clean-up deletes a fresh result that replaced an expired one
  (`Idempotency.EffectRunsOnceExactly`; `Idempotency.HandlersLoseResult` is a run of handlers in which one
  does). A record expires by the clock read before it is stored, the store hides it by the time at which it
  arrives; only where the two differ by at most 1 ms is no result ever lost (`Idempotency.KeptExactly`).
- Dependencies share one deadline, so results that are there can go unread after an earlier one times
  out (`JobChain.PresentResultIsMissed`).
- A state-change callback that throws while a success closes the breaker makes the call count as a failure
  as well (`CircuitBreaker.ThrowingCallbackReopensExactly`).

## Model

| member | source | states |
|---|---|---|
| `Glob.MatchesPattern` | src/infrastructure/services/access-control.manager.ts:408-418 | true exactly when the queue name is the pattern with every `*` replaced by some string, for all strings |
| `Glob.MatchesWildcardPattern` | src/infrastructure/services/access-control.manager.ts:420-450 | the same for the branch without the two shortcuts: leftmost search, dropped empty parts and the two end tests together lose no meaning |
| `Glob.PlaceParts` | src/infrastructure/services/access-control.manager.ts:436-443 | the loop succeeds exactly when every part can be placed leftmost behind the previous one |
| `Glob.IndexOf` | src/infrastructure/services/access-control.manager.ts:438 | the least index at or after the start at which the part occurs, -1 exactly when there is none |
| `Glob.FillIsWeave` | src/infrastructure/services/access-control.manager.ts:425 | replacing the stars of a pattern is joining its pieces with the replacements in between: splitting at `*` keeps the meaning |
| `Glob.MatchesByPieces` | src/infrastructure/services/access-control.manager.ts:425-449 | a value matches exactly when it starts with the first piece and the others occur behind it in order, the last one at the very end |
| `Glob.FloatsEarlier` | src/infrastructure/services/access-control.manager.ts:436-443 | exchange step: whatever can be placed behind a later position can be placed behind an earlier one |
| `Glob.GreedyIsComplete` | src/infrastructure/services/access-control.manager.ts:436-449 | leftmost placement of the non-empty pieces plus the end test succeeds exactly when some placement exists |
| `Glob.SearchDecides` | src/infrastructure/services/access-control.manager.ts:425-449 | the whole search, flags included, decides the meaning of any pattern with a star |
| `KeyPattern.CanExtendExactly` | src/infrastructure/services/access-control.manager.ts:250 | a decidable test of a key pattern and a beginning holds exactly when some continuation of the beginning matches |
| `KeyPattern.AllContinuationsExactly` | src/infrastructure/services/access-control.manager.ts:250 | every continuation of a beginning matches exactly when the beginning does and the tokens behind some star accept every character |
| `KeyPattern.PlainPrefix` | src/infrastructure/services/webhook.manager.ts:165 | a plain text followed by a star matches exactly the keys that begin with the text |
| `KeyPattern.SpecialCharacters` | src/infrastructure/services/access-control.manager.ts:250 | a question mark stands for one character, a backslash takes a special one literally |
| `KeyPattern.CharacterClasses` | src/infrastructure/services/access-control.manager.ts:250 | a class stands for one of the characters listed, or with `^` for any other |
| `KeyPattern.CharacterRanges` | src/infrastructure/services/access-control.manager.ts:250 | a range in a class may come in either order |
| `AccessControl.CatchesExactly` | src/infrastructure/services/access-control.manager.ts:250-251 | the test `Catches` holds exactly when the scan for one id sees some key of the other |
| `AccessControl.FindsItselfExactly` | src/infrastructure/services/access-control.manager.ts:250-251 | the test `FindsItself` holds exactly when the scan for an id sees all its own keys |
| `AccessControl.ScanSees` | src/infrastructure/services/access-control.manager.ts:250-251 | whether a scan sees a key depends on the id's tokens and the key behind the entry root only |
| `AccessControl.PlainIdsAreSafeExactly` | src/infrastructure/services/access-control.manager.ts:250-251 | ids without pattern characters are safe exactly when none is another one followed by a colon and more |
| `AccessControl.SafeIsColonPrefixFree` | src/infrastructure/services/access-control.manager.ts:475-477 | safe ids never extend one another by a colon |
| `AccessControl.KeysAreDistinct` | src/infrastructure/services/access-control.manager.ts:475-477 | entries of different (principal, pattern) pairs of such ids have different keys |
| `AccessControl.OtherKeys` | src/infrastructure/services/access-control.manager.ts:471-477 | tenant and audit keys never fall under the scanned entry prefix |
| `AccessControl.TenantKeysDiffer` | src/infrastructure/services/access-control.manager.ts:471-473 | different tenants have different keys, and none is an audit key |
| `AccessControl.ScanMeansGrants` | src/infrastructure/services/access-control.manager.ts:250-259 | for safe ids the scan returns exactly the entries last granted to the principal |
| `AccessControl.GrantKeeps` | src/infrastructure/services/access-control.manager.ts:155-172 | a grant keeps the store equal to the last writes |
| `AccessControl.RevokeKeeps` | src/infrastructure/services/access-control.manager.ts:177-194 | so does a revocation |
| `AccessControl.StepKeeps` | src/infrastructure/services/access-control.manager.ts:155-304 | so does every operation: grant, revoke, query, tenant and audit writes |
| `AccessControl.RunKeeps` | src/infrastructure/services/access-control.manager.ts:155-194 | after every run over ids none of which extends another by a colon the store holds exactly the last writes |
| `AccessControl.GrantedExactly` | src/infrastructure/services/access-control.manager.ts:155-194 | a pair has an entry exactly when its last write was a grant, and it is the entry granted then, all but a custom checker |
| `AccessControl.UnseenWrite` | src/infrastructure/services/access-control.manager.ts:155-194 | a write that a principal's scan does not see leaves that principal's entries alone |
| `AccessControl.StepCoheres` | src/infrastructure/services/access-control.manager.ts:155-271 | with ids whose scans see no other's keys every operation keeps cached lists equal to what a scan would find |
| `AccessControl.RunCoheres` | src/infrastructure/services/access-control.manager.ts:155-271 | so they are after every run |
| `AccessControl.QueriesFollowLastWrites` | src/infrastructure/services/access-control.manager.ts:243-271 | with safe ids, after every run a query lists exactly what was last granted to the principal |
| `AccessControl.DecisionsFollowLastWrites` | src/infrastructure/services/access-control.manager.ts:155-238 | and access is allowed exactly when some entry last granted to the principal, as it was granted, matches the queue, carries the permission, is unexpired and has no hours or includes the present one |
| `AccessControl.SafeIdsExactly` | src/infrastructure/services/access-control.manager.ts:155-271 | over all runs the cache is coherent exactly when no id's scan sees another id's keys, and access is decided by the last writes exactly when, besides, every id's scan sees all its own keys |
| `AccessControl.StaleAfterGrant` | src/infrastructure/services/access-control.manager.ts:155-172 | where one id's scan sees another's keys, a run after which a cached list is stale |
| `AccessControl.AllowedByOthersGrant` | src/infrastructure/services/access-control.manager.ts:243-271 | and a run in which one principal is allowed by the other's grant |
| `AccessControl.DeniedDespiteGrant` | src/infrastructure/services/access-control.manager.ts:243-271 | where an id's scan misses a key of its own, a run in which a granted principal is denied |
| `AccessControl.StarIsNeverSafe` | src/infrastructure/services/access-control.manager.ts:250-251 | the id `*` beside any other id breaks both |
| `AccessControl.ContextNeverMatters` | src/infrastructure/services/access-control.manager.ts:155-161 | on every run, whatever the ids, no decision depends on the request's context: custom checkers do not survive storage |
| `AccessControl.EveryoneSees` | src/infrastructure/services/access-control.manager.ts:278-279 | the scan for everyone sees every entry key and nothing outside the entry prefix |
| `AccessControl.QueueListsFollowLastWrites` | src/infrastructure/services/access-control.manager.ts:276-304 | after every run a queue's access list is exactly the granted entries of all principals whose pattern matches it |
| `AccessControl.QueueListsExactly` | src/infrastructure/services/access-control.manager.ts:276-304 | that holds on all runs exactly for ids none of which extends another by a colon |
| `AccessControl.GrantLostToRevoke` | src/infrastructure/services/access-control.manager.ts:177-194 | for other ids, a run in which revoking the one principal's grant removes the other's |
| `AccessControl.AccessControlManager.constructor` | src/infrastructure/services/access-control.manager.ts:27-30 | an empty store and empty caches |
| `AccessControl.AccessControlManager.CreateTenant` | src/infrastructure/services/access-control.manager.ts:35-50 | the tenant stored and cached, entries untouched; nothing when the store is unreachable |
| `AccessControl.AccessControlManager.DeleteTenant` | src/infrastructure/services/access-control.manager.ts:135-150 | the tenant gone from store and cache, entries untouched |
| `AccessControl.AccessControlManager.AuditAccess` | src/infrastructure/services/access-control.manager.ts:309-335 | one audit record written, failures swallowed, no entry touched |
| `AccessControl.AccessControlManager.GrantAccess` | src/infrastructure/services/access-control.manager.ts:155-172 | the entry stored unchanged but for a custom checker and the cached list of the principal dropped, or an error and no change |
| `AccessControl.AccessControlManager.RevokeAccess` | src/infrastructure/services/access-control.manager.ts:177-194 | the entry gone and the cached list of the principal dropped, or an error and no change |
| `AccessControl.AccessControlManager.GetPrincipalAccess` | src/infrastructure/services/access-control.manager.ts:243-271 | the query step, for any id: the cached list, else the scanned entries, which are then cached; an empty uncached list when the store is unreachable |
| `AccessControl.AccessControlManager.IsAceAllowed` | src/infrastructure/services/access-control.manager.ts:225-238 | true exactly when pattern, permission, expiry and conditions all allow the request |
| `AccessControl.AccessControlManager.CheckAccess` | src/infrastructure/services/access-control.manager.ts:199-223 | true exactly when some entry of the queried list allows the request; denied when nothing can be read |
| `AccessControl.AccessControlManager.GetQueueAccess` | src/infrastructure/services/access-control.manager.ts:276-304 | each entry of any principal whose pattern matches the queue, once |
| `CircuitBreaker.Trailing` | src/infrastructure/services/circuit-breaker.manager.ts:102-125 | the length of the longest suffix of outcomes of one kind |
| `CircuitBreaker.RunCounts` | src/infrastructure/services/circuit-breaker.manager.ts:91-141 | every step keeps the counters: in every reachable interleaved state success plus failure counts equal the outcomes counted, each consecutive counter the matching suffix, and the statistics' state the breaker's |
| `CircuitBreaker.ClosedIsBelowThreshold` | src/infrastructure/services/circuit-breaker.manager.ts:116-141 | with a numeric threshold of at least 1 a closed breaker has fewer consecutive failures, except between a manual close and the next finish or reset |
| `CircuitBreaker.BelowThresholdExactly` | src/infrastructure/services/circuit-breaker.manager.ts:84-141 | that holds without exception on all runs exactly for thresholds of at least 1 and without manual closes |
| `CircuitBreaker.ClosedByHandAboveThreshold` | src/infrastructure/services/circuit-breaker.manager.ts:84-86 | for every such threshold, a run after which a manual close leaves the breaker closed at it |
| `CircuitBreaker.ClosedAfterFailure` | src/infrastructure/services/circuit-breaker.manager.ts:116-141 | a breaker closed right after a failure had too few failures in a row, too few requests, or 100 x failures below percentage x requests |
| `CircuitBreaker.OpenStep` | src/infrastructure/services/circuit-breaker.manager.ts:42-58 | exactly a close, a reset or an attempt at the retry time leads out of OPEN; late finishes neither leave it nor move the retry time |
| `CircuitBreaker.OpenIsHeld` | src/infrastructure/services/circuit-breaker.manager.ts:42-58 | after opening at time t no call begins before t + timeout, whatever earlier calls finish meanwhile, unless closed or reset by hand |
| `CircuitBreaker.ClosesAfterSuccesses` | src/infrastructure/services/circuit-breaker.manager.ts:102-114 | every automatic move to CLOSED completes at least `successThreshold` consecutive successes |
| `CircuitBreaker.ThrowingCallbackReopensExactly` | src/infrastructure/services/circuit-breaker.manager.ts:50-57 | a closing success whose state-change callback throws counts as a failure too, and opens the breaker again exactly when that failure meets the threshold |
| `CircuitBreaker.MovesExactly` | src/infrastructure/services/circuit-breaker.manager.ts:42-159 | in every run the next state follows from the present one, the retry time and the outcomes since the last reset, and the retry time moves, to the time plus the timeout, exactly when the breaker opens |
| `CircuitBreaker.OpensExactly` | src/infrastructure/services/circuit-breaker.manager.ts:116-141 | exactly manual opens, failures in half-open state, and failures that meet the numeric or percentage threshold open the breaker |
| `CircuitBreaker.FailedProbeReopens` | src/infrastructure/services/circuit-breaker.manager.ts:116-125 | a failure in half-open state opens the breaker again for the whole timeout |
| `CircuitBreaker.BeginsExactly` | src/infrastructure/services/circuit-breaker.manager.ts:42-48 | a call begins exactly when the breaker is not open, or its retry time has come and the callback does not throw |
| `CircuitBreaker.OutcomesFollowEvents` | src/infrastructure/services/circuit-breaker.manager.ts:91-125 | each outcome is counted for the call that ends, at its time, and only a reset forgets outcomes |
| `CircuitBreaker.ClosingSuccessesAreRecent` | src/infrastructure/services/circuit-breaker.manager.ts:47-125 | without manual opens and overlapping calls all closing successes began after the breaker last left OPEN |
| `CircuitBreaker.RecencyPolicyExactly` | src/infrastructure/services/circuit-breaker.manager.ts:42-141 | for each configuration and policy: that holds on all runs exactly without manual opens and, besides, without overlapping calls or with a percentage above 100 |
| `CircuitBreaker.OverlapCountsOldSuccesses` | src/infrastructure/services/circuit-breaker.manager.ts:42-114 | for every configuration that can open, an overlapping run in which calls begun before the opening help to close the breaker |
| `CircuitBreaker.ManualOpenKeepsOldSuccesses` | src/infrastructure/services/circuit-breaker.manager.ts:77-114 | for every configuration, a sequential run in which a manual open keeps old successes counting |
| `CircuitBreaker.CircuitBreaker.constructor` | src/infrastructure/services/circuit-breaker.manager.ts:35-37 | a closed breaker with zero counters |
| `CircuitBreaker.CircuitBreaker.BeginExecute` | src/infrastructure/services/circuit-breaker.manager.ts:42-48 | refuses exactly when OPEN before the retry time or when the callback about leaving OPEN throws; at the retry time it leaves OPEN either way |
| `CircuitBreaker.CircuitBreaker.FinishExecute` | src/infrastructure/services/circuit-breaker.manager.ts:50-57 | the success or failure step of the state machine, a throwing callback included; `MovesExactly` says where it leads |
| `CircuitBreaker.CircuitBreaker.OpenManually` | src/infrastructure/services/circuit-breaker.manager.ts:77-79 | the manual open step, and whether the callback throws out of it |
| `CircuitBreaker.CircuitBreaker.CloseManually` | src/infrastructure/services/circuit-breaker.manager.ts:84-86 | the manual close step, and whether the callback throws out of it |
| `CircuitBreaker.CircuitBreaker.ResetAll` | src/infrastructure/services/circuit-breaker.manager.ts:91-100 | the reset step, and whether the callback throws out of it |
| `CircuitBreaker.CircuitBreaker.Success` | src/infrastructure/services/circuit-breaker.manager.ts:102-114 | the new state after a success, as the state machine has it, and whether the callback throws |
| `CircuitBreaker.CircuitBreaker.Failure` | src/infrastructure/services/circuit-breaker.manager.ts:116-125 | the new state after a failure, as the state machine has it, and whether the callback throws |
| `CircuitBreaker.CircuitBreaker.Transition` | src/infrastructure/services/circuit-breaker.manager.ts:143-159 | the new state after a transition, complete before the callback is called; entering OPEN sets the retry time |
| `GlobalQueue.AsyncReaches` | src/infrastructure/services/global-queue.manager.ts:283-316 | async replication leaves the job in exactly the target regions whose add works, besides where it was |
| `GlobalQueue.SyncReaches` | src/infrastructure/services/global-queue.manager.ts:283-316 | sync replication leaves it in exactly the targets before the first failing one, regions without a queue skipped |
| `GlobalQueue.HeldJobsStay` | src/infrastructure/services/global-queue.manager.ts:249-316 | replication never drops or changes a job that is held |
| `GlobalQueue.RepeatingChangesNothing` | src/infrastructure/services/global-queue.manager.ts:249-316 | repeating a replication changes nothing, and once every target holds the job no outcomes change anything |
| `GlobalQueue.AddedJobIsWhere` | src/infrastructure/services/global-queue.manager.ts:85-122 | after adding a job its id is in use in the primary, in exactly the other regions reached and where it was before; where it was the job found there stays, elsewhere there is the primary's |
| `GlobalQueue.HoldsNewJobExactly` | src/infrastructure/services/global-queue.manager.ts:85-122 | with an id free in the primary, a region that holds the id holds the new job exactly when the id was free there too or in use for the same job |
| `GlobalQueue.CollisionLeavesOtherJob` | src/infrastructure/services/global-queue.manager.ts:283-346 | a run in which a region counts as holding the job but keeps another one under its id |
| `GlobalQueue.OffCopiesNothing` | src/infrastructure/services/global-queue.manager.ts:249-253 | with replication off or not configured every queue stays as it is |
| `GlobalQueue.StableSortSorts` | src/infrastructure/services/global-queue.manager.ts:442-444 | sorting orders the candidates by priority |
| `GlobalQueue.StableSortKeepsOrder` | src/infrastructure/services/global-queue.manager.ts:442-444 | and keeps those of one priority in their order |
| `GlobalQueue.SortedHead` | src/infrastructure/services/global-queue.manager.ts:434-444 | the head of the sorted candidates is the best eligible region; none is eligible when there is none |
| `GlobalQueue.SelectIsBest` | src/infrastructure/services/global-queue.manager.ts:434-448 | automatic failover picks the answering region other than the primary with the least priority (missing = 999), the first configured on ties, and otherwise keeps the primary |
| `GlobalQueue.SelectsLeastPriority` | src/infrastructure/services/global-queue.manager.ts:428-449 | on the configured fields: the region chosen has answered, is not the primary, has the least priority number, a missing one being 999, and is the first of that number; without such a region the primary stays |
| `GlobalQueue.FirstAnswering` | src/infrastructure/services/global-queue.manager.ts:434-448 | without priorities the first answering region other than the primary is picked |
| `GlobalQueue.FirstPrimary` | src/infrastructure/services/global-queue.manager.ts:68-74 | the initial primary is the first region flagged primary, the first of all when none is |
| `GlobalQueue.FirstFlagged` | src/infrastructure/services/global-queue.manager.ts:69 | the first region flagged primary, none exactly when none is flagged |
| `GlobalQueue.PrimaryIsConfigured` | src/infrastructure/services/global-queue.manager.ts:201-457 | in every interleaving of health ticks and manual failovers the primary is a configured region |
| `GlobalQueue.GatheringIsPrimary` | src/infrastructure/services/global-queue.manager.ts:416-426 | without overlapping ticks, the tick that gathers answers is that of the current primary |
| `GlobalQueue.FailoverPicksBest` | src/infrastructure/services/global-queue.manager.ts:416-457 | without overlapping ticks an automatic failover leaves the region that failed its ping for the best region that answered |
| `GlobalQueue.OverlapLeavesHealthyPrimary` | src/infrastructure/services/global-queue.manager.ts:416-457 | a concrete overlapping run that moves the primary on from a region that has just answered |
| `GlobalQueue.FailoverPolicyExactly` | src/infrastructure/services/global-queue.manager.ts:416-457 | failovers leave only the region whose ping failed on all runs exactly when ticks do not overlap, or failover is off, or all regions have one name |
| `GlobalQueue.NewPrimaryAnswered` | src/infrastructure/services/global-queue.manager.ts:231-244 | the primary moves exactly when another region has a client and answers its ping, and then to such a region |
| `GlobalQueue.GatheringMeansFailedPing` | src/infrastructure/services/global-queue.manager.ts:416-426 | answers are gathered only after a ping that failed while its region was the primary, with failover enabled |
| `GlobalQueue.FailedPingGathers` | src/infrastructure/services/global-queue.manager.ts:416-426 | after such a ping they are; after any other answer the tick is over |
| `GlobalQueue.PrimaryMovesOnly` | src/infrastructure/services/global-queue.manager.ts:201-226 | the primary moves only by a manual failover to a configured region or by a tick that has gathered its answers |
| `GlobalQueue.GlobalQueueManager.constructor` | src/infrastructure/services/global-queue.manager.ts:20-24 | no queues, no configuration, no primary |
| `GlobalQueue.GlobalQueueManager.Initialize` | src/infrastructure/services/global-queue.manager.ts:29-60 | on success every configured region has its queue and the primary is a configured region with a queue; on failure the configuration and the queues created before the failing region stay, the primary does not change |
| `GlobalQueue.GlobalQueueManager.InitializeRegions` | src/infrastructure/services/global-queue.manager.ts:62-66 | the queues of the regions before the first that cannot be opened are created, the others are as before |
| `GlobalQueue.OpenedExactly` | src/infrastructure/services/global-queue.manager.ts:378-407 | each opened region has the queue that its store holds, the other queues are as before |
| `GlobalQueue.GlobalQueueManager.AddJob` | src/infrastructure/services/global-queue.manager.ts:85-122 | the exact queues afterwards; an error and no change without a primary queue or when its add fails; only the primary without replication; a failed replication is swallowed and the id still returned |
| `GlobalQueue.GlobalQueueManager.ReplicateJob` | src/infrastructure/services/global-queue.manager.ts:249-273 | the exact queues afterwards, unchanged when replication is off, no targets are given or the primary does not hold the job |
| `GlobalQueue.GlobalQueueManager.ReplicateToRegions` | src/infrastructure/services/global-queue.manager.ts:263-265 | the loop over targets refines the declarative copy to the regions reached |
| `GlobalQueue.GlobalQueueManager.ReplicateToRegion` | src/infrastructure/services/global-queue.manager.ts:283-316 | one copy, skipped without a queue, failing when the add fails |
| `GlobalQueue.GlobalQueueManager.GetReplicationStatus` | src/infrastructure/services/global-queue.manager.ts:321-346 | 'replicated' exactly where the id is held, 'pending' exactly for the other configured regions with a queue; empty when some lookup throws |
| `GlobalQueue.GlobalQueueManager.FailoverTo` | src/infrastructure/services/global-queue.manager.ts:201-226 | moves the primary exactly to a region with a queue, else reports it missing |
| `GlobalQueue.GlobalQueueManager.PingAnswered` | src/infrastructure/services/global-queue.manager.ts:416-426 | goes on to failover exactly for an unhealthy primary with failover enabled |
| `GlobalQueue.GlobalQueueManager.HandleFailover` | src/infrastructure/services/global-queue.manager.ts:428-457 | the new primary is the best of the regions that have a client and answered; without one the primary stays |
| `DeadLetters.FindsById` | src/core/services/dlq/dlq-manager.ts:155 | looking a job up by id finds one exactly when some job has it |
| `DeadLetters.ReplayConservesExactly` | src/core/services/dlq/dlq-manager.ts:148-176 | for every queue and outcome one replay conserves the multiset of (name, data) exactly when it finds nothing, throws before adding, or `clean` takes a failed job equal to the one replayed; and the number of jobs exactly when it adds nothing or some job is failed |
| `DeadLetters.WaitingJobIsDoubled` | src/core/services/dlq/dlq-manager.ts:155-167 | a queue without failed jobs on which a replay adds a copy and removes nothing |
| `DeadLetters.AllConserve` | src/core/services/dlq/dlq-manager.ts:183-207 | any calls that each conserve the work conserve it together, whatever `clean` takes |
| `DeadLetters.ReplayBalances` | src/core/services/dlq/dlq-manager.ts:148-207 | whatever the queue does in a whole replay, the work afterwards with what `clean` took is the work before with what was added |
| `DeadLetters.ReplayAllConservesExactly` | src/core/services/dlq/dlq-manager.ts:148-207 | so a whole replay conserves the multiset of (name, data) exactly when all it removes is all it adds |
| `DeadLetters.GoneForGood` | src/core/services/dlq/dlq-manager.ts:148-207 | work that has left the queue during a replay does not come back |
| `DeadLetters.DistinctConserveExactly` | src/core/services/dlq/dlq-manager.ts:148-207 | for jobs no two of which are alike, it does so exactly when every single call does, each `clean` taking the job just replayed |
| `DeadLetters.CountIsConserved` | src/core/services/dlq/dlq-manager.ts:183-207 | for every removal order and every pattern of failing calls no job is lost, and the number grows by exactly the duplicates of a failing `clean` |
| `DeadLetters.ListingOrderMoves` | src/core/services/dlq/dlq-manager.ts:183-207 | with removal in listing order the first k failed jobs are moved, in order, and counted |
| `DeadLetters.ReplayDLQConserves` | src/core/services/dlq/dlq-manager.ts:183-207 | for a limit of at least 1 `replayDLQ` then moves exactly the first min(limit, failed) jobs, conserves the work and returns that number |
| `DeadLetters.LimitBoundsExactly` | src/core/services/dlq/dlq-manager.ts:101-122 | how many jobs are listed for any limit; it bounds what is replayed exactly when it is at least 1 or nothing is listed; 0 replays everything |
| `DeadLetters.LastFirstLosesWork` | src/core/services/dlq/dlq-manager.ts:164-167 | a concrete queue on which removal from the other end loses a job and doubles another |
| `DeadLetters.DLQManager.constructor` | src/core/services/dlq/dlq-manager.ts:20-31 | the manager over a queue |
| `DeadLetters.DLQManager.GetDLQJobs` | src/core/services/dlq/dlq-manager.ts:101-122 | the listed prefix, empty when disabled or when listing throws |
| `DeadLetters.DLQManager.ReplayJob` | src/core/services/dlq/dlq-manager.ts:148-176 | the exact queue and result for every point at which the queue may throw |
| `DeadLetters.DLQManager.ReplayDLQ` | src/core/services/dlq/dlq-manager.ts:183-207 | the loop performs the replays of the listed jobs one after the other and counts the successes |
| `DeadLetters.IdsAfter` | src/JobQueue.ts:416-432 | after the older replay an id is in use exactly when it was before or was replayed |
| `DeadLetters.JobsAfter` | src/JobQueue.ts:416-432 | jobs of the main queue are never touched; a replayed job whose id was free arrives as it was |
| `DeadLetters.SizeAfter` | src/JobQueue.ts:416-432 | the main queue grows by the replayed jobs less the id collisions |
| `DeadLetters.OlderReplayBalances` | src/JobQueue.ts:416-432 | the multiset of (name, data) in the main queue and the dead letters loses exactly the replayed jobs whose ids were in use |
| `DeadLetters.OlderReplayConservesExactly` | src/JobQueue.ts:416-432 | the older replay conserves the number of jobs, and the multiset of (name, data), exactly when no replayed id is in use in the main queue |
| `DeadLetters.DeadLettersWrapFailures` | src/JobQueue.ts:380-411 | over any run every dead letter carries the name, id, data, attempts and error of a job that the main queue held when it failed |
| `DeadLetters.OlderReplayNeverRestores` | src/JobQueue.ts:380-432 | over any run every job that the older replay adds is such a wrapper, one level deeper than the job that failed, and equals no submitted job |
| `DeadLetters.MainIdsFollow` | src/JobQueue.ts:380-432 | which ids are in use in the main queue after each operation |
| `DeadLetters.MainHoldsSubmissionsAndWrappers` | src/JobQueue.ts:380-432 | so the main queue holds nothing but jobs as submitted and wrappers around failed ones |
| `DeadLetters.TripReturnsExactly` | src/JobQueue.ts:380-432 | failing a job and replaying brings it back, wrapped and under the next dead-letter id, exactly when that id is free in the main queue; otherwise the wrapper is gone |
| `DeadLetters.TripsDeepen` | src/JobQueue.ts:380-432 | while the next ids are free each trip through the dead letters brings a job back under the next one, one level deeper |
| `DeadLetters.JobQueue.MoveJobToDLQ` | src/JobQueue.ts:380-411 | one wrapped job more in the dead letter queue; nothing without one or when the add throws |
| `DeadLetters.JobQueue.ReplayDLQ` | src/JobQueue.ts:416-432 | the exact queues for every point at which an add or a remove may throw |
| `Encryption.CacheIsInstalled` | src/infrastructure/services/encryption.manager.ts:180-291 | a manager that starts with an empty cache has cached exactly the keys installed and not removed since |
| `Encryption.MaterialStays` | src/infrastructure/services/encryption.manager.ts:59-291 | the key material cached under an id stays over any run that replaces no material and removes no cached key |
| `Encryption.DecryptsWithSameMaterial` | src/infrastructure/services/encryption.manager.ts:114-175 | decryption gives the parsed plaintext back as long as the encrypting material is cached under its id |
| `Encryption.RefusedWithOtherMaterial` | src/infrastructure/services/encryption.manager.ts:114-175 | otherwise a lawful cipher exists that does not decrypt |
| `Encryption.EncodingIsFaithful` | src/infrastructure/services/encryption.manager.ts:59-175 | data survive encoding exactly when they are no string, or a string without lone surrogates that is not valid JSON |
| `Encryption.SurvivesExactly` | src/infrastructure/services/encryption.manager.ts:59-175 | what is encrypted in one state decrypts in another for every suitable cipher exactly when the material cached under the key's id is the same, and to the original exactly when, besides, the data survive encoding |
| `Encryption.CiphertextsSurviveExactly` | src/infrastructure/services/encryption.manager.ts:59-291 | over any run of all operations a ciphertext issued at one step decrypts to its data at a later one, for every suitable cipher, exactly when the key installed under its id has the same material at both and the data survive encoding |
| `Encryption.CiphertextsSurvive` | src/infrastructure/services/encryption.manager.ts:59-272 | in particular every ciphertext survives encryptions, deactivations, and rotations and additions that replace no material |
| `Encryption.ReplacedMaterialLosesCiphertext` | src/infrastructure/services/encryption.manager.ts:180-224 | a concrete run in which replaced material loses a ciphertext |
| `Encryption.ActiveKeys` | src/infrastructure/services/encryption.manager.ts:199-224 | in rotate-only runs cache and store agree, hold the keys rotated to, and mark active exactly the last one and one with an empty id |
| `Encryption.OneActiveKeyExactly` | src/infrastructure/services/encryption.manager.ts:199-224 | in rotate-only runs exactly the last key is active exactly when its id is empty or no key with an empty id has been rotated to |
| `Encryption.EmptyIdLeavesTwoActive` | src/infrastructure/services/encryption.manager.ts:202 | a concrete run with an empty key id that leaves two keys active |
| `Encryption.ActiveIsLastRotated` | src/infrastructure/services/encryption.manager.ts:199-224 | the id encrypted with is that of the last rotation, else the one found at the start |
| `Encryption.EncryptWorksExactly` | src/infrastructure/services/encryption.manager.ts:59-109 | encryption works exactly when that id is not empty and a key is installed under it with a supported algorithm and material the cipher can use; adding keys alone never enables it and deactivation does not disable it |
| `Encryption.RestartNeedsKeysAgain` | src/infrastructure/services/encryption.manager.ts:39-54 | on every run after a restart nothing encrypts until a key is installed again under the active id, and a ciphertext is refused exactly as long as no key is installed under its id |
| `Encryption.RestartDecrypts` | src/infrastructure/services/encryption.manager.ts:39-54 | a ciphertext from before a restart decrypts once its material is installed again under its id |
| `Encryption.FirstActiveIsFirst` | src/infrastructure/services/encryption.manager.ts:39-54 | the active key found in a listing is the first one marked active, and found exactly when there is one |
| `Encryption.EncryptionManager.constructor` | src/infrastructure/services/encryption.manager.ts:31-34 | an empty cache and no active key over an existing store |
| `Encryption.EncryptionManager.Initialize` | src/infrastructure/services/encryption.manager.ts:39-54 | the active id becomes that of a stored active key, the first of a listing, and stays when there is none; nothing else changes, the cache included |
| `Encryption.EncryptionManager.EncryptData` | src/infrastructure/services/encryption.manager.ts:59-109 | the encryption of the state; which error comes exactly when |
| `Encryption.EncryptionManager.DecryptData` | src/infrastructure/services/encryption.manager.ts:114-175 | the decryption of the state, or the error |
| `Encryption.EncryptionManager.AddKey` | src/infrastructure/services/encryption.manager.ts:180-194 | store and cache both updated, neither when the store fails |
| `Encryption.EncryptionManager.DeactivateKey` | src/infrastructure/services/encryption.manager.ts:256-272 | the shared key object is marked inactive in place, and stored when the store works |
| `Encryption.EncryptionManager.RetireActive` | src/infrastructure/services/encryption.manager.ts:201-208 | the first half of a rotation, with and without a working store |
| `Encryption.EncryptionManager.ActivateKey` | src/infrastructure/services/encryption.manager.ts:210-212 | the second half of a rotation, with and without a working store |
| `Encryption.EncryptionManager.RotateKey` | src/infrastructure/services/encryption.manager.ts:199-224 | the whole new state for every combination of working and failing writes; when one fails the old id stays in use |
| `Encryption.EncryptionManager.RemoveKey` | src/infrastructure/services/encryption.manager.ts:277-291 | removed from store and cache, or from neither |
| `Webhooks.AttemptsAreNumbered` | src/infrastructure/services/webhook.manager.ts:323-392 | the records of a delivery are numbered 1, 2, ... and tell event, url, status, time and whether another try is announced |
| `Webhooks.AttemptsMadeUnique` | src/infrastructure/services/webhook.manager.ts:323-350 | the endpoint's replies determine how many attempts a delivery makes |
| `Webhooks.DeliveryInRecords` | src/infrastructure/services/webhook.manager.ts:323-392 | from the records: at most the allowed number, only the last can have a status from 200 to 299, and when there are fewer it has, or the strategy is best effort |
| `Webhooks.AttemptKeysDiffer` | src/infrastructure/services/webhook.manager.ts:431-438 | attempts of one delivery with different numbers have different keys |
| `Webhooks.DeliveryIsRecorded` | src/infrastructure/services/webhook.manager.ts:431-438 | no record of a delivery overwrites another one: what was written is in the store |
| `Webhooks.PausesClosedForm` | src/infrastructure/services/webhook.manager.ts:394-401 | k attempts sleep 2500 k (k - 1) ms in total |
| `Webhooks.AnnouncedRetryExactly` | src/infrastructure/services/webhook.manager.ts:380-401 | the announced `nextRetryAt` is early by exactly the time that recording takes, and the retry is made exactly when the attempt was not the last one allowed |
| `Webhooks.StartIsWorkPlusPauses` | src/infrastructure/services/webhook.manager.ts:323-401 | an attempt starts after all earlier latencies, recordings and pauses |
| `Webhooks.AttemptKeyIsNoWebhookKey` | src/infrastructure/services/webhook.manager.ts:431-442 | attempt records share the scanned prefix with webhooks but never a key |
| `Webhooks.InHistoryExactly` | src/infrastructure/services/webhook.manager.ts:213-215 | attempts are filed under the url: the history of a webhook id has an attempt exactly when url, event id and number continue the id and `:attempts:` |
| `Webhooks.HistoryNeedsIdLikeUrl` | src/infrastructure/services/webhook.manager.ts:213-215 | so only attempts on urls that begin like a webhook id are ever found |
| `Webhooks.HistoryMissesDeliveries` | src/infrastructure/services/webhook.manager.ts:213-438 | recording any attempts on other urls leaves every history as it was, although the records are in the store |
| `Webhooks.DeliveredButNotInHistory` | src/infrastructure/services/webhook.manager.ts:213-438 | a delivery that succeeds and is recorded, and the empty history of its webhook |
| `Webhooks.RecordingKeepsWebhooks` | src/infrastructure/services/webhook.manager.ts:431-438 | recording attempts leaves every registered webhook as it was |
| `Webhooks.WebhookManager.RegisterWebhook` | src/infrastructure/services/webhook.manager.ts:37-78 | one more registered webhook, or the validation or store error and no change |
| `Webhooks.WebhookManager.GetWebhook` | src/infrastructure/services/webhook.manager.ts:126-158 | the registered webhook, not found exactly when there is none |
| `Webhooks.WebhookManager.UpdateWebhook` | src/infrastructure/services/webhook.manager.ts:83-101 | of exactly this webhook each field that is given has the new value, and each other field the old one |
| `Webhooks.WebhookManager.EnableWebhook` | src/infrastructure/services/webhook.manager.ts:292-304 | exactly this webhook is active, its other fields unchanged |
| `Webhooks.WebhookManager.DisableWebhook` | src/infrastructure/services/webhook.manager.ts:309-321 | exactly this webhook is inactive, its other fields unchanged |
| `Webhooks.NothingAfterDeactivation` | src/infrastructure/services/webhook.manager.ts:83-208 | after an update that deactivates a webhook no event is sent to it |
| `Webhooks.UnwantedGetsNothing` | src/infrastructure/services/webhook.manager.ts:194-197 | a webhook that is inactive or not subscribed is sent nothing |
| `Webhooks.WebhookManager.DeleteWebhook` | src/infrastructure/services/webhook.manager.ts:106-121 | exactly this webhook goes |
| `Webhooks.WebhookManager.Write` | src/infrastructure/services/webhook.manager.ts:62-66 | store, cache and registrations agree after a write |
| `Webhooks.WebhookManager.TryAttempt` | src/infrastructure/services/webhook.manager.ts:352-392 | one attempt, its record for both ways of failing, and whether the loop stops |
| `Webhooks.WebhookManager.RecordAttempt` | src/infrastructure/services/webhook.manager.ts:431-438 | one record written under the url's key, failures ignored |
| `Webhooks.WebhookManager.Round` | src/infrastructure/services/webhook.manager.ts:323-350 | one round of the loop: an attempt, its record, and the pause if the delivery goes on |
| `Webhooks.WebhookManager.RunAttempts` | src/infrastructure/services/webhook.manager.ts:323-350 | attempts 1..k with k the first accepted one or the allowed number (one with best effort, none when none is allowed), their records and the total sleep |
| `Webhooks.WebhookManager.DeliverWebhook` | src/infrastructure/services/webhook.manager.ts:323-350 | the same, with all registered webhooks kept |
| `Webhooks.AfterOneMore` | src/infrastructure/services/webhook.manager.ts:194-200 | the store after one delivery more is that delivery's records on top of the earlier ones |
| `Webhooks.SentToAll` | src/infrastructure/services/webhook.manager.ts:194-200 | deliveries made in listing order for each record that wants the event go to each such key once |
| `Webhooks.WebhookManager.ListWebhooks` | src/infrastructure/services/webhook.manager.ts:163-185 | everything stored under the prefix, attempt records included |
| `Webhooks.WebhookManager.GetDeliveryHistory` | src/infrastructure/services/webhook.manager.ts:213-235 | the newest attempts whose keys match the history pattern, newest first and up to the limit; none when the store does not answer |
| `Webhooks.WebhookManager.Broadcast` | src/infrastructure/services/webhook.manager.ts:194-200 | one whole delivery for each listed record that is active and subscribed, and the store after them |
| `Webhooks.WebhookManager.SendEvent` | src/infrastructure/services/webhook.manager.ts:190-208 | one whole delivery to each active registered webhook subscribed to the event and to nothing else, although attempts are scanned too |
| `Processing.WithoutKeepsOrder` | src/core/services/events/event-handler-registry.ts:34-40 | removing a handler keeps the others in order |
| `Processing.HandlersInOrder` | src/core/services/events/event-handler-registry.ts:19-60 | after any registrations and removals an event's handlers are exactly those registered and not removed since, in order of registration |
| `Processing.RunPerforms` | src/core/services/processing/job-processing-orchestrator.ts:58-175 | whatever throws, a run emits STARTED first, then its final events, none of them twice, and calls every handler that an event has when it is emitted once and in order |
| `Processing.RunInFull` | src/core/services/processing/job-processing-orchestrator.ts:58-175 | a run in full, for any behaviour of span, strategy and metrics: span start, STARTED announced, the processor once if there is one, then COMPLETED and the end of the span or the rescue, each event with its handlers and metrics directly behind it |
| `Processing.ProcessorRunsOnce` | src/core/services/processing/job-processing-orchestrator.ts:58-76 | the processor runs exactly once when there is one, behind STARTED with all its handler calls and before every other event and its handlers |
| `Processing.ExactlyOneFinalEvent` | src/core/services/processing/job-processing-orchestrator.ts:58-175 | with a quiet span and a deciding strategy there is exactly one final event, the right one, and the span ends once |
| `Processing.OneFinalEventExactly` | src/core/services/processing/job-processing-orchestrator.ts:58-175 | exactly when, for any behaviour of span and strategy, a run has one final event |
| `Processing.StartedAreAccountedFor` | src/core/services/processing/job-processing-orchestrator.ts:58-175 | over all interleaved runs started = completed + retried + failed + in flight |
| `Processing.EventHandlerRegistry.Register` | src/core/services/events/event-handler-registry.ts:19-26 | registering appends a new handler and changes nothing for a known one |
| `Processing.EventHandlerRegistry.Unregister` | src/core/services/events/event-handler-registry.ts:34-40 | removes exactly this handler and tells whether it was there |
| `Processing.EventHandlerRegistry.GetHandlers` | src/core/services/events/event-handler-registry.ts:47-49 | the handlers of the event, none when unknown |
| `Processing.EventHandlerRegistry.ClearEvent` | src/core/services/events/event-handler-registry.ts:55-61 | no handlers of exactly this event remain |
| `Processing.JobProcessingOrchestrator.RegisterProcessor` | src/core/services/processing/job-processing-orchestrator.ts:46-51 | a name is registered once; registering it again is an error and changes nothing |
| `Processing.JobProcessingOrchestrator.EmitEvent` | src/core/services/events/event-coordinator.ts:151-178 | every handler is called once, in order, whichever of them throw |
| `Processing.JobProcessingOrchestrator.RecordMetric` | src/core/services/metrics/job-metrics-collector.ts:40-96 | the adapter calls up to the first that throws; nothing escapes |
| `Processing.JobProcessingOrchestrator.HandleJobFailure` | src/core/services/processing/job-processing-orchestrator.ts:154-175 | RETRYING when attempts remain, FAILED when not, nothing when the strategy throws |
| `Processing.JobProcessingOrchestrator.CatchFailure` | src/core/services/processing/job-processing-orchestrator.ts:69-75 | exception recorded, span ended, then the retry decision, up to the first call that throws |
| `Processing.JobProcessingOrchestrator.StartJob` | src/core/services/processing/job-processing-orchestrator.ts:78-86 | span, STARTED event and metric, in this order |
| `Processing.JobProcessingOrchestrator.CompleteJob` | src/core/services/processing/job-processing-orchestrator.ts:129-137 | COMPLETED event, metrics, end of span; a span that throws leads into the catch block |
| `Processing.JobProcessingOrchestrator.ProcessJob` | src/core/services/processing/job-processing-orchestrator.ts:58-76 | the whole run performs exactly the specified effects, whatever others register or remove between STARTED and the next event, and returns normally exactly when the processor does and the span ends |
| `Processing.JobProcessingOrchestrator.RunJob` | src/core/services/processing/job-processing-orchestrator.ts:62-75 | the part from the processor lookup on |
| `JobChain.PollStops` | src/infrastructure/services/job-chain.manager.ts:299-313 | polling returns what the store holds before the deadline, else stops at the first poll past it |
| `JobChain.PollLooks` | src/infrastructure/services/job-chain.manager.ts:299-313 | a result present at some polling time before the deadline is found, no later than then |
| `JobChain.WaitingIsBounded` | src/infrastructure/services/job-chain.manager.ts:273-313 | however many dependencies, waiting ends less than 100 ms after the deadline |
| `JobChain.FoundIsHeld` | src/infrastructure/services/job-chain.manager.ts:273-313 | every returned entry is a declared parent with a value the store held while waiting |
| `JobChain.PresentResultsAtOnce` | src/infrastructure/services/job-chain.manager.ts:273-313 | results that all exist at the start are all returned, in no time |
| `JobChain.ReturnsAnsweredPrefix` | src/infrastructure/services/job-chain.manager.ts:273-297 | exactly the parents before the first that times out are returned |
| `JobChain.PollFindsExactly` | src/infrastructure/services/job-chain.manager.ts:299-313 | for results that stay, a poll begun before the deadline succeeds exactly when the result is there at the last polling time |
| `JobChain.AnsweredExactly` | src/infrastructure/services/job-chain.manager.ts:273-313 | for results that stay, the answered parents are those before the first whose result is not there at the last polling time |
| `JobChain.ReturnedExactly` | src/infrastructure/services/job-chain.manager.ts:273-313 | for results that stay, a parent is returned exactly when its result and those of all parents declared before it are there at the last polling time before the shared deadline |
| `JobChain.PresentResultIsMissed` | src/infrastructure/services/job-chain.manager.ts:273-313 | a result that is always there is missed exactly when that of a parent declared earlier is not there at the last polling time |
| `JobChain.RebuildIsSame` | src/infrastructure/services/job-chain.manager.ts:356-373 | rebuilding the step map from its entries gives the same entries in the same order |
| `JobChain.RebuildLastWins` | src/infrastructure/services/job-chain.manager.ts:356-362 | rebuilt from any list, every key has its last value and no other |
| `JobChain.ReadBackFields` | src/infrastructure/services/job-chain.manager.ts:345-373 | field by field, what is read back of a stored workflow |
| `JobChain.RoundTripExactly` | src/infrastructure/services/job-chain.manager.ts:345-373 | reading back a stored workflow gives it back exactly when its times are not zero and its error message is not empty |
| `JobChain.JobChainManager.ExecuteWorkflow` | src/infrastructure/services/job-chain.manager.ts:147-192 | stores a running record without steps run; the two validation errors and an unreachable store change nothing |
| `JobChain.JobChainManager.GetWorkflowStatus` | src/infrastructure/services/job-chain.manager.ts:197-222 | what reading back makes of the workflow as last written, which is that workflow exactly when its fields are legible; not found exactly when there is none |
| `JobChain.JobChainManager.CancelWorkflow` | src/infrastructure/services/job-chain.manager.ts:227-245 | of a legible workflow changes only the status and the completion time, and no other workflow |
| `JobChain.JobChainManager.WaitForDependencyResult` | src/infrastructure/services/job-chain.manager.ts:299-313 | the polling loop computes the polling function |
| `JobChain.JobChainManager.WaitForDependencies` | src/infrastructure/services/job-chain.manager.ts:273-297 | the loop over the declared parents, none when reading them fails, computes the waiting function, all against one start time |
| `Backoff.ScaledIsPower` | src/core/services/retry/retry-strategies/exponential-backoff.strategy.ts:34-43 | repeated doubling is multiplication by a power of two |
| `Backoff.DelaysNeverShrink` | src/core/services/retry/retry-strategies/exponential-backoff.strategy.ts:34-43 | capped delays are non-decreasing |
| `Backoff.SaturationExists` | src/core/services/retry/retry-strategies/exponential-backoff.strategy.ts:34-43 | every positive base delay has a first attempt that reaches the maximum |
| `Backoff.SaturatedDelay` | src/core/services/retry/retry-strategies/exponential-backoff.strategy.ts:34-43 | the delay is base x 2^i below that attempt and the maximum from it on |
| `Backoff.DefaultSchedule` | src/core/services/retry/retry-strategies/exponential-backoff.strategy.ts:34-43 | with nothing configured: 1, 2, 4, 8, 16, 32 seconds, then a minute |
| `Backoff.TotalDelayClosedForm` | src/core/services/retry/retry-strategies/exponential-backoff.strategy.ts:34-43 | n delays add up to base x (2^n - 1) up to the saturation attempt s and to base x (2^s - 1) + (n - s) x max beyond |
| `Backoff.LinearNeverExceedsExponential` | src/core/services/retry/retry-strategies/linear-backoff.strategy.ts:34-43 | the linear delay never exceeds the exponential one of the same configuration |
| `Backoff.LinearGrowth` | src/core/services/retry/retry-strategies/linear-backoff.strategy.ts:34-43 | linear delays start at the base and grow by it with every attempt until that reaches the maximum |
| `Backoff.JitterBounds` | src/core/services/retry/retry-strategies/exponential-backoff-with-jitter.strategy.ts:47-60 | the jittered delay lies between the exponential delay and the delay lengthened by the percentage, both capped |
| `Backoff.JitterReachesAll` | src/core/services/retry/retry-strategies/exponential-backoff-with-jitter.strategy.ts:47-60 | every delay between the two, below the maximum, comes from some draw |
| `Backoff.GrantsRemaining` | src/core/services/retry/job-retry-coordinator.ts:34-100 | a failing job is granted exactly its remaining attempts; decision, `canRetry` and the remaining attempts agree |
| `Backoff.RetryDelay` | src/core/services/retry/job-retry-coordinator.ts:34-80 | a retry comes after base x 2^attempt up to the maximum, both from the retry configuration, 3 attempts, 1 s and 60 s by default |
| `Backoff.SumFrom` | src/core/services/retry/job-retry-coordinator.ts:34-78 | the delays granted from any attempt on add up to the rest of the total |
| `Backoff.AlwaysFailingJob` | src/core/services/retry/job-retry-coordinator.ts:34-100 | a job that always fails is retried exactly `maxAttempts` times and waits the closed form in total |
| `Idempotency.PendingIsDecided` | src/infrastructure/services/idempotency.manager.ts:119-131 | a clean-up about to delete a key has read an expired record of it that the store still showed |
| `Idempotency.RecordKept` | src/infrastructure/services/idempotency.manager.ts:28-137 | until written or cleared again a record is in the store exactly as long as no clean-up's deletion of its key lands |
| `Idempotency.FoundExactly` | src/infrastructure/services/idempotency.manager.ts:28-137 | when exactly a recorded result is found |
| `Idempotency.ClearedStaysGone` | src/infrastructure/services/idempotency.manager.ts:157-170 | a cleared key has no record until one is written again |
| `Idempotency.EarlyDeletesAreStale` | src/infrastructure/services/idempotency.manager.ts:119-137 | before a record has expired only deletions decided before it was written can land |
| `Idempotency.TimeToLiveExactly` | src/infrastructure/services/idempotency.manager.ts:28-137 | a result made at t0 for d ms that reaches the store at t1 is found throughout [t1, t0 + d) exactly unless a deletion lands that was decided before the recording, and never from t1 + d + 1000 on |
| `Idempotency.StaleDeleteLosesResult` | src/infrastructure/services/idempotency.manager.ts:119-137 | for every time-to-live and latency with at least 2 ms of rounding and latency together, a run in which such a deletion removes a fresh result |
| `Idempotency.KeptExactly` | src/infrastructure/services/idempotency.manager.ts:28-137 | on all runs whose recordings use time-to-live d > 0 and take at most some latency, every result is found until it expires exactly when that latency and the rounding of d to whole seconds make up at most 1 ms |
| `Idempotency.EffectRepeatsExactly` | README.md:641-668 | while the last result has not expired a handler runs its effect exactly when none had been recorded, or its look fails, or a late deletion has removed the last result |
| `Idempotency.EffectRepeatsBeforeExpiry` | README.md:641-668 | before any result of the key has expired nothing can be lost: the effect runs exactly when none had been recorded or the look fails |
| `Idempotency.HandlersLoseResult` | README.md:641-668 | for every time-to-live of whole seconds, a run of handlers one after the other in which a clean-up deletes the fresh result and the effect runs again |
| `Idempotency.EffectRunsOnceExactly` | README.md:641-668 | sequential handlers, whatever their times-to-live, all find the recorded result until it expires exactly when every look is answered and no late deletion intervenes |
| `Idempotency.IdempotencyManager.RecordExecution` | src/infrastructure/services/idempotency.manager.ts:28-61 | the record expires by the clock reading, and the store hides it by its own landing time, rounded up to whole seconds; refused when no whole second is left or the store does not answer |
| `Idempotency.IdempotencyManager.GetExecutionResult` | src/infrastructure/services/idempotency.manager.ts:66-84 | the record while the store shows it, none when the store does not answer |
| `Idempotency.IdempotencyManager.CleanExpired` | src/infrastructure/services/idempotency.manager.ts:89-117 | undisturbed, deletes exactly the listed records past their expiry whose read and deletion work, and returns their number |
| `Idempotency.IdempotencyManager.CleanKeyIfExpired` | src/infrastructure/services/idempotency.manager.ts:119-137 | the reading half and the deleting half of a clean-up, as two steps of a run with nothing in between |
| `Idempotency.IdempotencyManager.ReadForCleaning` | src/infrastructure/services/idempotency.manager.ts:121-129 | decides for deletion exactly when the store shows an expired record |
| `Idempotency.IdempotencyManager.DeleteKey` | src/infrastructure/services/idempotency.manager.ts:131-132 | deletes whatever the key holds by then |
| `Idempotency.IdempotencyManager.ClearKey` | src/infrastructure/services/idempotency.manager.ts:157-170 | deletes exactly this record, or fails and changes nothing |
| `Idempotency.IdempotencyManager.HandleJob` | README.md:641-668 | runs the effect exactly when no result is found or the look fails; fails when the effect or the recording does |

## Left out

Weaker than the source or under a condition the source does not check:

- AccessControl.AccessControlManager.constructor: requires a key prefix without the pattern characters `*`, `?`, `[` and backslash. The prefix is a constant of the installation (`acl` by default); with a pattern in it scans would return records of other kinds.
- Webhooks.WebhookManager.constructor: has the same condition on its prefix; the idempotency manager is taken to list exactly the keys under its prefix.
- KeyPattern.CanExtendExactly: takes characters for the bytes that the KEYS command compares, so ids outside ASCII are matched character by character.
- GlobalQueue.GlobalQueueManager.HandleFailover: takes the answers of one gathering as given together.
- GlobalQueue.PrimaryIsConfigured: identifies the regions with a queue with the configured ones, as `Initialize` leaves them when it is called once on a new manager.
- Webhooks.WebhookManager.RegisterWebhook: is about ids of the form webhook:<time>:<random>, which is what registration makes; the other webhook operations are about such ids as well.
- JobChain.WaitingIsBounded: counts sleeps of exactly 100 ms and reads that take no time.
- JobChain.ReturnedExactly: is about results that stay once they are there; `ReturnsAnsweredPrefix` is about all results.
- Backoff.DelaysNeverShrink: uses exact reals, so a base delay of 0 stays 0; from attempt 1024 on the source multiplies it by Infinity and yields NaN.
- Backoff.SaturatedDelay: has the same exception; a positive base saturates as in the source.
- Backoff.JitterBounds: uses exact reals, so rounding of the jittered delay is not modelled.
- CircuitBreaker.ClosedAfterFailure: uses exact reals for the percentage, so rounding of the quotient is not modelled.
- Idempotency.EffectRepeatsExactly: is about keys that are not cleared; `TimeToLiveExactly` covers the time up to the next clearing.
- Processing.JobProcessingOrchestrator.ProcessJob: takes the registry to change between STARTED and the next event only; `RunPerforms` is about any handlers that each event may have when it is emitted.
- Processing.StartedAreAccountedFor: is about runs whose span does not throw and whose retry strategy decides; `OneFinalEventExactly` gives the exact condition for one run.
- DeadLetters.ListingOrderMoves: is about a `clean` that takes failed jobs in the order in which they are listed; `ReplayAllConservesExactly`, `DistinctConserveExactly` and `CountIsConserved` are about any order.

Not modelled:

- Access control: interleaving inside one call (a cache fill racing a grant can leave a stale list), a write that takes effect but whose reply is lost, callers that change the returned cached list, tenant reading, updating and listing, and reading the audit log.
- Circuit breaker: the map of breakers by id, and a state-change callback that itself calls `open`, `close` or `reset`.
- Global queue: the wait after a sync copy, statistics, closing, a failover while a job is being added, a primary whose job lookup throws (replication then does nothing), and removal of finished jobs.
- Dead letters: job ids are numbers; the wrapper's original queue, maximal attempts, stack and time; clearing, counting, the notification handler, events and metrics. Which jobs a listing shows first and which one `clean` takes are inputs, because BullMQ decides them.
- `JobQueue`: processing, scheduling, bulk retry and statistics.
- Encryption: the ciphers and random vectors (any functions with the inverse law, any vectors), the JSON codec and the conversion to UTF-8 beyond their laws, key creation and expiry dates, listing of keys.
- Webhooks: the HTTP request (any reply and latency), headers and credentials, redelivery, probing an endpoint.
- Processing: progress events, handlers that change the registry while an event is being emitted, an absent metrics adapter, log lines.
- Job chains: steps of a workflow are stored and never run by the code, so no scheduler is modelled; chain records are kept like workflow records; reads that throw while waiting, and a stored result that is not valid JSON.
- Idempotency: a recording whose reply is lost although it took effect, and stored records that are not valid JSON.
- The one-year and seven-day expiries of stored records; runs are taken to be shorter.
- The fifo queue manager, whose groups never get a queue, and configuration, dependency injection, facade, connection and type files, which would add only easy members.
