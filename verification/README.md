# SecuScan backend: verified model

A Dafny model of the stateful core of SecuScan's backend, with proofs about whole runs of it.
`dafny verify dfyconfig.toml` checks the whole project.

| file | models |
|---|---|
| `ScanRateLimiter.dfy`, `ScanAdmission.dfy`, `HourStretches.dfy`, `ScanVerdicts.dfy` | the two-tier fixed-window limiter of scan requests: the Redis path, the in-memory fallback, switching between them; what fits into a stretch of time; what a check answers |
| `EndpointLimiter.dfy` | the sliding-window limiter of API endpoints, with its pruning |
| `TaskLifecycle.dfy`, `TaskHistories.dfy` | create, acquire, claim, finish, cancel, retry and delete of scan tasks as interleaved steps over rows, slots and executions; what the events of a run say about its state |
| `TaskDeletion.dfy`, `Transactions.dfy` | nested transactions on one connection; chunked deletion as their client |
| `Listeners.dfy` | bounded drop-oldest event queues and the hub that feeds them |
| `Cache.dfy`, `CacheRuns.dfy`, `CacheLifetimes.dfy` | the TTL + LRU cache, its runs against a plain map, and how long entries live |
| `OutputBudget.dfy` | two readers that share one byte budget under a lock |
| `Correlation.dfy`, `Notes.dfy`, `Occurrences.dfy` | staging of raw findings, evidence de-duplication, merged texts and metadata, counts and sightings accumulated over scans |
| `Grouping.dfy`, `ScanDiff.dfy` | grouping for display, comparing two scans |
| `Networks.dfy`, `TargetVerdicts.dfy` | CIDR containment and the safe-mode decision on literal targets, also read off their addresses |
| `Sanitizing.dfy`, `Templates.dfy`, `Rescanning.dfy`, `Commands.dfy` | input cleaning, single-pass template rendering, conditional tokens |
| `Versions.dfy` | npm ranges translated to release comparisons, and the upgrade check |
| `Sorting.dfy`, `Text.dfy`, `Arithmetic.dfy`, `Options.dfy` | shared definitions |

Objects that update fields are classes whose methods are proved against specification functions
(`Limiter.Check` against `CheckOutcome`, `CacheClient.SetJson` against `SetTo`, and so on); the
theorems are about those functions and hold for every run. Concurrency is modelled by machines
whose steps are the blocks of code between two awaits, in any interleaving.

## Where the code and its description differ

* The scan limiter calls itself a sliding window (`rate_limiter.py:4-6`) but counts in aligned
  windows. `SlidingWindowMissed` is a run that admits two requests one second apart at a limit of one a
  minute. With the other tier not binding, a stretch of one window length never exceeds the limit exactly
  if it starts on a window boundary (`StretchWithinLimitIff`); otherwise twice the limit per backend is the
  bound (`StretchBounded`) and is reached (`TwiceTheLimit`). When the minute tier binds as well and minute
  windows are nested in hour windows, an hour's stretch never exceeds the hour limit exactly if no more fits
  into its two parts (`HourStretchIff`); under the shipped limits that is at full hours (`ShippedHourStretch`).
* The two limiter backends agree on every trace exactly when the rate window divides the burst
  window (`BackendsAgreeIffWindowsNest`); `StraddlingWindowDiffers` is a family of traces on which they differ.
* Stored occurrence counts are added twice on every later scan. `StoredCount` is the closed form and
  `CountRightIffOneScan` says when it equals the true total.
* In safe mode without an allow list, a wide target that overlaps a private range may hold public
  addresses; `PrivateExactlyWhenNarrow` says exactly when, `BroadTargetAccepted` is an example.
* Cancelling an outermost transaction in its body, at its COMMIT or at its ROLLBACK leaves the flag up, and
  no later code reaches the disk; a COMMIT that is cut may have been applied all the same. A BEGIN that is cut
  after it was applied leaves SQLite's transaction open without the flag. `CleanIff` says exactly when the
  connection is clean afterwards, `BlockIsAtomic` what is on disk; after a lost BEGIN every further block fails
  until a plain write commits (`LostBeginBlocks`).
* A cancellation that interrupts an error handler before its write leaves the row running until the
  cancel request writes it (`InterruptedHandlerLeavesRowRunning`); that is the only step that takes a
  running row's claimant away (`StepKeepsClaimUnless`, `RunningHasClaimant`).
* The Retry-After header of the endpoint limiter is rounded down; `RetryAfterSuffices` says when a
  client that waits that long passes.
* Cleaning input is not idempotent and can leave a leading dash (`IdempotentIff`, `LeadingDashIff`,
  `HiddenDash`).
* Partial caret and tilde versions and wildcards after three components are not read as npm reads
  them (`CaretIsNpmIff`, `TildeIsNpmIff`, `WildcardExactIff`), and an operator in front of a
  wildcard is lost: `OperatorReadIff` says for which operators and wildcards the translation is right
  all the same, and `OperatorBeforeWildcardIsLost` is an example where it is not.
* Two alternatives with bars between them must both hold, which is right exactly if both admit the same
  releases (`AlternativesReadIff`); `^1 || ^2` admits nothing (`CaretAlternativesAdmitNothing`). A hyphen
  range admits everything (`HyphenAdmitsAll`). A blank after an operator loses the
  operator, and the version becomes a pin, of a prefix if it has one or two components:
  `BlankAfterOperatorIff` says when that is right.
* A conditional token on an input named `else` is split at that name (`ConditionOnElse`,
  `ConditionalRightIff`), and no placeholder inside a conditional token can have a default
  (`NoDefaultsInConditionals`).

## Model

| member | source | states |
|---|---|---|
| ScanRateLimiter.FloatWindowIsWindow | backend/secuscan/rate_limiter.py:91-92 | the fractional clock of the fallback and the whole seconds of Redis put an instant in the same window |
| ScanRateLimiter.PruneKeepsOpenWindows | backend/secuscan/rate_limiter.py:97-104 | pruning by the longer window never removes an instant from a window that is still open |
| ScanRateLimiter.FallbackEffect | backend/secuscan/rate_limiter.py:86-142 | a fallback check admits iff both tiers have room among the instants recorded for the open windows, and records the instant in exactly the two buckets iff it admits |
| ScanRateLimiter.RedisEffect | backend/secuscan/rate_limiter.py:183-244 | a Redis check admits iff both counters are below their limits; the minute counter always grows, the hour counter iff the minute tier passed |
| ScanRateLimiter.HourContainsMinute | backend/secuscan/rate_limiter.py:185-216 | if the rate window divides the burst window, a minute window lies in one hour window |
| ScanRateLimiter.AgreeStep | backend/secuscan/rate_limiter.py:86-256 | with nested windows one step keeps the relation between counters and lists and decides alike on both paths |
| ScanRateLimiter.BackendsAgreeIffWindowsNest | backend/secuscan/rate_limiter.py:86-256 | both backends admit the same requests for all limits and all traces iff the rate window divides the burst window |
| ScanRateLimiter.StraddlingWindowDiffers | backend/secuscan/rate_limiter.py:86-256 | for every other pair of windows, a concrete trace on which Redis rejects the last request and the fallback admits it |
| ScanAdmission.DisabledIff | backend/secuscan/rate_limiter.py:156-158 | a rate limit of zero, and no other, turns the limiter off: every check in every state then admits and changes nothing, and with any other limit one client's checks at one instant are not all admitted |
| ScanAdmission.AdmissionsBounded | backend/secuscan/rate_limiter.py:144-256 | unless the limiter is off: for any Redis failures and any interleaving, each backend admits at most the limit in a client's aligned window of either tier |
| ScanAdmission.StretchMeetsTwoWindows | backend/secuscan/rate_limiter.py:91-92 | a stretch of one window length meets at most two aligned windows |
| ScanAdmission.StretchBounded | backend/secuscan/rate_limiter.py:144-256 | in any stretch of one window length each backend admits at most twice the limit |
| ScanAdmission.TwiceTheLimit | backend/secuscan/rate_limiter.py:91-142 | a run in which one backend admits exactly twice the limit in a stretch that reaches the next window |
| ScanAdmission.StretchWithinLimitIff | backend/secuscan/rate_limiter.py:144-256 | no run exceeds the limit in a stretch of one window length iff the stretch starts on a window boundary, the other tier not binding |
| HourStretches.NeverMore | backend/secuscan/rate_limiter.py:144-256 | no run of either backend admits more in a stretch of an hour window's length than fits before and after the next hour boundary, each part bounded by the hour limit and by the minute limit for every minute window it meets |
| HourStretches.AsMany | backend/secuscan/rate_limiter.py:91-142 | with nested windows some run admits exactly as many |
| HourStretches.HourStretchIff | backend/secuscan/rate_limiter.py:144-256 | with nested windows and any limits, no run exceeds the hour limit in that stretch iff no more fits |
| HourStretches.ShippedHourStretch | backend/secuscan/rate_limiter.py:144-256 | with five a minute and ten an hour that is so iff the stretch starts at a full hour |
| ScanAdmission.SlidingWindowMissed | backend/secuscan/rate_limiter.py:91-142 | one request a minute, and two admitted in seconds 59 and 60 |
| ScanAdmission.CheckIsARun | backend/secuscan/rate_limiter.py:144-256 | an uninterrupted check leaves what the machine's run leaves, and admits iff the run logs an admission |
| ScanAdmission.Limiter.PruneHistory | backend/secuscan/rate_limiter.py:97-104 | the loop over the keys keeps exactly the newer instants and drops the emptied keys |
| ScanAdmission.Limiter.CheckFallback | backend/secuscan/rate_limiter.py:86-142 | the new history and the verdict of the in-memory path, with tier and delay as `FallbackTells` says |
| ScanAdmission.Limiter.TryRedis | backend/secuscan/rate_limiter.py:183-244 | the new counters and the outcome of the two pipelines, including lost replies, as `AttemptTells` says |
| ScanAdmission.Limiter.Check | backend/secuscan/rate_limiter.py:144-256 | the whole check: disabled limiter, missing Redis, the failure flag with its ping, fail-over, with an answer as `CheckTells` says |
| ScanVerdicts.FallbackTells | backend/secuscan/rate_limiter.py:86-142 | a rejection in memory names the minute tier iff that is full and the hour tier iff only that is; after the delay it announces, and no sooner, the clock is in that tier's next window |
| ScanVerdicts.RedisTells | backend/secuscan/rate_limiter.py:183-244 | the same of a check on a healthy Redis, by its counters |
| ScanVerdicts.AttemptTells | backend/secuscan/rate_limiter.py:183-256 | a Redis attempt breaks off iff a reply it needs is missing, and answers like that otherwise |
| ScanVerdicts.CheckTells | backend/secuscan/rate_limiter.py:144-256 | a whole check in any state answers from the counters if Redis answers and from the recorded instants otherwise, with tier and delay; it remembers a failure of Redis until an attempt succeeds |
| ScanVerdicts.CheckTouches | backend/secuscan/rate_limiter.py:144-256 | each counter grows iff its pipeline reached the server; the recorded instants stay if Redis answered |
| ScanVerdicts.FallbackForgets | backend/secuscan/rate_limiter.py:97-104 | after a check in memory exactly the instants younger than one of the windows are left, and its own if it was admitted |
| EndpointLimiter.EndpointRateLimiter.CleanupExpiredIdentities | backend/secuscan/ratelimit.py:173-189 | the sweep, when it is due, keeps the active instants of every identity and drops idle identities |
| EndpointLimiter.EndpointRateLimiter.Call | backend/secuscan/ratelimit.py:191-231 | the new history, the decision, and the header values computed from the oldest recorded instant |
| EndpointLimiter.PruningIsInvisible | backend/secuscan/ratelimit.py:173-231 | in every trace each decision is the one a limiter that never prunes would take |
| EndpointLimiter.WindowNeverOverfull | backend/secuscan/ratelimit.py:194-222 | every stretch of one window holds at most `limit` accepted requests of an identity |
| EndpointLimiter.FullUntilOldestLeaves | backend/secuscan/ratelimit.py:204-208 | a full window has room again exactly from its oldest instant plus one window on |
| EndpointLimiter.RejectedUntilOldestLeaves | backend/secuscan/ratelimit.py:204-219 | after a rejection a request of that identity passes iff it comes at or after oldest + window |
| EndpointLimiter.TimeLeftIsOldest | backend/secuscan/ratelimit.py:205-208 | the time a rejection announces is what its oldest accepted request in the full log still has in the window |
| EndpointLimiter.RetryAfterSuffices | backend/secuscan/ratelimit.py:204-219 | in a trace, a rejected client that is silent for the announced seconds and retries then passes iff the time left was a whole number of seconds or below one |
| EndpointLimiter.IdleIdentitiesGo | backend/secuscan/ratelimit.py:173-189 | in every trace, after each call every recorded identity has an accepted request within the last two windows |
| TaskLifecycle.ConcurrentTaskLimiter.Acquire | backend/secuscan/ratelimit.py:85-100 | a slot is taken iff fewer than the maximum are held |
| TaskLifecycle.ConcurrentTaskLimiter.Release | backend/secuscan/ratelimit.py:102-106 | the first entry of the id goes, if there is one |
| TaskLifecycle.ReleaseTakesOne | backend/secuscan/ratelimit.py:102-106 | a release takes away exactly one slot of the id and no other |
| TaskLifecycle.FinallyMatches | backend/secuscan/executor.py:854-858 | the `finally` block gives back the slot of its own execution, also when two executions of one id are alive |
| TaskLifecycle.ClaimSound | backend/secuscan/executor.py:664-673 | the guarded claim makes the row running and the execution its claimant in one step |
| TaskLifecycle.ClaimRaisesSound | backend/secuscan/executor.py:821-841 | a claim that raises, applied or not, leads to the failure handler with the row still covered |
| TaskLifecycle.SignalSignalled | backend/secuscan/executor.py:1008-1033 | signalling the execution captured before an await, whether still alive or replaced by a retry, comes with a cancel request for its own id |
| TaskLifecycle.ResumeSound | backend/secuscan/executor.py:764-784 | an execution that resumes with a cancellation keeps every running row covered |
| TaskLifecycle.StepClaimsOnce | backend/secuscan/executor.py:664-673 | every step either enqueues the row, or claims it out of being queued, or neither |
| TaskLifecycle.EnqueueClaimedOnce | backend/secuscan/executor.py:664-673 | in every run a row is claimed at most once since it last became queued, and not at all while it is queued |
| TaskLifecycle.LifecycleSafe | backend/secuscan/executor.py:652-858 | in every interleaving: slots equal the scheduled or live executions per id and stay within the maximum, a running row has a live unwritten claimant or a cancel request in flight, and each enqueue is claimed at most once |
| TaskLifecycle.NothingStaysRunning | backend/secuscan/executor.py:764-858 | with no live execution and no cancel request in flight no row is running and no slot is held |
| TaskLifecycle.StepKeepsClaimUnless | backend/secuscan/executor.py:764-853 | a step leaves a row running without its live claimant iff the claimant resumes with a cancellation in its handler before the write is applied |
| TaskLifecycle.RunningHasClaimant | backend/secuscan/executor.py:764-853 | a running row has its live claimant at every moment of a run iff the run has no such step |
| TaskLifecycle.InterruptedHandlerLeavesRowRunning | backend/secuscan/executor.py:821-841 | a run in which a cancelled error handler leaves the row running without a claimant |
| TaskHistories.StatusIsLastWrite | backend/secuscan/executor.py:607-632 | in every run a row has a status iff the last event that touched the row applied it: completed by a successful final write of an execution of that id, failed by an unsuccessful one, a failure handler or a refused start, cancelled by a cancel write that found it running, running by a claim that found it queued, queued by its creation or a retry of a failed or cancelled task |
| TaskHistories.PlaceIsLastMove | backend/secuscan/executor.py:652-858 | in every run an execution is where its last move took it: waiting, ready, at work before or after its final write, in the failure or the cancel handler, or leaving |
| TaskHistories.RunsForItsStart | backend/secuscan/executor.py:652-663 | a live execution runs for the id it was started with |
| TaskHistories.OwedIsBoundNotTaken | backend/secuscan/routes.py:1505-1525 | in every run each step that requests still owe is owed as often as they were bound to it and have not taken it; a removal only after a check that found the row not running |
| TaskHistories.PendingIsSignalled | backend/secuscan/executor.py:1008-1033 | an execution will resume with a cancellation iff it was signalled while alive and has not resumed since |
| TaskHistories.TableIsLastBegun | backend/secuscan/executor.py:652-673 | the table of running tasks names for an id the execution that began last, until one of that id leaves |
| Transactions.Database.Execute | backend/secuscan/database.py:848-853 | a write, however its calls end, commits by itself unless the flag is up; a failed write leaves SQLite's transaction open |
| Transactions.Database.ExecuteNoCommit | backend/secuscan/database.py:855-858 | a write that leaves the transaction open |
| Transactions.Database.Begin | backend/secuscan/database.py:860-865 | nothing inside a transaction; fails if the driver has one open already; cut, it may have opened one without the flag |
| Transactions.Database.Commit | backend/secuscan/database.py:867-872 | makes the working state durable iff the flag is up; the flag goes down only if the caller sees the call return |
| Transactions.Database.Rollback | backend/secuscan/database.py:874-879 | restores the durable state iff the flag is up; the flag goes down only if the caller sees the call return |
| Transactions.Database.Finish | backend/secuscan/database.py:839-846 | what the context manager does after its body: commit, rollback of a raise or a failed commit, nothing for a cancellation |
| Transactions.Database.Run | backend/secuscan/database.py:820-846 | client code with nested blocks through the context manager behaves as its evaluation says |
| Transactions.InsideOnlyWorkingMoves | backend/secuscan/database.py:837-858 | inside a transaction any code moves only the working state, as its plain meaning says |
| Transactions.NestingIsTransparent | backend/secuscan/database.py:833-838 | an outermost block behaves as if all inner blocks were written out in place |
| Transactions.BlockIsAtomic | backend/secuscan/database.py:820-846 | however the body and BEGIN, COMMIT and ROLLBACK end: the disk has the whole effect iff the commit was applied, is else untouched, and shows nothing else on the way |
| Transactions.CleanIff | backend/secuscan/database.py:839-846 | the connection is clean afterwards iff neither an applied BEGIN nor the body nor the call that ends the block was cut (and a needed rollback works); else the flag stays up and nothing reaches the disk any more, or the lost BEGIN's transaction stays open |
| Transactions.PlainWrite | backend/secuscan/database.py:848-853 | a write on a clean connection, however its two calls end: what is on disk, what the connection sees, whether SQLite's transaction stays open, and the outcome |
| Transactions.LostBeginBlocks | backend/secuscan/database.py:860-865 | after a lost BEGIN every further block ends at its own BEGIN without effect; a plain write commits and closes the transaction |
| TaskDeletion.StatementsRemoveChunk | backend/secuscan/routes.py:1466-1490 | the seven statements in this order remove exactly what belongs to the chunk |
| TaskDeletion.ChunksCompose | backend/secuscan/routes.py:1453-1490 | deleting chunk after chunk is deleting all at once |
| TaskDeletion.DeletionMeans | backend/secuscan/routes.py:1451-1490 | the body succeeds iff no given id is running and every query and statement works, and then removes exactly the given ids' records; else it raises for a running id or ends as its first call that fails or is cut |
| TaskDeletion.DeletionIsAtomic | backend/secuscan/routes.py:1450-1490 | however any check, statement, BEGIN, COMMIT or ROLLBACK ends: the disk loses exactly those records iff the body succeeds and the commit is applied, else nothing, and shows nothing in between |
| TaskDeletion.DeletionRemovesExactly | backend/secuscan/routes.py:1466-1490 | a deletion that succeeds removes the given tasks, exactly the rows that name one of them, and exactly the notifications of their findings; all other rows stay |
| TaskDeletion.RefusedIffRunning | backend/secuscan/routes.py:1453-1464 | with every call working it is refused iff one of the given tasks is running |
| TaskDeletion.CheckChunks | backend/secuscan/routes.py:1453-1464 | the loop of checks inside the transaction, with any outcome of every query |
| TaskDeletion.DeleteChunk | backend/secuscan/routes.py:1466-1490 | the statements of one chunk, with any outcome of every statement |
| TaskDeletion.DeleteChunks | backend/secuscan/routes.py:1466-1490 | the loop over the chunks |
| TaskDeletion.DeleteTaskRecords | backend/secuscan/routes.py:1424-1490 | nothing for an empty list, else what the transaction with that body does |
| Listeners.Hub.Subscribe | backend/secuscan/executor.py:178-184 | a new empty queue is appended to the listeners of that id; the hub takes the machine's subscription step |
| Listeners.Hub.Unsubscribe | backend/secuscan/executor.py:186-191 | that queue's entry leaves and the others keep their order; an emptied list goes |
| Listeners.UnlistedLosesOne | backend/secuscan/executor.py:188-191 | no other queue and no other entry is touched |
| Listeners.Hub.EnqueueListenerEvent | backend/secuscan/executor.py:200-214 | a full queue drops its oldest event for the new one |
| Listeners.Hub.OfferAll | backend/secuscan/executor.py:197-198 | every queue of the snapshot is offered the event once |
| Listeners.Hub.Read | backend/secuscan/routes.py:670-670 | a reader takes the oldest event of its queue |
| Listeners.Hub.Broadcast | backend/secuscan/executor.py:193-198 | the hub with its queues takes the machine's broadcast step: exactly the listeners of that id are offered the event, each once |
| Listeners.Hub.CleanupListeners | backend/secuscan/executor.py:216-219 | the entry of that id goes, all others stay |
| Listeners.HearsIffSubscribed | backend/secuscan/executor.py:178-219 | in every run a queue hears a task's broadcasts exactly from its subscription for that task until it is unsubscribed or the task is cleaned up |
| Listeners.QueuesTrack | backend/secuscan/executor.py:178-219 | in every run a queue holds the newest events it heard, what was read is an in-order part of the rest, and what is missing are the overruns |
| Listeners.ListenersHearInOrder | backend/secuscan/executor.py:178-219 | events read followed by events queued are an in-order part of the broadcasts with the newest among them, within the bound, and complete iff no broadcast found the queue full |
| Cache.CacheClient.PopAll | backend/secuscan/cache.py:43-46 | the keys leave all three dictionaries |
| Cache.CacheClient.Disconnect | backend/secuscan/cache.py:35-38 | the dictionaries are emptied, the counters stay |
| Cache.CacheClient.SweepExpired | backend/secuscan/cache.py:40-48 | exactly the keys at or past their expiry go and are counted |
| Cache.CacheClient.EvictLru | backend/secuscan/cache.py:50-60 | a full cache loses a batch of keys none of which was accessed later than a key that stays |
| Cache.CacheClient.GetJson | backend/secuscan/cache.py:62-76 | lazy expiry, access stamp and value |
| Cache.CacheClient.SetJson | backend/secuscan/cache.py:78-90 | eviction for a new key in a full cache, the three updates, the sweep on every fiftieth write |
| Cache.CacheClient.DeletePrefix | backend/secuscan/cache.py:92-98 | exactly the keys with the prefix go |
| CacheRuns.EvictionFrees | backend/secuscan/cache.py:50-60 | eviction makes room and keeps the three key sets equal |
| CacheRuns.CacheRefinesMap | backend/secuscan/cache.py:35-98 | in every run one key set within the capacity, and every entry is what the latest write left |
| CacheRuns.HitIsLatestWrite | backend/secuscan/cache.py:62-76 | a hit is the value of the latest write of the key, not deleted since, within the lifetime that write asked for: its own, or the default for none or zero |
| CacheRuns.RecentIsNoVictim | backend/secuscan/cache.py:54-59 | a key with few enough more recent ones is not among the evicted |
| CacheRuns.RecentlyUsedStays | backend/secuscan/cache.py:50-90 | a key survives while fewer than capacity minus batch distinct other keys are accessed and it is neither deleted nor expired |
| CacheLifetimes.EntryLivesItsLifetime | backend/secuscan/cache.py:62-87 | an entry not written again and not taken since its write is a hit exactly up to the end of its lifetime |
| CacheLifetimes.FreshEntryHits | backend/secuscan/cache.py:50-98 | the same from the operations alone: no deletion, no sweep past its end, fewer than capacity minus batch other keys accessed |
| CacheLifetimes.EvictionTakesQuarter | backend/secuscan/cache.py:50-60 | a full cache loses a quarter of its capacity, rounded down and at least one entry, and counts as many |
| CacheLifetimes.FiftiethWriteSweeps | backend/secuscan/cache.py:78-90 | every fiftieth write of a run takes exactly the entries at or past their expiry, any other write into a cache with room takes none |
| CacheLifetimes.DeletionTakesPrefixed | backend/secuscan/cache.py:92-98 | deleting by prefix takes exactly the keys that begin with it and leaves all other entries as they are |
| CacheLifetimes.SweepCounts | backend/secuscan/cache.py:40-48 | a sweep counts what it takes |
| OutputBudget.SharedState.Deliver | backend/secuscan/sandbox_executor.py:81-92 | the block under the lock: what is kept, the new totals, whether the reader returns |
| OutputBudget.SharedState.ReadStream | backend/secuscan/sandbox_executor.py:75-94 | one reader alone keeps the stream up to the limit, for any chunking |
| OutputBudget.DeliveryTells | backend/secuscan/sandbox_executor.py:81-92 | a delivery keeps what still fits, the limit is hit once something does not, and the reader returns iff nothing fitted before |
| OutputBudget.BudgetHolds | backend/secuscan/sandbox_executor.py:75-148 | at every moment of every interleaving the captured bytes are the counted ones within the budget, and buffers are prefixes |
| OutputBudget.FinalOutput | backend/secuscan/sandbox_executor.py:145-177 | after both return, the limit was hit iff the streams together exceed it; then exactly the budget was kept, else both streams |
| Correlation.DedupeEvidence | backend/secuscan/finding_intelligence.py:207-226 | the loop keeps the first item of every key, in order |
| Correlation.DedupedAreFirst | backend/secuscan/finding_intelligence.py:207-226 | de-duplication keeps exactly the first item of each key, in order |
| Correlation.IncrementalDedupe | backend/secuscan/finding_intelligence.py:342-388 | de-duplicating piece by piece is de-duplicating the concatenation |
| Correlation.StageFindings | backend/secuscan/finding_intelligence.py:330-390 | the staging loop over the raw findings |
| Correlation.StagingDescribes | backend/secuscan/finding_intelligence.py:330-390 | one item for each group that occurs, with its count, highest severity, disjunction, union of sources and de-duplicated evidence |
| Notes.MergeSays | backend/secuscan/finding_intelligence.py:373-388 | merging in one more finding keeps the description of an item by its group's findings |
| Correlation.StagingCollectsNotes | backend/secuscan/finding_intelligence.py:351-388 | an item has the title of its group's first finding, the first text of each kind that is not blank (or else the last), all references in order, the named assets with the first finding's own, and for each metadata key the latest value that is not empty |
| Correlation.StagedItemCounts | backend/secuscan/finding_intelligence.py:351-388 | an item counts its group's findings, has the highest of their severities, is validated iff one of them is, and has exactly their sources, trimmed and without blanks |
| Correlation.SeverityWords | backend/secuscan/finding_intelligence.py:77-94 | severities by their words in any case, in strictly rising order |
| Correlation.CountsAddUp | backend/secuscan/finding_intelligence.py:365-370 | the local counts sum to the number of raw findings |
| Correlation.OrderIsIrrelevant | backend/secuscan/finding_intelligence.py:330-390 | count, severity, validation and sources are invariant under permuting the input |
| Occurrences.PersistScan | backend/secuscan/finding_intelligence.py:392-417 | one scan normalises all items against the table, then upserts them |
| Occurrences.ScanStep | backend/secuscan/executor.py:1394-1416 | a scan with k hits turns the stored count c into 2c + k |
| Occurrences.StoredCount | backend/secuscan/executor.py:1394-1416 | the stored count after any scans is the sum of 2^(n-i) k_i over the scans that hit |
| Occurrences.CountRightIffOneScan | backend/secuscan/finding_intelligence.py:412-415 | it never undercounts, and equals the true total iff at most one scan hit |
| Occurrences.FirstSeenNeverMoves | backend/secuscan/executor.py:1394-1416 | the first sighting never changes after the first scan |
| Occurrences.StagedSinceFirst | backend/secuscan/finding_intelligence.py:351-388 | a staged item has the discovery time of its group's first finding in the scan |
| Occurrences.FirstSeenIsFirstHit | backend/secuscan/finding_intelligence.py:416-417 | after any scans it is the discovery time of the very first finding of the group in all of them |
| Occurrences.ReportedItem | backend/secuscan/finding_intelligence.py:412-417 | a later scan reports as many occurrences as are stored and hit together, and the very first sighting unless that is blank |
| Occurrences.FirstReportedItem | backend/secuscan/finding_intelligence.py:412-417 | the first scan that hits a group reports its own hits and sighting |
| Grouping.BuildFindingGroups | backend/secuscan/finding_intelligence.py:463-513 | one faithful row for each group id, every finding in exactly one row, rows sorted |
| Grouping.RowsAreFaithful | backend/secuscan/finding_intelligence.py:494-503 | a row lists its group's findings in order and has the first one's title and copied details; severity, confidence and counts are maxima that occur, sightings the extremes, validation the disjunction, sources the union |
| Grouping.BeforeIsTotalPreorder | backend/secuscan/finding_intelligence.py:505-512 | the sort key orders any two rows |
| Grouping.GroupsPartition | backend/secuscan/finding_intelligence.py:463-513 | the members of all rows together are the findings, rows and ids are unique, the output is sorted |
| Grouping.MostSevereFirst | backend/secuscan/finding_intelligence.py:505-512 | in the sorted rows severity never rises, confidence never rises within a severity, titles never fall within both |
| ScanDiff.IndexLatest | backend/secuscan/finding_intelligence.py:563-564 | the dictionary of a scan by group id |
| ScanDiff.LatestIsLastOfGroup | backend/secuscan/finding_intelligence.py:563-564 | it holds exactly the groups that occur, each with its last finding |
| ScanDiff.ListGroups | backend/secuscan/finding_intelligence.py:566-567 | the listed findings of a set of keys, each once |
| ScanDiff.ListChanges | backend/secuscan/finding_intelligence.py:568-583 | exactly the common groups that differ, each once with both sides |
| ScanDiff.BuildScanDiff | backend/secuscan/finding_intelligence.py:562-594 | the report, its three parts and counts |
| ScanDiff.ReportIsOneRowEach | backend/secuscan/finding_intelligence.py:585-587 | a report has one row for each of its groups, with that group's one finding |
| ScanDiff.ReportTells | backend/secuscan/finding_intelligence.py:562-594 | new rows are those of the groups only in the current scan, resolved ones of those only in the previous one; a change shows the last finding of the previous scan before and of the current scan after, for exactly the common groups that differ in severity, validation or confidence |
| ScanDiff.CountsPartition | backend/secuscan/finding_intelligence.py:585-593 | new and common groups make up the current scan, resolved and common the previous one, changed are common |
| ScanDiff.SwappingSwaps | backend/secuscan/finding_intelligence.py:562-594 | comparing the other way round swaps new with resolved and the sides of every change |
| ScanDiff.EmptyDiffIffAlike | backend/secuscan/finding_intelligence.py:562-594 | all counts are zero iff the groups are the same and none differs; a self-diff is empty |
| Networks.NetOf | backend/secuscan/validation.py:193-193 | parsing without strictness yields the aligned network that holds the address |
| Networks.ContainsIsRange | backend/secuscan/validation.py:196-207 | masking tests membership of the address range |
| Networks.OverlapIsSharing | backend/secuscan/validation.py:196-207 | networks overlap iff they share an address |
| Networks.NestOrDisjoint | backend/secuscan/validation.py:79-98 | of two overlapping networks the longer prefix lies inside the other |
| Networks.WildcardIsExact | backend/secuscan/validation.py:45-69 | the converted wildcard has exactly the addresses with the fixed octets |
| Networks.NetWithinAllowed | backend/secuscan/validation.py:39-100 | a network is let through iff the list is empty or some pattern permits it |
| Networks.ValidateLiteral | backend/secuscan/validation.py:192-215 | the verdict on a literal address or network, which `VerdictIff` reads off its addresses |
| TargetVerdicts.VerdictIff | backend/secuscan/validation.py:192-215 | each verdict iff its reason holds and none before it: some address in a blocked range; loopback switched off and all addresses loop back; safe mode and no address private; safe mode and no entry of a non-empty list permits it |
| TargetVerdicts.LoopbackIff | backend/secuscan/validation.py:200-201 | a target counts as loopback iff all its addresses are 127.x.x.x, or it is ::1 alone |
| TargetVerdicts.PermitsIff | backend/secuscan/validation.py:71-98 | a network pattern permits the targets with all addresses inside, a wildcard those with the fixed octets in all addresses, any other text a single address that it matches |
| Networks.SafeModeConfines | backend/secuscan/validation.py:192-215 | with a non-empty private allow list every address of an accepted target is allowed, private and not blocked |
| Networks.PrivateExactlyWhenNarrow | backend/secuscan/validation.py:204-210 | a target that overlaps the private ranges is private throughout iff its prefix is as long as that of a range it overlaps |
| Networks.BroadTargetAccepted | backend/secuscan/validation.py:192-215 | 8.0.0.0/5 is accepted in safe mode without an allow list and holds 8.8.8.8 |
| Sanitizing.SanitizeInput | backend/secuscan/validation.py:436-447 | removing the characters kind by kind, then leading dashes, then outer white space |
| Sanitizing.SanitizedIsClean | backend/secuscan/validation.py:417-447 | no forbidden character and no outer white space is left |
| Sanitizing.CleanedCharacter | backend/secuscan/validation.py:436-441 | a backslash becomes a slash, sixteen characters are removed, every other one is kept |
| Sanitizing.CleanedJoined | backend/secuscan/validation.py:436-441 | and that character by character |
| Sanitizing.SanitizeRemovesOnly | backend/secuscan/validation.py:443-447 | beyond that only dashes in front and then white space at both ends go |
| Sanitizing.UnchangedIff | backend/secuscan/validation.py:417-447 | input is left alone iff it has nothing to remove |
| Sanitizing.LeadingDashIff | backend/secuscan/validation.py:443-447 | a leading dash survives iff in the input white space hides it from the stripping |
| Sanitizing.IdempotentIff | backend/secuscan/validation.py:417-447 | cleaning twice is cleaning once iff the input hides no dash like that |
| Sanitizing.HiddenDash | backend/secuscan/validation.py:443-447 | a blank, a dash and a letter is such an input |
| Templates.SegmentsSpellToken | backend/secuscan/plugins.py:460-478 | splitting a token at its placeholders loses nothing |
| Templates.SegmentsRecovered | backend/secuscan/plugins.py:460-478 | segments without stray opening braces are what their own text splits into |
| Templates.FindAll | backend/secuscan/plugins.py:460-460 | the placeholders of a token from left to right |
| Templates.AnyMissing | backend/secuscan/plugins.py:464-468 | whether some placeholder has no value |
| Templates.Substitute | backend/secuscan/plugins.py:471-478 | the single pass equals simultaneous substitution over the segments |
| Templates.Interpolate | backend/secuscan/plugins.py:448-478 | the token disappears iff a placeholder lacks a value, else all are replaced at once; the early return changes nothing |
| Templates.PlaceholderShows | backend/secuscan/plugins.py:464-478 | a placeholder shows the input of its name whatever its default, a null or empty input drops the token, and the default counts only for a name without input |
| Templates.NoNameStays | backend/secuscan/plugins.py:460-478 | braces around anything but a name of letters, digits and underscores stand for themselves |
| Templates.DangerComesFromTemplate | backend/secuscan/plugins.py:471-478 | the forbidden characters of a filled token are exactly those of the template's text, in order |
| Rescanning.InTurnAgrees | backend/secuscan/plugins.py:448-457 | without opening braces in values, literals and defaults, replacing in turn gives the same |
| Rescanning.InTurnRescans | backend/secuscan/plugins.py:451-455 | a value that spells another placeholder is replaced again in turn, and kept in the single pass |
| Commands.SplitJoined | backend/secuscan/plugins.py:695-695 | splitting recovers the parts of a joined token |
| Commands.EvaluateConditionalToken | backend/secuscan/plugins.py:693-720 | the rendered active parts of a conditional token |
| Commands.ConditionalChooses | backend/secuscan/plugins.py:699-714 | a condition renders the parts before or after the first "else" |
| Commands.BranchTaken | backend/secuscan/plugins.py:703-714 | the first branch is taken iff the input is there, not null, no empty text, no "false" in any case, and true if it is no text |
| Commands.ConditionalWithoutElse | backend/secuscan/plugins.py:706-708 | without "else" a false condition renders nothing |
| Commands.ConditionOnElse | backend/secuscan/plugins.py:702-705 | an input named "else" renders nothing if true and the keyword itself if false |
| Commands.ConditionalRightIff | backend/secuscan/plugins.py:699-714 | a conditional token means what it says for every input iff its condition is not on an input named "else" |
| Commands.NoDefaultsInConditionals | backend/secuscan/plugins.py:695-718 | no placeholder in a rendered part of a conditional token has a default |
| Commands.RenderCommandTokens | backend/secuscan/plugins.py:722-731 | the arguments of all tokens in order |
| Commands.RenderedInOrder | backend/secuscan/plugins.py:722-731 | commands are rendered token by token and parts one by one, none lost or moved |
| Commands.PlainTokenGives | backend/secuscan/plugins.py:727-729 | a plain token gives its text as one argument, nothing if it is dropped or empty |
| Commands.ConditionalTokenGives | backend/secuscan/plugins.py:714-720 | a conditional token gives what its rendered parts give as tokens of their own |
| Commands.ArgumentsAreClean | backend/secuscan/plugins.py:693-731 | no argument is empty, each is a filled template piece with all values present, and its forbidden characters are the template's |
| Versions.CompareIsLexicographic | backend/secuscan/remediation.py:343-348 | component-wise comparison decides the zero-padded order of final releases (PEP 440, "Inclusive ordered comparison") |
| Versions.HandleCaret | backend/secuscan/remediation.py:45-68 | the clauses of a caret range, with the padding loop |
| Versions.CaretAdmits | backend/secuscan/remediation.py:45-68 | admits exactly the releases from the version on that share its left-most non-zero component and what precedes it |
| Versions.CaretIsNpmIff | backend/secuscan/remediation.py:45-68 | equals npm's range iff three components are given or one of those given is not zero |
| Versions.HandleTilde | backend/secuscan/remediation.py:71-83 | the clauses of a tilde range, with the padding loop |
| Versions.TildeAdmits | backend/secuscan/remediation.py:71-83 | admits exactly the releases from the version on that share major and minor |
| Versions.TildeIsNpmIff | backend/secuscan/remediation.py:71-83 | equals npm's range iff two components are given |
| Versions.WildcardAdmits | backend/secuscan/remediation.py:86-101 | admits exactly the releases with the fixed components, if at most two are fixed |
| Versions.WildcardExactIff | backend/secuscan/remediation.py:86-101 | the translation is exact iff at most two components are fixed |
| Versions.SemverToPep440 | backend/secuscan/remediation.py:104-138 | the accumulated clauses, and none if one is malformed |
| Versions.TranslationMeansRange | backend/secuscan/remediation.py:104-138 | a translated range admits exactly what every part asks for, or everything if a part is malformed |
| Versions.OperatorReadIff | backend/secuscan/remediation.py:122-123 | for every operator before every wildcard, the translation means what npm asks for iff the operator is equality, or "at most" with only zeros fixed (one or two components fixed); "at least" with only zeros (three or more); or equality, "at least" or "at most" where the code adds no bound (none fixed) |
| Versions.OperatorBeforeWildcardIsLost | backend/secuscan/remediation.py:122-123 | a range below 2.x admits exactly the releases of 2 |
| Versions.AlternativesReadIff | backend/secuscan/remediation.py:104-138 | alternatives are read as a conjunction, which is what they mean iff both admit the same releases |
| Versions.CaretAlternativesAdmitNothing | backend/secuscan/remediation.py:104-138 | "^1 or ^2" admits no release |
| Versions.HyphenAdmitsAll | backend/secuscan/remediation.py:104-138 | a hyphen range admits every release, also beyond its upper end |
| Versions.BlankAfterOperatorIff | backend/secuscan/remediation.py:104-138 | with a blank between operator and version the translation is right iff the version has three components or more and the operator is equality, or "at most" with zeros |
| Versions.Conflicts | backend/secuscan/remediation.py:358-364 | the parents whose range leaves the release out, each once and in order |
| Versions.ValidateRemediation | backend/secuscan/remediation.py:335-384 | safe iff every range admits the release or it is no version; otherwise exactly the excluding parents are named |
| Versions.AdviceNamesExcluding | backend/secuscan/remediation.py:358-380 | the advice is to change the root's range iff that excludes the release, to upgrade exactly the excluding parents in the order of their names, and last to stay in the range |
| Sorting.SortSorts | backend/secuscan/finding_intelligence.py:505-512 | sorting yields a sorted rearrangement in which equivalent elements keep their order |

## Left out

* Clocks never run backwards within a limiter, a trace or the cache; limits and windows are at least one where a lemma requires it.
* Redis counters survive their own window (their time to live is twice the window), and INCR with EXPIRE is one atomic pipeline.
* `reset()` of the limiters, the extraction of client addresses and identities, and log messages.
* Process crashes, database errors inside error handlers, a scheduled execution that never starts, and the command-line path that executes without a slot.
* How exit code and output of a finished command decide between success and failure: the final write takes the decision as given.
* Subprocesses, signals, Docker and timeouts of the sandbox: readers that are cancelled before they return are not in `FinalOutput`.
* Other users of the shared connection between the statements of a transaction.
* Deleting raw output files, and deleting old findings when a scan is retried.
- TaskLifecycle.ResumeSound: a database write of an execution that is cancelled while it waits for that write counts as applied or not when the execution resumes.
- Cache.CacheClient.EvictLru: which of several keys with equal access times goes is left open, because the order of dictionary entries is not modelled.
* Waiting in a listener's queue: a reader that finds it empty takes no step, and server-sent events are not modelled.
* `RecentlyUsedStays` asks for strictly increasing access times; with equal times the choice follows dictionary order.
* `HitIsLatestWrite`: an expiry of exactly zero counts as none in the code, and the lemma says so.
* A finding without any id is grouped under a hash but compared under a fixed text by the code; the model uses one id function for both.
* Group ids and a finding's own asset reference are arbitrary values; SHA-1 collisions and confidence scores are not modelled.
* Texts, references and metadata values of a raw finding are strings, an empty one standing for a missing or empty value; entries of a reference list that are no dictionaries are left out.
* Confidence is in hundredths, as the code rounds it for comparison; float rounding is not modelled.
* Lists of sources are sets: their sorted order is not kept.
* Lower-casing covers ASCII letters, and word characters of placeholders are ASCII letters, digits and the underscore.
* Text parsing of addresses, IPv6 notation, host names, URLs and DNS; shell-pattern matching of one address is an arbitrary predicate.
* Parsing of version text into numbers: pre-releases, build metadata and epochs, and the text of the combined range in the upgrade report.
* `Versions` reads a range as its blank-separated parts; the splitting itself and the recognition of a part by its first characters are not modelled.
* Plugin loading, field validation, presets, reports, notifications, network policy, capabilities and risk scores: short checks or formatting.
