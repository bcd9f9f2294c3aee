# Verified models of an LLM gateway's stateful core

The gateway (`new-api`, written in Go) relays requests to language-model providers and keeps the books: it sells
quota, charges and refunds asynchronous tasks, limits request rates, caches request bodies, manages lists of provider
keys, and updates itself. This project models the parts of it where many steps have to add up, and proves what they
add up to. `dafny verify dfyconfig.toml` checks everything.

Code that changes things step by step is modelled as classes and methods with loops, each proved against a
specification that does not mention the steps. Concurrent code is modelled as a state machine whose steps are single
accesses to shared state, so that a run is any interleaving. What the code asks of the world (clock, database, file
system, network, upstream answers) is a parameter of the step or method that asks for it, including whether a write
succeeds.

| module | what it models |
|---|---|
| `RatioSync` | the comparison of local and upstream price ratios: a nested table filled by one pass and pruned in place by two more, against a description of which pairs are listed and what each holds |
| `FetchPool` | the goroutines that fetch the upstream ratios: semaphore, buffered channel, wait group |
| `OrderSettlement` | top-up orders: a mutex per trade number made by double-checked creation, two kinds of locked settlement, and an expiry callback that takes no lock |
| `VideoBilling` | the polling of video tasks: re-pricing by tokens, failure refunds, refused writes |
| `Midjourney` | the polling of Midjourney tasks: comparison, copy, failure refund |
| `RateLimit` | the in-memory sliding-window limiter with its background sweep, against counting the whole history |
| `BodyStorage` | request bodies in memory or in a temporary file behind one interface, and how one is chosen |
| `CacheAccounting` | the global counters of the body cache and its size limit under concurrency |
| `MultiKey` | channels with many keys: one string and three sparse maps by position, against a plain list of records |
| `OggOpus` | the scan for Ogg pages that finds a recording's duration (section 6 of RFC 3533, section 4 of RFC 7845) |
| `SelfUpdate` | the in-place update of the service and its rollback, operation by operation |
| `ModelEnrichment` | batched enrichment of model metadata, against looking at one model at a time |
| `HashCodec`, `Decimal` | structs stored in Redis hashes and read back; decimal printing and parsing |
| `Outcomes`, `Balances`, `TempFiles` | what several modules share: small types, user balances and quota arithmetic, temporary files |

## Findings

The proofs settled a few places where the code does not do what one would expect. Each is proved with the exact
condition under which it happens.

- Deleting the auto-disabled keys of a channel does nothing of the kind when *all* keys are auto-disabled: the empty key
  string is not written, the statuses are, and every key comes back enabled (`MultiKey.BehavesPlainlyExactly`,
  `MultiKey.LastAutoDisabledKeyComesBack`). Runs of actions show what a plain list would show exactly when this is
  avoided (`MultiKey.RowRefinesPlainList`).
- Enabling a key through the relay keeps its old disable time and reason, which a later manual disable shows again,
  exactly when there was something to show (`MultiKey.ReenabledKeyShowsItsPast`).
- While rows and refunds are stored, a cycle of the video poller conserves a user's total exactly when it fails no
  charged task of that user in bulk; a bulk failure (no task id, or no channel) refunds nothing, and what the tasks held
  is lost (`VideoBilling.CycleConservesExactlyWhen`).
- The bound of one refund per task is kept by a cycle that visits each task once. When a cycle visits a task more than
  once, the bound holds wherever the poller may be stopped exactly when no visit is *harmful*: it comes after the task
  was refunded, its row is stored, and it refunds again or writes the row back as unfinished
  (`Midjourney.CycleBoundedExactlyWhen`, `VideoBilling.CycleBoundedExactlyWhen`; that this state is what the bound over
  later cycles needs is `BoundSurvivesExactlyWhen` of either module). For two Midjourney answers the condition is on the
  items alone (`Midjourney.TwoAnswersBreakBoundExactlyWhen`); two finished failures with different reasons, and a
  timed-out task answered twice as unfinished, are the witnesses (`Midjourney.OtherReasonRefundsAgain`,
  `Midjourney.UnfinishedCopyIsRefundedNextCycle`). A video task polled twice breaks the bound exactly when the second
  poll calls it unfinished again (`VideoBilling.TwoPollsBreakBoundExactlyWhen`).
- An update removes an older backup of the web tree before making its own, and ignores whether that worked. If something
  of the older one stays, update and rollback both report success and the rollback puts the leftovers in the place of
  the live tree (`SelfUpdate.StaleBackupReplacesWeb`; `SelfUpdate.RollbackRestoresWebExactlyWhen` has every case).
- The limiter answers as counting the whole history would, in every run, exactly when the limit is at least one and
  there is no sweeper or the window is at most one second longer than the expiration (`RateLimit.LimiterCountsExactlyWhen`).
  The source only asks in a comment (`new-api/common/constants.go:167`) that the window is not larger, and a limit of 0
  lets in one call per window.
- A JSON null from an upstream against a local number is a difference in the first pass and is dropped by the last
  (`RatioSync.NullIsDropped`). `RatioSync.DroppedExactlyWhen` says on the reported values when that happens, and
  `RatioSync.DifferencesAreListed` that a value of its own never is.
- A pointer to the empty string comes back from Redis as nil, and a deletion time is not kept; every other struct that
  can be written comes back as it was (`HashCodec.LosslessExactlyWhen`). A struct of nothing but deletion times cannot be
  written, since a hash write needs a field.

One boundary is not a defect: a body limit equal to the largest 64-bit integer would wrap around in "limit plus one".
The only caller passes whole megabytes (`new-api/common/gin.go:59`) and never that value, so
`BodyStorage.CreateBodyStorageFromReader` states acceptance for every limit below it.

## Model

| member | source | states |
|---|---|---|
| `RatioSync.BuildDifferences` | new-api/controller/ratio_sync.go:334-508 | On every input the returned table lists exactly the pairs that are candidates and in which a channel that differs somewhere says something other than "same"; each item holds the local value and, for just the channels that differ somewhere, the cell and the confidence |
| `RatioSync.CollectModels` | new-api/controller/ratio_sync.go:340-360 | The set of known models is exactly those with a local value or a mention by some channel, in any ratio type |
| `RatioSync.ChannelModels` | new-api/controller/ratio_sync.go:352-360 | The models one channel mentions under any ratio type, and no others |
| `RatioSync.ChannelConfidence` | new-api/controller/ratio_sync.go:371-398 | Every known model is marked trusted unless the channel reports 37.5 with a completion ratio of 1 for it |
| `RatioSync.BuildConfidence` | new-api/controller/ratio_sync.go:362-398 | One confidence map per channel name, of two channels with one name the later wins |
| `RatioSync.CompareChannel` | new-api/controller/ratio_sync.go:416-438 | The branches for one channel yield its own value, "same" or nil as the cell describes, and set the two flags |
| `RatioSync.ComparePair` | new-api/controller/ratio_sync.go:401-464 | A pair is included exactly when some channel reports a value and disagrees with the local one, with all cells and confidences of that pair |
| `RatioSync.MarkChannels` | new-api/controller/ratio_sync.go:468-478 | The marked channels are exactly those with a real difference in some entry of the table |
| `RatioSync.PruneItem` | new-api/controller/ratio_sync.go:481-499 | Deleting while ranging keeps exactly the marked channels in both maps, and the drop flag says whether anything but "same" is left |
| `RatioSync.Prune` | new-api/controller/ratio_sync.go:480-505 | The pruned table keeps exactly the informative pairs and no model without a pair |
| `RatioSync.OrderIndependent` | new-api/controller/ratio_sync.go:334-508 | Any two tables that meet the description are equal, so the order in which Go walks its maps cannot be seen |
| `RatioSync.NumericPairs` | new-api/controller/ratio_sync.go:399-505 | For numeric data and distinct channel names a pair is listed if and only if some channel is apart from the local value (absent, or at least epsilon away), so pruning drops no pair |
| `RatioSync.NumericItem` | new-api/controller/ratio_sync.go:399-505 | An item names a channel if and only if it is apart somewhere, in both maps, with the value shown to the user and the trust of its pricing page |
| `RatioSync.NumericDifferences` | new-api/controller/ratio_sync.go:334-508 | The whole answer on numeric data: which pairs, the local value, the channels of each item, equal key sets of values and confidence |
| `RatioSync.ListedExactlyWhen` | new-api/controller/ratio_sync.go:399-505 | On every input, whatever JSON and whatever names: a pair is listed if and only if some channel disagrees in it and some channel (the last of its name) reports a difference in it, or has no value for it and reports a difference elsewhere |
| `RatioSync.DroppedExactlyWhen` | new-api/controller/ratio_sync.go:480-505 | A candidate pair is dropped if and only if every channel that disagrees in it reports null or the text "same", and every channel without a value for it reports no difference anywhere |
| `RatioSync.DifferencesAreListed` | new-api/controller/ratio_sync.go:416-505 | On any JSON, one channel that disagrees with a value other than null and "same" gets its pair listed |
| `RatioSync.CellKinds` | new-api/controller/ratio_sync.go:416-438 | A cell is a real difference, or nil, exactly when the channel reports a difference, or lacks a value |
| `RatioSync.NullIsDropped` | new-api/controller/ratio_sync.go:416-505 | A concrete candidate pair (null against a number) that the pruning drops |
| `RatioSync.CellOf` | new-api/controller/ratio_sync.go:416-440 | The cell under a name is that of the last channel of that name, whatever the others say |
| `RatioSync.FlagIsFalseExactlyWhen` | new-api/controller/ratio_sync.go:371-398 | In any answer the flag of a channel is false exactly when that channel reports the model ratio 37.5 together with the completion ratio 1.0 for the model |
| `RatioSync.NothingApartAfterSync` | new-api/controller/ratio_sync.go:399-505 | After taking over one channel's listed values, that channel is apart from the local data nowhere |
| `RatioSync.SyncConverges` | new-api/controller/ratio_sync.go:399-505 | Comparing again with that channel alone gives the empty table |
| `FetchPool.StepKeepsInv` | new-api/controller/ratio_sync.go:107-321 | Every channel, semaphore and wait-group operation keeps: slots in use equal goroutines fetching and are at most 8, the wait group counts the running ones, each goroutine past its send has exactly one result on its way |
| `FetchPool.DueOperationsGoThrough` | new-api/controller/ratio_sync.go:128-139 | A due send has room and an open channel, a due release finds a taken slot, a due Done finds a positive count |
| `FetchPool.NoDeadlock` | new-api/controller/ratio_sync.go:107-321 | In every state of the invariant short of the end some operation can go on |
| `FetchPool.StepsRunOut` | new-api/controller/ratio_sync.go:107-321 | A measure goes down with every operation |
| `FetchPool.ResultsWereSent` | new-api/controller/ratio_sync.go:289-321 | Whatever is received or still buffered was sent by the goroutine it names |
| `FetchPool.PoolDeliversOneResultEach` | new-api/controller/ratio_sync.go:107-321 | For any number of upstreams and any schedule: at most 8 fetches at once, at most 6n+3 operations, the pool stops only when finished, and then the receiver holds exactly one result per upstream, the one that was sent |
| `OrderSettlement.LockInvStep` | new-api/controller/topup.go:209-230 | Every step keeps: distinct orders have distinct mutexes, each thread holds what it believes it holds, each held mutex has a holder inside its critical section; and a mutex in the table is never replaced |
| `OrderSettlement.SpawnKeepsLockInv` | new-api/controller/topup.go:209-230 | A new callback may arrive in any state |
| `OrderSettlement.MutualExclusion` | new-api/controller/topup.go:209-230 | Two threads inside the critical section of one trade number are the same thread |
| `OrderSettlement.UnlockIsLegal` | new-api/controller/topup.go:225-230 | UnlockOrder finds the mutex that this thread locked and holds |
| `OrderSettlement.NoDeadlock` | new-api/controller/topup.go:209-222 | For any number of threads, while one is unfinished some thread can move whatever the database answers, although the deferred unlock keeps createLock while waiting for an order mutex |
| `OrderSettlement.StepsLowerTheRank` | new-api/controller/topup.go:209-293 | Every step of every thread lowers a total rank |
| `OrderSettlement.EnabledForAnyOutcome` | new-api/controller/topup.go:209-293 | Whether a thread can move depends on the mutexes alone, not on the database or the price of quota |
| `OrderSettlement.RunsEndFinished` | new-api/controller/topup.go:209-293 | Without new arrivals a run has bounded length, and at its end every thread is finished or some thread can move whatever the database answers |
| `OrderSettlement.StepTouchesBooksLikeThis` | new-api/controller/topup.go:261-289 | A step changes at most the status of its own order, never back to pending, and credits only under the order's mutex an order that had no credit |
| `OrderSettlement.BooksInvStep` | new-api/controller/topup.go:261-289 | Every step keeps: credited orders are not pending, are credited once with their own quota and user, copies held by threads agree with their rows, balances are starting balances plus credits |
| `OrderSettlement.EventKeepsInv` | new-api/controller/topup.go:261-289 | Arrivals and steps keep the whole invariant, including that only orders pending at the start are settled |
| `OrderSettlement.RunKeepsInv` | new-api/controller/topup.go:209-293 | So does every run |
| `OrderSettlement.QuotaIsPrice` | new-api/model/topup.go:268-278 | The credited amount is the whole part of amount (or Stripe money) times the price of a unit, also when that is negative |
| `OrderSettlement.RunKeepsFounded` | new-api/controller/topup.go:261-289 | Every run keeps: each credit has a thread of its own role on that order and is not negative, and each status is the initial one or was set by a thread whose business it is |
| `OrderSettlement.CreditedAtMostOnce` | new-api/controller/topup.go:261-289 | In every interleaving of settlements, manual completions and unlocked expiries, with any database write failing: each order is credited at most once, to its own user, and with its price, which is the amount (the money, for a Stripe order completed by hand) times the price of a unit without the fraction; balances grow by exactly the credits, no order disappears and none becomes pending again; each credit has a settlement or a completion of that order behind it, and an order is expired or successful only from the start or through a thread whose business that is |
| `OrderSettlement.RunServes` | new-api/controller/topup.go:261-289 | While writes succeed and nobody expires the order, it is pending, credited, or held by a thread about to credit it |
| `OrderSettlement.OwnStepServes` | new-api/model/topup.go:238-307 | Every step on the order either leaves it pending or leads to its credit, for both ways of settling it |
| `OrderSettlement.PendingOrderIsCredited` | new-api/controller/topup.go:261-289 | If writes succeed and nobody expires it, a pending order of positive quota that anyone settles has been credited once all threads are done |
| `VideoBilling.UpdateVideoSingleTask` | new-api/controller/task_video.go:121-279 | One poll, with each of its three writes possibly refused: the task is polled exactly when its status is one of the known ones; a SUCCESS priced by tokens leaves as quota the whole part of tokens times model ratio times group ratio (the ratio between groups first, then the group's own, then 1), anything else leaves the quota; status, progress, times and reason follow the answer; the balance moves by the difference and, on a stored new failure, by the refund; the row is stored when the write is accepted |
| `VideoBilling.Reprice` | new-api/controller/task_video.go:152-240 | The quota becomes tokens times model ratio times group ratio without the fraction if a price applies and the write is accepted, and stays otherwise; the balance moves by the same amount the other way |
| `VideoBilling.ActualQuotaIsPrice` | new-api/controller/task_video.go:152-182 | The real cost is that price over the fields of the price list, and there is none without tokens, a model name, a group and a positive model ratio |
| `VideoBilling.PolledRowShowsPoll` | new-api/controller/task_video.go:121-151 | Status, progress, times and reason of a polled task, field by field, with an empty upstream status read as a failure |
| `VideoBilling.PolledBooksMoveMoney` | new-api/controller/task_video.go:187-276 | A poll moves the balance of the task's user by the quota the task gave up, plus the whole quota at a stored new failure whose refund is written, and nobody else's |
| `VideoBilling.ConservedExactlyWhen` | new-api/controller/task_video.go:127-276 | If the row and the refund are stored, balance plus quota held by non-failed tasks is unchanged for every other user, and for the task's user if and only if the poll neither takes a charged task out of FAILURE nor fails one with a negative quota |
| `VideoBilling.RunConserves` | new-api/controller/task_video.go:127-276 | Hence over any run of such polls: extra charges, partial refunds, repeated SUCCESS and SUCCESS followed by FAILURE cancel out |
| `VideoBilling.QuotasStayNonNegative` | new-api/controller/task_video.go:166-235 | With non-negative group ratios no poll makes a quota negative |
| `VideoBilling.VisitKeepsRefunds` | new-api/controller/task_video.go:241-276 | One visit of an unfinished row, whatever writes fail, keeps "a refunded row was refunded once and is stored as failed" |
| `VideoBilling.CycleRefundsOnce` | new-api/controller/task.go:24-70 | So does a whole cycle over rows loaded once, including rows failed in bulk |
| `VideoBilling.BulkFailureLoses` | new-api/controller/task_video.go:35-45 | Failing rows in bulk takes from what a user's tasks hold exactly what those rows held |
| `VideoBilling.CycleLosesBulkFailures` | new-api/controller/task.go:24-70 | While rows and refunds are stored, a whole cycle lowers a user's total by exactly what the rows failed in bulk held |
| `VideoBilling.CycleConservesExactlyWhen` | new-api/controller/task.go:24-70 | Such a cycle never raises a user's total, and keeps it if and only if it fails no charged row of that user in bulk |
| `VideoBilling.RefundAtMostOnce` | new-api/model/task.go:239-248 | Over any number of cycles no task is refunded for failing more than once, because only rows stored as unfinished are loaded |
| `VideoBilling.VisitKeepsBoundExactlyWhen` | new-api/controller/task_video.go:127-276 | One poll of any task in any state keeps "refunded once and not loaded again" if and only if it is not harmful: not a stored poll of a refunded task that refunds it again or calls it unfinished |
| `VideoBilling.CycleBoundedExactlyWhen` | new-api/controller/task_video.go:57-62 | For any polls in any number and order, also of one task id listed repeatedly, the bound holds after every one of them if and only if none is harmful when its turn comes |
| `VideoBilling.TwoPollsBreakBoundExactlyWhen` | new-api/controller/task_video.go:127-276 | Two polls of one unfinished task break the bound if and only if the task was charged and fails by the first, both rows are stored, and the second calls it unfinished again |
| `VideoBilling.BoundSurvivesExactlyWhen` | new-api/model/task.go:239-248 | "Refunded once and not loaded again" holds exactly of the states from which no number of proper cycles refunds a task twice |
| `Midjourney.NeedsUpdateExactlyWhen` | new-api/controller/midjourney.go:193-246 | The comparison asks for a write exactly when copying would change a compared field or an unfinished task comes with a failure reason |
| `Midjourney.UpdateTask` | new-api/controller/midjourney.go:121-188 | One answer, with any refused write: within 3600000 ms of submission, or for a finished task, the item's own status and reason are taken over, and after that an unfinished task becomes FAILURE with the timeout reason; the task is written when that changes something, a failed item is shown at 100%, and it is refunded exactly when the failing item was written for a charged task |
| `Midjourney.AnswerIsSeen` | new-api/controller/midjourney.go:121-188 | The same of the specification, field by field of the item, the task, the balance and the refund count |
| `Midjourney.VisitKeepsRefunds` | new-api/controller/midjourney.go:167-187 | One answer for an unfinished row refunds at most this row, and then it is stored as finished |
| `Midjourney.CycleRefundsOnce` | new-api/controller/midjourney.go:29-188 | With distinct tasks per answer a cycle refunds each task at most once, whatever writes fail |
| `Midjourney.RefundAtMostOnce` | new-api/model/midjourney.go:93-102 | So do any number of cycles, because rows stored at 100% are not polled again; refunds are never taken back |
| `Midjourney.VisitKeepsBoundExactlyWhen` | new-api/controller/midjourney.go:121-187 | One answer for any task in any state keeps "refunded once and stored as finished" if and only if it is not harmful: not a stored answer for a refunded task that fails it again or leaves it unfinished |
| `Midjourney.CycleBoundedExactlyWhen` | new-api/controller/midjourney.go:121-188 | For any answers in any number and order, the bound holds after every one of them if and only if none is harmful when its turn comes |
| `Midjourney.TwoAnswersBreakBoundExactlyWhen` | new-api/controller/midjourney.go:121-187 | Any two answers for one unfinished task break the bound if and only if both are stored, the task was charged and fails by the first (timeout included), and the second leaves it unfinished or is a failure that changes something |
| `Midjourney.OtherReasonRefundsAgain` | new-api/controller/midjourney.go:167-187 | Two finished failures with different reasons refund every charged unfinished task twice |
| `Midjourney.UnfinishedCopyIsRefundedNextCycle` | new-api/controller/midjourney.go:124-187 | A timed-out task answered twice as unfinished is refunded, written back as unfinished, and refunded again by one failure in the next cycle |
| `Midjourney.BoundSurvivesExactlyWhen` | new-api/model/midjourney.go:93-102 | "Refunded once and stored as finished" holds exactly of the states from which no number of proper cycles refunds a task twice |
| `RateLimit.InMemoryRateLimiter.Request` | new-api/common/rate-limit.go:45-70 | The answer is yes if and only if the set of admissions of that key in the whole history that lie within the last `duration` seconds has fewer than max elements, for a caller that keeps to its limit on a clock that never goes back; the history grows by exactly the admitted calls, and no queue is ever empty, whatever the limit |
| `RateLimit.InMemoryRateLimiter.ClearExpiredItems` | new-api/common/rate-limit.go:28-42 | Deleting while ranging keeps exactly the queues whose newest entry has not expired, and later calls are still answered by the whole history |
| `RateLimit.QueueDecidesLikeCount` | new-api/common/rate-limit.go:50-68 | Looking at the queue's length and head decides like counting the recent admissions of the whole history |
| `RateLimit.KeyRequestAgrees` | new-api/common/rate-limit.go:45-70 | A call gets the same answer from both, and queue and history agree afterwards |
| `RateLimit.RequestAgrees` | new-api/common/rate-limit.go:45-70 | The same for all keys at once |
| `RateLimit.SweepAgrees` | new-api/common/rate-limit.go:28-42 | A sweep loses nothing that a later answer could depend on |
| `RateLimit.LimiterCountsTheLog` | new-api/common/rate-limit.go:28-70 | From any agreeing state, every interleaving of calls and sweeps on a clock that never goes back gets the answers of the counting limiter, and any max+1 consecutive admissions of a key span at least its duration |
| `RateLimit.FreshLimiterCountsTheLog` | new-api/common/rate-limit.go:14-70 | The same from the empty store |
| `RateLimit.ForgottenIsAdmitted` | new-api/common/rate-limit.go:28-70 | For every longer duration a run of max calls, a sweep and a call is answered differently |
| `RateLimit.LimiterCountsExactlyWhen` | new-api/common/rate-limit.go:14-70 | For one key, any limit and any expiration in nanoseconds, all runs are answered by counting the history if and only if the limit is at least one, and no sweeper is started or the duration is at most the whole seconds of the expiration plus one |
| `BodyStorage.MemoryStorage.ReadChunk` | new-api/common/body_storage.go:50-57 | Reads like the open document: the bytes from the position on, as many as asked for or are left, with the end reported only when none are left |
| `BodyStorage.MemoryStorage.SeekTo` | new-api/common/body_storage.go:59-66 | Seeks like the open document: start, current position or end plus the offset, refused when negative |
| `BodyStorage.MemoryStorage.Close` | new-api/common/body_storage.go:68-75 | Closes, and lowers the counters the first time only |
| `BodyStorage.DiskStorage.ReadChunk` | new-api/common/body_storage.go:202-209 | Reads like the same document, byte for byte as the memory storage does |
| `BodyStorage.DiskStorage.SeekTo` | new-api/common/body_storage.go:211-218 | Seeks like the same document, to the same positions and with the same refusals |
| `BodyStorage.DiskStorage.AllBytes` | new-api/common/body_storage.go:231-263 | Seek, rewind, read fully and seek back give the whole content and leave the position alone |
| `BodyStorage.DiskStorage.Close` | new-api/common/body_storage.go:220-229 | Closes, removes the file, and lowers the counters the first time only |
| `BodyStorage.ReplayOnBoth` | new-api/common/body_storage.go:50-263 | Every sequence of non-empty reads, seeks, Bytes and closes is answered alike by a memory and a disk storage of one content |
| `BodyStorage.ContentIsFixed` | new-api/common/body_storage.go:50-263 | No call changes the content, and only a close closes |
| `BodyStorage.AnswerOf` | new-api/common/body_storage.go:50-263 | After a close every call but close is refused; before it, Bytes gives the whole content without moving |
| `BodyStorage.ReadsAreContiguous` | new-api/common/body_storage.go:50-57 | Whatever the chunk sizes, successive reads give the content in order without gap or repetition |
| `BodyStorage.CreateBodyStorage` | new-api/common/body_storage.go:274-292 | Never fails and holds exactly the data; a body below the threshold stays in memory, one at or above it is on disk exactly when the disk cache is enabled, the limit leaves room and the file can be written; counts itself, and on disk stays within the limit |
| `BodyStorage.CreateBodyStorageFromReader` | new-api/common/body_storage.go:295-336 | For every limit below the largest int64: accepts if and only if the stream has at most maxBytes bytes (and, when it goes straight to disk, the disk works), and then holds exactly that stream; says which error occurs when, when it is on disk, and that a failure changes no counter |
| `CacheAccounting.StepKeepsRight` | new-api/common/disk_cache_config.go:108-130 | Each atomic step of a creation, failure, fallback or close keeps the counters equal to what the storages at every stage contribute |
| `CacheAccounting.CountersCountOpenStorages` | new-api/common/body_storage.go:40-229 | In every run the counters never go negative, equal the numbers and total sizes of the open storages whenever nothing is under way, and return to zero when all are closed |
| `CacheAccounting.QuietSum` | new-api/common/body_storage.go:40-229 | With nothing under way the contributions are those of the open storages |
| `CacheAccounting.AdmissionKeepsBound` | new-api/common/disk_cache_config.go:148-156 | An admission that passes the check keeps used plus checked bytes within limit + (k-1)*largest |
| `CacheAccounting.OtherStepsDoNotCommit` | new-api/common/disk_cache_config.go:108-130 | No other step raises used plus checked bytes |
| `CacheAccounting.UsageIsBounded` | new-api/common/body_storage.go:274-292 | With at most k concurrent admissions of at most `largest` bytes the bound holds over every run |
| `CacheAccounting.SequentialUsageIsBounded` | new-api/common/body_storage.go:274-292 | One admission at a time never exceeds the limit |
| `CacheAccounting.BoundIsReached` | new-api/common/body_storage.go:274-292 | For every k and size a run with at most k admissions of that size, the size being the limit, reaches limit + (k-1)*size, so the bound cannot be lowered |
| `MultiKey.GetKeysUndoesJoin` | new-api/model/channel.go:81-103 | Joining plain keys by newline and reading them back gives the same list |
| `MultiKey.DisableStatuses` | new-api/controller/channel.go:1641-1655 | The loop disables exactly the enabled keys and counts whether there was one |
| `MultiKey.CopyWithout` | new-api/controller/channel.go:1694-1726 | Re-indexing the three maps around a deleted position gives the record list without that record |
| `MultiKey.CopyNotAutoDisabled` | new-api/controller/channel.go:1757-1794 | Re-indexing without the auto-disabled keys gives the surviving records in order |
| `MultiKey.IndexOfKey` | new-api/model/channel.go:578-584 | The first position of a key, or 0 when it is absent |
| `MultiKey.DedupedNewKeys` | new-api/controller/channel.go:1054-1083 | The two loops give the trimmed, non-blank lines that are new, each once, in order of first appearance |
| `MultiKey.FirstSeen` | new-api/controller/channel.go:1054-1083 | Such a list has no repetition and holds exactly the trimmed non-blank lines not seen before |
| `MultiKey.AddedKeysArePlain` | new-api/controller/channel.go:1054-1086 | Appended keys can be read back from the joined string |
| `MultiKey.Channel.Update` | new-api/model/channel.go:458-505 | An empty key string is not written, the size follows the stored keys, statuses past the end are dropped, a refused write changes nothing |
| `MultiKey.Channel.SetStatus` | new-api/controller/channel.go:1520-1603 | Disabling or enabling one index changes that record only; missing and out-of-range indices are refused |
| `MultiKey.Channel.EnableAllKeys` | new-api/controller/channel.go:1605-1627 | Every record becomes enabled and forgets time and reason |
| `MultiKey.Channel.DisableAllKeys` | new-api/controller/channel.go:1629-1674 | Every enabled record becomes manually disabled, or the request is refused when there is none |
| `MultiKey.Channel.DeleteOneKey` | new-api/controller/channel.go:1676-1754 | The record at the index goes, the others keep their state under new positions, the last key is refused |
| `MultiKey.Channel.DeleteDisabledKeys` | new-api/controller/channel.go:1756-1823 | The auto-disabled records go, except that a row of nothing else is enabled instead |
| `MultiKey.Channel.HandlerMultiKeyUpdate` | new-api/model/channel.go:573-609 | The reported key (the first position of it, else the first key) is then shown with the reported status, time and reason, or enabled, and every other key as before; the channel is disabled when every key has a status entry |
| `MultiKey.ReportedIsSeen` | new-api/model/channel.go:573-600 | The same of the report on records: exactly one position changes, and how |
| `MultiKey.ListedMeansDisabled` | new-api/model/channel.go:602-608 | If no entry says enabled, every key has an entry exactly when no key is enabled |
| `MultiKey.Channel.AppendKeys` | new-api/controller/channel.go:1013-1090 | Appending keeps all records and adds the new keys, enabled, after them |
| `MultiKey.Channel.ManageMultiKeys` | new-api/controller/channel.go:1376-1830 | Every action on the stored row has the effect and reply of the action on records, position by position: which records change and how, which are deleted, which requests are refused; size stays equal to the key count and all map positions in range, and nothing changes when the write is refused |
| `MultiKey.AfterIsSeen` | new-api/controller/channel.go:1520-1823 | The action on records, as it can be seen from outside: the positions that change, survive or go, and when there is an error |
| `MultiKey.SurvivorPositions` | new-api/controller/channel.go:1757-1794 | The survivors of a deletion are the records at exactly the positions that are not auto-disabled, in ascending order |
| `MultiKey.SurvivorsAreFiltered` | new-api/controller/channel.go:1756-1793 | What is shown of the survivors is the shown list without status 3 |
| `MultiKey.BehavesPlainlyExactly` | new-api/controller/channel.go:1406-1823 | For every row and action: what the status page shows afterwards is the action on the plain list if and only if no disabled key carries a leftover and the deletion does not empty the row |
| `MultiKey.LastAutoDisabledKeyComesBack` | new-api/controller/channel.go:1756-1823 | The concrete row for which deletion enables instead |
| `MultiKey.ReenabledKeyShowsItsPast` | new-api/model/channel.go:588-600 | A key enabled through the relay is shown enabled; disabling it by hand then shows its old time and reason, and differs from the plain list if and only if these are not both empty |
| `MultiKey.ActionsKeepTidy` | new-api/controller/channel.go:1520-1823 | No action creates a leftover |
| `MultiKey.RowRefinesPlainList` | new-api/controller/channel.go:1376-1830 | From a row without leftovers, every sequence of actions shows what it does to a plain list if and only if it never deletes an entirely auto-disabled list |
| `OggOpus.GetOpusDuration` | new-api/common/audio.go:196-254 | Terminates on every byte sequence and returns the granule found by the recursive scan, divided by 48000 |
| `OggOpus.ScanTurn` | new-api/common/audio.go:207-249 | One turn of the loop at any offset: end of data, one byte on, truncated table, or past the page |
| `OggOpus.ScanOfBytes` | new-api/common/audio.go:207-249 | A page given by its bytes: the signed 64-bit number at offset 6, lowest byte first, is taken into the maximum, and the scan goes on after 27 bytes, the segment table and the sum of its lengths |
| `OggOpus.LittleEndianRoundTrip` | new-api/common/audio.go:229-229 | Little-endian bytes decode to the number they encode |
| `OggOpus.GranuleRoundTrip` | new-api/common/audio.go:229-229 | The signed 64-bit granule position survives encoding |
| `OggOpus.ScanOfPage` | new-api/common/audio.go:228-249 | An encoded page of section 6 of RFC 3533 is skipped as a whole and its granule is taken into the maximum |
| `OggOpus.NoFalseStart` | new-api/common/audio.go:219-226 | No capture pattern begins in junk without one and ends in the page after it |
| `OggOpus.ScanSkipsJunk` | new-api/common/audio.go:219-226 | Stepping back 26 of 27 bytes finds the next page behind any such junk |
| `OggOpus.ScanFindsMaxGranule` | new-api/common/audio.go:196-254 | On any stream of pages interleaved with junk the scan returns the maximum signed granule position |
| `OggOpus.MaxGranuleIsMaximum` | new-api/common/audio.go:229-232 | That value is an upper bound, at least the start value, and one of the pages' or the start value |
| `SelfUpdate.BackUp` | new-api/controller/update.go:321-334 | Old binary and old web tree step aside; in every state a crash could leave, the old binary is at the live or the backup path |
| `SelfUpdate.Install` | new-api/controller/update.go:336-348 | Succeeds exactly when the rename of the new binary can; then the new binary is live and gone from its old place, else the old one steps back if it can; no intermediate state loses it |
| `SelfUpdate.PerformUpdate` | new-api/controller/update.go:284-349 | Succeeds exactly when pull, create, copy, the backup of a binary that is there and the install work; then the copied binary is live, the old one is the backup, and the new web tree is live if there was none; which error says what; and after every file operation, with any of them failing, the old binary is at the live or the backup path |
| `SelfUpdate.RollbackUpdate` | new-api/controller/update.go:125-163 | Succeeds exactly when there is a backup and its rename can be done; then the backup is live, else nothing has changed; no intermediate state loses the backed-up binary, with any operation failing |
| `SelfUpdate.UpdateGoesLive` | new-api/controller/update.go:284-349 | When an update succeeds, in terms of the environment and the starting tree, and that the new binary is then live and the old one the backup |
| `SelfUpdate.FailedUpdateKeepsBinary` | new-api/controller/update.go:284-349 | A failed update leaves the old binary live unless both the install and the step back failed, and then it is the backup |
| `SelfUpdate.RollbackRestoresBinary` | new-api/controller/update.go:125-163 | A successful update followed by a successful rollback restores the binary |
| `SelfUpdate.WebAfterUpdate` | new-api/controller/update.go:330-346 | Where a successful update leaves the old web tree: the backup if it stepped aside, else still live, since a rename never replaces a directory |
| `SelfUpdate.WebAfterRollback` | new-api/controller/update.go:146-152 | What a successful rollback makes of the web tree: untouched, the backup, nothing, or what an incomplete removal left |
| `SelfUpdate.RollbackRestoresWebExactlyWhen` | new-api/controller/update.go:125-163 | With any removal incomplete and any rename of the web tree failing, a successful update and a successful rollback restore the web tree if and only if the stated combination of outcomes holds |
| `SelfUpdate.StaleBackupReplacesWeb` | new-api/controller/update.go:330-334 | An older backup that is only half removed replaces the live tree, although update and rollback report success |
| `ModelEnrichment.EnrichModels` | new-api/controller/model_meta.go:164-330 | Every model in the list, also one listed twice: an exact model gets its own lookups; a rule model gets, in price list order, exactly the names that its name begins, ends or is contained in, as its rule says, with the endpoints (when unset), groups and strictly sorted quota types of those prices, and the channels bound to those names |
| `ModelEnrichment.MatchesStandsFor` | new-api/controller/model_meta.go:218-230 | A price matches exactly when its name is a + model name + b, with a empty for a prefix rule, b empty for a suffix rule, both free for a contains rule, and never for another rule |
| `ModelEnrichment.MatchedInPriceOrder` | new-api/controller/model_meta.go:218-258 | The matched names are those at ascending positions of the price list, and no other position matches |
| `ModelEnrichment.EnrichedRuleByName` | new-api/controller/model_meta.go:276-329 | What the description of a rule model says about names, endpoints, groups, quota types and channels, in terms of names alone |
| `ModelEnrichment.Partition` | new-api/controller/model_meta.go:169-184 | The index map and the index list hold exactly the positions of exact and rule models |
| `ModelEnrichment.GatherMatches` | new-api/controller/model_meta.go:212-260 | One pass over prices and rules gathers for each rule what a pass for that rule alone would |
| `ModelEnrichment.GatherOne` | new-api/controller/model_meta.go:218-258 | One more price list entry extends names and unions, or nothing when it does not match |
| `ModelEnrichment.EnrichExact` | new-api/controller/model_meta.go:189-203 | Ranging over the index map fills in every exact model, once or repeatedly, and leaves rule models alone |
| `ModelEnrichment.KeyIsInjective` | new-api/controller/model_meta.go:311-317 | The string key separates channels exactly by name and type, even when names contain underscores |
| `ModelEnrichment.UnionOfChannels` | new-api/controller/model_meta.go:310-317 | The keyed map holds exactly the channels bound to any matched name |
| `ModelEnrichment.BackFillChannels` | new-api/controller/model_meta.go:309-324 | A rule model gets exactly the channels bound to its matched names, each once, and keeps its own when there are none |
| `ModelEnrichment.BackFill` | new-api/controller/model_meta.go:276-329 | Filling in one rule model from what was gathered, endpoints only when unset |
| `ModelEnrichment.EnrichedTwice` | new-api/controller/model_meta.go:276-329 | Filling in a model twice is allowed by the description of filling it in once |
| `HashCodec.PrintFields` | new-api/common/redis.go:113-144 | The loop prints one text per field that is not a deletion time |
| `HashCodec.HashKey.RedisHSetObj` | new-api/common/redis.go:107-159 | The key afterwards holds the printed fields over what it held; a struct with nothing to store and a failing transaction are reported and change nothing |
| `HashCodec.ParseFields` | new-api/common/redis.go:172-241 | Fields are set in order, the first bad text stops with its error, a key without entries is reported and changes nothing |
| `HashCodec.HashKey.RedisHGetObj` | new-api/common/redis.go:161-241 | The same from the key, which stays as it is; "not found" is reported exactly for a key without entries, and the struct is then as before |
| `HashCodec.EncodeStores` | new-api/common/redis.go:113-144 | With distinct names each field's own text is stored under its name |
| `HashCodec.StoredText` | new-api/common/redis.go:113-144 | What text stands under a field's name: the string itself, the decimal number, "true" or "false", "" for a nil pointer, and nothing for a deletion time |
| `HashCodec.FieldRoundTrip` | new-api/common/redis.go:188-238 | Reading a written field into its zero value gives the field back, a pointer to the empty string as nil, whatever the key held before |
| `HashCodec.StructRoundTrip` | new-api/common/redis.go:113-238 | Reading a written struct into a zero struct succeeds and gives every field so |
| `HashCodec.WriteThenRead` | new-api/common/redis.go:107-241 | Through the key itself: writing fails only when there is nothing to store, and what was written is read back so |
| `HashCodec.LosslessExactlyWhen` | new-api/common/redis.go:113-238 | For a struct that can be written the round trip is the identity if and only if no pointer points to the empty string and no deletion time is set |
| `Decimal.ParseUndoesPrint` | new-api/common/redis.go:209-214 | Parsing what was printed gives the number back exactly in the signed 64-bit range |
| `Decimal.PrintIsDecimal` | new-api/common/redis.go:142-143 | Printing is decimal: one digit is its character, a further digit is appended, a negative number has the sign in front |
| `Decimal.PrintIsInjective` | new-api/controller/model_meta.go:314-314 | Different numbers print differently |

## Left out

Weaker or narrower than the source:

- RatioSync.BuildDifferences: ratios are reals, so rounding, infinities and NaN are not modelled; a ratio table that is not a JSON object counts as absent.
- RatioSync.NumericDifferences: needs numeric upstream values and distinct channel names; other data is covered by RatioSync.BuildDifferences and RatioSync.ListedExactlyWhen.
- RatioSync.SyncConverges: taking over a channel's values is done by the web page, so it is modelled as a function on the local data.
- FetchPool.PoolDeliversOneResultEach: what happens between taking a slot and sending (request, retries, decoding) is one step with an arbitrary result.
- OrderSettlement.CreditedAtMostOnce: covers EpayNotify, AdminCompleteTopUp and sessionExpired; Stripe and Creem settlements run in their own row-locking transactions and are not interleaved here. It does not claim that a settled order keeps its status, because the expiry callback overwrites it.
- VideoBilling.ConservedExactlyWhen: a refused row write after a re-pricing moves the balance without the row, so conservation is stated for stored rows and refunds; float arithmetic of the price is modelled over reals.
- VideoBilling.CycleConservesExactlyWhen: assumes non-negative quotas, which `VideoBilling.QuotasStayNonNegative` keeps, and that rows and refunds are stored.
- VideoBilling.RefundAtMostOnce: assumes one poller and cycles that visit a row once (VideoBilling.CycleBoundedExactlyWhen says what repeated visits do); it counts attempted refunds, whether or not the balance write succeeds.
- Midjourney.RefundAtMostOnce: assumes one poller, cycles that answer a task once (Midjourney.CycleBoundedExactlyWhen says what repeated answers do), and answers only about tasks that were asked for; an unknown task id makes the source dereference nil.
- RateLimit.InMemoryRateLimiter.Request: a negative limit for a new key panics in the source and is excluded; that the answer counts the history is stated for callers that keep one limit of at least one per key on a clock that never goes back, for others the store it leaves.
- BodyStorage.ReplayOnBoth: empty reads are excluded (the two libraries answer them differently at the end); I/O errors on an open file, whence values other than 0 to 2, and writing through the slice that Bytes returns are not modelled.
- BodyStorage.CreateBodyStorageFromReader: a read error of the stream is not modelled; a disk error may strike only before anything is written.
- BodyStorage.CreateBodyStorage: the hit counters and 64-bit overflow of configured megabytes are not modelled.
- CacheAccounting.UsageIsBounded: for bodies of known size only; a streamed body is checked by its announced length and may be larger.
- MultiKey.Channel.ManageMultiKeys: keys are plain lines; JSON-array keys, blank lines and keys that open a bracket are excluded, as are unknown actions and the paging of the status page.
- MultiKey.Channel.Update: assumes that a row is written as a whole and that an empty string is skipped, as the database layer does for struct updates.
- MultiKey.Channel.HandlerMultiKeyUpdate: the text stored as the channel's own reason is not modelled, nor is the in-memory copy of the channel.
- OggOpus.ScanFindsMaxGranule: pages are given by their encoder; checksums are not verified, because the source does not.
- SelfUpdate.PerformUpdate: docker commands are parameters and a stat call tells the truth; restarting and comparing versions are left out.
- ModelEnrichment.EnrichModels: a failing channel query, which the source ignores, is not modelled; the caches behind endpoints, groups and quota types are lookups.
- HashCodec.StructRoundTrip: types that print themselves, nested structs other than deletion times and integers narrower than int are outside it, as is a key that holds an entry under the name of a deletion time, which these functions never write; time parsing is a parameter, and expiry of keys is not modelled.

Not modelled, because the work is input and output or lies in code that is not here:

- HTTP handlers, JSON binding, sign-in flows, webhook signatures, the relay adapters and their retry loop.
- Order creation, payment links and price calculation for top-ups.
- Refunds of Suno tasks, which precede the update of the task and are not exactly-once when writes fail.
- The cache and batch paths of user quota, logs and usage statistics.
- Durations of audio formats other than Ogg Opus.
- Choice of the next key in polling and random mode.
