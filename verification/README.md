# Metrics agent and server: a verified model

The agent reads gauges and counters from its machine and sends them in batches; the server
checks, groups and stores them, in memory with a file behind it or in PostgreSQL. This project
models the parts of both programs where something can go wrong across several functions, and
proves what those parts keep.

| modules | what they model |
|---|---|
| `Pipeline` | the agent's goroutines and bounded channels as a labelled transition system, from start to graceful shutdown |
| `PipelineService` | the pipeline while it serves: delivery, capacity, what timeouts and a cancelled parent can do |
| `EndToEnd` | what PollCount becomes on the server |
| `GroupedTransactions` | the batch handler's grouping in front of a database transaction |
| `Metrics`, `MemStorage`, `Handlers` | the metric record, the in-memory store with its file, the batch handler |
| `Database`, `Retry` | the PostgreSQL table, transactions with lost answers, and the retry loop around them |
| `LockedStore` | the in-memory store under its read-write lock, step by step, in every interleaving |
| `Durability`, `StorageManager` | any number of server lifetimes on one file; the storage manager as a class |
| `Crypto`, `Base64`, `BodyCodec` | block-wise RSA with PKCS#1 v1.5 padding, Base64, and the two middlewares that undo them |
| `Signing`, `Decimal`, `Durations` | canonical signed texts, printed and parsed integers, interval settings |
| `ExitCheck` | the analyser that forbids `os.Exit` in `main` |
| `Int64`, `Wrappers`, `Http` | wrap-around of 64-bit integers; `Option` and `Result`; status codes |

`dafny verify dfyconfig.toml` checks everything.

Objects that the program updates in place are classes (`MemStorage`, `DatabaseStorage`,
`StorageManager`, `Handlers`, `Request`, `Pass`); each method's contract gives the new state by a
function, and lemmas say what that function means. Concurrent parts are step relations over
immutable states: one action is one atomic step of one goroutine, a run is any sequence of enabled
actions, and a `select` with several ready cases may pick any of them.

What the outside world decides is a parameter: the fate of each database attempt, which errors are
retriable, when a context is done, whether a file can be created, the padding bytes of each
encrypted block. HMAC, `%f`, gzip and the RSA primitive are functions with a stated assumption
(`Signing.Sound`, `BodyCodec.Lossless`, `Crypto.Matching`, `Crypto.NonZero`).

## What the proofs show about the code

- The graceful shutdown of the agent can panic, although no timeout fires. `MetricsSender.Stop`
  closes `tasks` after its workers have quit, while the submitter may still hold a batch.
  `Pipeline.StopCanCrashIff` gives the exact condition (a batch is still between the transfer
  goroutine and `tasks`), and `Pipeline.GracefulShutdownCanCrash` gives such a run from the initial
  state of any pool size. No other panic is possible without a timeout.
- A shutdown that ends in good order can abandon accepted batches, because the workers may see the
  cancelled context before the tasks. `Pipeline.StopAbandonsIff` gives the exact condition (as the
  stop begins, some accepted batch has not been taken by a worker), and
  `Pipeline.GracefulShutdownCanAbandon` a run from the initial state.
- Each PollCount delta is the running total, so after k runtime batches the server's counter has
  grown by 1 + 2 + .. + k, not by k, less the totals of batches that are missing
  (`EndToEnd.PollCountOnServer`).
- In memory, grouping a batch preserves its meaning for every map order, if every item is well-formed.
  Metrics of two different types can share a grouping key exactly when one type ends with an underscore and
  the other (`Handlers.KeysCollideIff`); `gauge` and `counter` cannot.
- With a database it does not, because the handler adds deltas with wrap-around before PostgreSQL
  makes its exact check. A batch whose items would commit is rejected when it is grouped exactly if
  the deltas of some counter add up to more than an int64 holds
  (`GroupedTransactions.GroupingKeepsAcceptanceIff`), and a batch that commits when it is grouped is
  rejected item by item exactly if some partial sum does not fit
  (`GroupedTransactions.GroupingAddsAcceptanceIff`); `GroupingCanReject` and `GroupingCanAccept` give
  an input each. The order of the map never matters (`GroupedTransactions.GroupedCommitsIff`).
- Without a key a batch request is not all-or-nothing in memory. It can fail and still change the
  store exactly when the last metric of some key is malformed and some well-formed group changes the
  store (`Handlers.PartialBatchIff`); another map order of the same batch then changes nothing
  (`Handlers.SomeOrderChangesNothing`). `Handlers.TwoItemsAppliedInPart` is an input. With a key it is
  all-or-nothing.
- A commit whose answer is lost is retried. As far as a batch fits that often, each number of commits
  from 1 to 4 is possible when `UpdateBatch` returns nil and each from 0 to 4 when it returns an error
  (`Database.PossibleCommits`); `Database.AppliedOnceIff` says when it is exactly one. Counters
  receive their delta that often, gauges end as after one application (`Database.TimesMeans`).
- With an RSA key of 11 bytes or less `EncryptLargeData` panics, never returns or reports the
  library's refusal, unless there is nothing to encrypt (`Crypto.EncryptLargeData`,
  `Crypto.RoundTripIff`).
- A NaN or an infinity in a gauge makes the final save destroy the file, because it is truncated
  before the encoder fails. A restart restores the store exactly when all gauges are finite
  (`Durability.RestartRestoresIff`); `Durability.NaNIsLost` is a run that shows it.
- `exitcheck` says it looks at the function `main`, but methods called `main` count too
  (`ExitCheck.MatchesDocumentationIff`); `ExitCheck.MethodIsReported` gives a file. It
  misses `os.Exit` under an import alias and reports `Exit` of anything else that is called `os`
  (`ExitCheck.AliasIsMissed`).

## Model

| member | source | states |
|---|---|---|
| Pipeline.EveryRunDelivers | internal/app/agent.go:49-59 | in every reachable state what the collectors enqueued is, in order, what workers took, then `tasks`, the submitter's hand, the sender's channel, the transfer's hand and the collector's channel; at most poolSize tasks run; PollCounts are 1..k; once the sender is being stopped under a live parent context everything enqueued has been accepted |
| Pipeline.InvStep | internal/app/agent.go:41-101 | every step of every goroutine keeps conservation, PollCount numbering, the order of the shutdown stages, and the explanation of panics |
| Pipeline.EveryCrashExplained | internal/app/agent.go:157-174 | without a timeout no collector sends on a closed channel, no worker receives from a closed `tasks`, no channel is closed twice; the one panic left is the submitter's, and only after the pool has stopped |
| Pipeline.InFlightBound | internal/app/agent.go:328-343 | a pool never runs more tasks than it has workers, and none once no worker is running |
| Pipeline.PollsCountedStep | internal/app/agent.go:188-206 | the runtime batches sent carry 1, 2, .. k without a gap, in int64 arithmetic |
| Pipeline.MeasureDecreases | internal/app/agent.go:328-347 | once the collectors are gone every step makes a weighted sum over the stages smaller |
| Pipeline.RunsAreBounded | internal/app/agent.go:49-59 | once the collectors are gone every run is finite, with an explicit bound |
| Pipeline.NeverStuck | internal/app/agent.go:76-87 | after the signal, with at least one worker, the three bounded channels cannot deadlock: some step other than a timeout is enabled until everything has exited |
| Pipeline.ShutdownTerminates | internal/app/agent.go:73-87 | after the signal, with the collectors gone, every run is bounded and every run that has neither panicked nor finished the shutdown can go on |
| Pipeline.DrainedStopIsSafe | internal/app/agent.go:419-436 | stopping a drained sender never panics without timeouts and accepts nothing more |
| Pipeline.DrainedStopAccounts | internal/app/agent.go:349-364 | after such a stop the accepted batches are the executed ones plus those left in `tasks` |
| Pipeline.StopCanCrashIff | internal/app/agent.go:419-436 | the stop of a sender can panic without a timeout, before the process is done stopping, if and only if, as it begins, a batch is between the transfer goroutine and `tasks`; otherwise no run without a timeout panics |
| Pipeline.UndrainedStopCrashes | internal/app/agent.go:410-416 | from every undrained stop some run ends in the submitter sending on the closed `tasks`, while the sender is still being stopped |
| Pipeline.GracefulShutdownCanCrash | internal/app/agent.go:41-101 | for every pool size a run from the start reaches that panic with no timeout, the parent context live and the sender still being stopped |
| Pipeline.StopAbandonsIff | internal/app/agent.go:349-364 | the stop of a sender can return, without a timeout or a panic, with an accepted batch not executed if and only if some accepted batch is untaken as it begins |
| Pipeline.ExitingRun | internal/app/agent.go:328-343 | from every such stop a run leads to the process exit |
| Pipeline.AbandonsAtRestIff | internal/app/agent.go:410-436 | even if every goroutine is given the time to exit by itself a batch can be abandoned, if and only if one is untaken and the untaken ones fit into `tasks` or some worker has not quit |
| Pipeline.AbandoningRun | internal/app/agent.go:328-343 | from every drained stop with tasks left a run ends in good order and leaves them all |
| Pipeline.Settle | internal/app/agent.go:328-347 | from every undrained stop that can abandon a batch a run drains the sender without a panic and leaves a batch in `tasks` |
| Pipeline.GracefulShutdownCanAbandon | internal/app/agent.go:41-101 | for every pool size a run from the start shuts down in good order and abandons an accepted batch |
| Pipeline.SentIsExecutedOrMissing | internal/app/agent.go:49-59 | in every reachable state the batches enqueued are those executed, those running and those waiting, each counted once |
| PipelineService.EverythingIsExecuted | internal/app/agent.go:182-232 | while the agent serves under a live parent with at least one worker, some run without a tick, a signal, a timeout or anybody leaving executes everything that was sent or is held by the collectors, and leaves both polling |
| PipelineService.ServiceNeverStuck | internal/app/agent.go:49-59 | as long as a batch is held, waiting or running, a step that moves batches is enabled |
| PipelineService.TickAndSend | internal/app/agent.go:194-207 | a polling collector with room on its channel can tick and send; the batch carries its readings and the next PollCount |
| PipelineService.ShutdownCanBePutOff | internal/app/agent.go:194-207 | any number of batches can be sent and executed after the signal, because a cancelled collector may pick its ticker again |
| PipelineService.Holds302 | internal/app/agent.go:136-145 | n batches can wait between the collectors and the workers if and only if n <= 302: three channels of 100 and two hands |
| PipelineService.PossibleCrashes | internal/app/agent.go:157-174 | with timeouts exactly three panics can happen: a collector sends late, a worker runs a nil task, the submitter sends late |
| PipelineService.CarriedBatchCanBeLost | internal/app/agent.go:51-57 | whenever the transfer goroutine carries a batch the parent context can end and the batch be dropped, even where there is room for it |
| PipelineService.CancelledParentLosesABatch | internal/app/agent.go:49-59 | when the parent context ends, a batch can be sent and never accepted, without a timeout or a panic |
| PipelineService.SlowTaskIsLeftRunning | internal/app/agent.go:419-436 | the stop can return by its timeout while a task is still running |
| EndToEnd.PollCountOnServer | internal/app/agent.go:188-203 | whatever part of what any run of an agent sent is delivered, in any order, each batch grouped by the handler in any map order: PollCount grows by 1 + .. + k less the PollCounts of the missing batches, wrapped, k being the number of runtime batches sent |
| EndToEnd.PollCountOfExecuted | internal/app/agent.go:410-416 | in particular for the batches whose tasks were executed; the missing ones are those running or waiting in the pipeline |
| EndToEnd.TriangleIs | internal/app/agent.go:200-203 | that sum is k(k+1)/2 |
| EndToEnd.PollSumPermutation | internal/storage/memstorage.go:35-39 | the order in which the workers deliver batches does not change the sum |
| MemStorage.GoodPrefix | internal/storage/memstorage.go:173-189 | where a batch update stops: everything before is well-formed, the metric there is not |
| MemStorage.Complaint | internal/storage/memstorage.go:175-188 | an error is reported exactly for a metric that is not well-formed |
| MemStorage.ReplayGauge | internal/storage/memstorage.go:28-32 | after any list of updates a gauge has its last value; one that nobody wrote is unchanged |
| MemStorage.ReplayCounter | internal/storage/memstorage.go:35-39 | after any list of updates a counter is its old value plus the sum of its deltas, wrapped once; it exists if and only if it did or some delta came in |
| MemStorage.SameEffect | internal/storage/memstorage.go:166-192 | lists that agree on last gauges and on counter sums modulo 2^64 have the same effect on every store |
| MemStorage.MemStorage.UpdateGauge | internal/storage/memstorage.go:28-32 | sets this gauge and nothing else |
| MemStorage.MemStorage.UpdateCounter | internal/storage/memstorage.go:35-39 | adds to this counter with wrap-around, from 0 when absent, and changes nothing else |
| MemStorage.MemStorage.GetGauge | internal/storage/memstorage.go:42-52 | finds a gauge exactly when there is one |
| MemStorage.MemStorage.GetCounter | internal/storage/memstorage.go:55-65 | finds a counter exactly when there is one |
| MemStorage.MemStorage.UpdateBatch | internal/storage/memstorage.go:166-192 | on any list applies exactly the longest well-formed prefix and returns nil exactly when all are well-formed; otherwise names what the first bad metric lacks |
| MemStorage.CopyOut | internal/storage/memstorage.go:96-110 | copying a map entry by entry in any order gives an equal map |
| MemStorage.MemStorage.SaveToFile | internal/storage/memstorage.go:96-122 | the file holds the store afterwards, or is destroyed when a gauge is not finite, or is untouched when it could not be created |
| MemStorage.MemStorage.LoadFromFile | internal/storage/memstorage.go:124-147 | the store is replaced by the file's, and a failed load changes nothing |
| Handlers.KeyInjective | internal/server/handlers.go:526 | for well-formed metrics the grouping key determines ID and type |
| Handlers.KeysCollideIff | internal/server/handlers.go:526 | for any two types, two different IDs can give the same key if and only if the types differ and one ends with an underscore and the other |
| Handlers.CoalescingPreservesMeaning | internal/server/handlers.go:523-540 | for every well-formed batch, every order of the groups and every store, applying the groups equals applying the original items one by one |
| Handlers.GroupIsLast | internal/server/handlers.go:527-534 | each group is the last metric with its key, but for a counter's delta |
| Handlers.GroupDeltaIs | internal/server/handlers.go:527-534 | for any batch the delta of a counter group is the wrapped sum of the deltas after the last metric of its key without one |
| Handlers.GroupsWellFormedIff | internal/server/handlers.go:523-540 | every group is well-formed if and only if the last metric of every key is |
| Handlers.GroupByKey | internal/server/handlers.go:523-535 | the grouping loop builds the map that the two lemmas above speak about |
| Handlers.Coalesce | internal/server/handlers.go:523-540 | lists every group exactly once, in an arbitrary order |
| Handlers.Handlers.UpdatesHandler | internal/server/handlers.go:490-550 | answers 400 exactly for a body that is not JSON, not a batch or empty, or with a key for an item that does not verify, and changes nothing then; answers 200 exactly when the last metrics per key are well-formed besides; a well-formed batch then has the effect of its items one by one; with a key no other outcome exists; without one, a 500 has applied some order of the groups up to its first bad group |
| Handlers.PartialBatchIff | internal/server/handlers.go:537-547 | for every batch and store, some map order fails and has changed the store if and only if the last metric of some key is malformed and some well-formed group changes the store |
| Handlers.SomeOrderChangesNothing | internal/server/handlers.go:537-547 | every batch with such a malformed metric also has an order that fails and changes nothing |
| Handlers.TwoItemsAppliedInPart | internal/server/handlers.go:537-547 | a batch of two items and an order that fails and has changed the empty store |
| Signing.VerifiedIff | internal/server/handlers.go:161-200 | an item passes if and only if it is well-formed and carries the MAC of its canonical text |
| Signing.HashVerifiesIff | internal/utils/hash.go:13-33 | a hash verifies if and only if there is no key, none is expected, or it is the MAC; what CalculateHash gives verifies |
| Signing.NewMetricIs | internal/app/agent.go:104-121 | the agent's metric carries the ID, type, value and delta it was given; its hash is empty without a key, the MAC of `id:type:value` for a complete metric, and the MAC of the empty text otherwise |
| Signing.NewMetricVerifies | internal/app/agent.go:104-121 | the metric passes the item check and the body path of the request check under the same key if and only if the agent was given a gauge with a value or a counter with a delta |
| Signing.RequestPassesIff | internal/server/handlers.go:100-158 | a single-metric request passes if and only if there is no key, its hash header is "none" or the MAC of the body, or without a header the metric has no hash or the MAC of its canonical text |
| Signing.StampedMetricVerifies | internal/server/handlers.go:42-62 | stamping sets the hash of a well-formed metric to the MAC of its canonical text and changes nothing else, and nothing at all without a key or a value; the result passes the checks |
| Signing.CanonicalDetermines | internal/server/handlers.go:175-196 | the text `id:type:value` determines ID, type, a counter's delta and a gauge's printed value, even when the ID contains colons |
| Decimal.ValueOfDigits | internal/app/agent.go:116 | reading back the digits of a number gives the number |
| Decimal.NoLeadingZero | internal/app/agent.go:116 | no number is printed with a leading zero |
| Decimal.PrintInjective | internal/app/agent.go:116 | different integers print differently |
| Retry.Retry | internal/utils/retry.go:79-111 | at most MaxAttempts calls; no call after a check that sees the context done; every call but the last failed retriably; the delays entered are a prefix of those configured; each way to return has exactly its cause; no panic when there are at least MaxAttempts - 1 delays |
| Retry.RetriesDeterministic | internal/utils/retry.go:79-111 | these rules leave no choice: the same circumstances give the same calls, delays and result |
| Retry.RetryEnds | internal/utils/retry.go:79-111 | the first attempt that does not fail retriably under a live context decides: success, the error as non-retriable, giving up at the last attempt, or cancellation before or after it |
| Retry.DefaultGivesUp | internal/utils/retry.go:22-27 | giving up under the default configuration means four calls with pauses of 1, 3 and 5 seconds |
| Retry.IndexPanicPossibleIff | internal/utils/retry.go:103 | indexing the delays can panic if and only if there are fewer than MaxAttempts - 1 |
| Retry.RetryWithBackoff | internal/utils/retry.go:114-126 | panics exactly when the number of delays is negative or more than a slice can hold, and otherwise retries with the delays base * 2^i, in int64 arithmetic |
| Retry.BackoffExactIff | internal/utils/retry.go:120-123 | no delay overflows if and only if the longest one is below 2^63 |
| Retry.BackoffTotal | internal/utils/retry.go:120-123 | exact delays add up to base * (2^n - 1) |
| Retry.GivingUpWaits | internal/utils/retry.go:114-126 | giving up after all attempts has waited exactly base * (2^(maxAttempts-1) - 1) when no delay overflows |
| Database.UpsertGaugeSimulates | internal/storage/database.go:50-70 | the upsert of a gauge is the in-memory write and keeps the table consistent |
| Database.UpsertCounterSucceedsIff | internal/storage/database.go:73-93 | the upsert of a counter succeeds if and only if the exact sum fits a BIGINT |
| Database.UpsertCounterSimulates | internal/storage/database.go:73-93 | when it succeeds it is the in-memory addition and keeps the table consistent |
| Database.UpsertSetsOneCell | internal/storage/database.go:50-93 | on any table an upsert of a known key sets one cell, and NULL plus a delta stays NULL |
| Database.ExecMetricSimulates | internal/storage/database.go:213-249 | a statement of the transaction succeeds exactly for acceptable metrics and then does what memory does; metrics without a value are skipped |
| Database.ExecMetricRefusal | internal/storage/database.go:213-249 | a statement is refused, and with which error, by the type, by the name (more than 255 characters or a zero character) or by the range of the sum |
| Database.ExecBatchSimulates | internal/storage/database.go:206-253 | a transaction commits if and only if every metric is acceptable when its turn comes, and then equals the in-memory replay |
| Database.FirstRefusal | internal/storage/database.go:213-253 | a transaction that does not commit reports the refusal of its first metric that is not acceptable in its turn |
| Database.Transaction | internal/storage/database.go:206-253 | the loop over the metrics, with its early returns, computes that transaction |
| Database.RunSimulatesMemory | migrations/001_create_metrics_table.sql:3-11 | every table reachable from the empty one has one row per (name, type), no NULL where a value is needed and NULL in the other column; while all operations succeed it stands for what memory holds |
| Database.AttemptsCommit | internal/storage/database.go:206-254 | after n attempts the table is the old one with the batch committed j <= n times in a row, j >= 1 when the last attempt returned nil |
| Database.NothingLost | internal/storage/database.go:206-254 | when failed attempts have no effect, j is 1 on nil and 0 on error |
| Database.CommitsAre | internal/storage/database.go:206-254 | every attempt that reached the database took effect until the batch no longer fitted |
| Database.AllTookEffectIff | internal/storage/database.go:206-254 | all attempts that reached the database took effect if and only if the batch fits that often |
| Database.AppliedOnceIff | internal/storage/database.go:206-254 | a retried batch is applied exactly once if and only if it fits once and one attempt reached the database, or more did and it does not fit twice |
| Database.PossibleCommits | internal/storage/database.go:206-254 | j commits can happen if and only if the batch fits j times and 1 <= j <= 4 on nil, 0 <= j <= 4 on error |
| Database.FittingBatchEnds | internal/storage/database.go:206-254 | after lost connections the first undisturbed attempt commits a batch that fits, on top of the attempts whose answers were lost, and the call returns nil |
| Database.RefusedBatchEnds | internal/utils/retry.go:94-107 | a refused batch never has an effect, and a refusal that is not retriable ends the call at the first attempt that reaches the database, with that error |
| Database.FourCommitsAndAnError | internal/utils/retry.go:79-111 | when every answer is lost, the errors are retriable and nobody cancels, a batch that fits four times is committed four times and reported as failed |
| Database.ReplayTimesCounter | internal/storage/memstorage.go:35-39 | j applications of a batch add j times its total to a counter |
| Database.ReplayTimesGauges | internal/storage/memstorage.go:28-32 | applying a batch again leaves the gauges as they are |
| Database.TimesMeans | internal/storage/database.go:200-255 | j commits of a batch leave a consistent table, each counter with j times its total, the gauges as after one commit |
| Database.DatabaseStorage.UpdateBatch | internal/storage/database.go:200-255 | the call is a retry under the default configuration; the table is the old one with the batch committed as often as the attempts made say: 1 to 4 times on nil, 0 to 4 on error, exactly once or not at all when no answer is lost, four times and an error when every answer is; an empty batch does nothing |
| Database.DatabaseStorage.UpdateGauge | internal/storage/database.go:50-70 | the gauge is set or the table unchanged, however often the statement took effect |
| Database.DatabaseStorage.UpdateCounter | internal/storage/database.go:73-93 | the delta is added as often as the statement took effect, at most four times; undisturbed, once exactly when the name is accepted and the sum fits |
| Database.DatabaseStorage.GetGauge | internal/storage/database.go:96-112 | the retried query gives the gauge the table stands for, or the reason why the retries ended; undisturbed it finds exactly what is there |
| Database.DatabaseStorage.GetCounter | internal/storage/database.go:115-131 | the retried query gives the counter the table stands for, or the reason why the retries ended; undisturbed it finds exactly what is there |
| Database.Query | internal/storage/database.go:103-111 | the retry around a query returns the value found, or the verdict of the retries |
| Database.ReadEnds | internal/storage/database.go:103-111 | after lost connections that are worth a retry, the first attempt that gets through decides between the value and not found; a connection error that is not retriable, the fourth loss and the context end the read each with its own error |
| Database.DatabaseStorage.GetAllCounters | internal/storage/database.go:157-177 | for every order of the rows the map holds exactly the counters whose rows can be read, and is empty when the query fails |
| GroupedTransactions.GroupedTransaction | internal/server/handlers.go:523-543 | a well-formed batch, grouped in any order and committed as one transaction, leaves the database as the original items leave memory |
| GroupedTransactions.ItemsCommitIff | internal/storage/database.go:206-253 | the ungrouped items of a well-formed batch commit if and only if all names are accepted and every partial sum of every counter fits a BIGINT |
| GroupedTransactions.GroupDelta | internal/server/handlers.go:527-533 | the delta of a group is the wrapped sum of the deltas of its items |
| GroupedTransactions.GroupedCommitsIff | internal/server/handlers.go:537-543 | a grouped batch commits, in any map order, if and only if all names are accepted and, for each counter, the wrapped sum of its deltas added to what the table has fits |
| GroupedTransactions.GroupingKeepsAcceptanceIff | internal/server/handlers.go:523-543 | when the items would commit, the grouped batch does if and only if the exact sum of every counter's deltas is in range |
| GroupedTransactions.GroupingAddsAcceptanceIff | internal/server/handlers.go:523-543 | when the grouped batch commits, the items would if and only if all partial sums fit |
| GroupedTransactions.GroupingCanReject | internal/server/handlers.go:530-531 | a table and a batch whose items commit and whose groups do not |
| GroupedTransactions.GroupingCanAccept | internal/server/handlers.go:530-531 | a table and a batch whose groups commit and whose items do not |
| LockedStore.PartialIsEffect | internal/storage/memstorage.go:166-192 | the item steps of a write operation under the lock add up to its effect |
| LockedStore.InvStep | internal/storage/memstorage.go:35-65 | every step of every thread keeps the lock discipline, the memory as a log of whole operations plus the writer's progress, the half-made copies, everything observed so far, and that no update is answered for twice |
| LockedStore.DumpsArePrefixes | internal/storage/memstorage.go:96-110 | in every interleaving each dump is the store after a whole prefix of the write operations, never the middle of a batch, and the prefix includes every operation released before the copy began |
| LockedStore.AnswersIncludeOwnUpdate | internal/server/handlers.go:382-394 | the JSON handler answers with the counter after a prefix that includes its own update; unless a load came between, that is the value before, plus its own delta, plus what was added since; no two answers, given or due, are for the same update |
| LockedStore.CounterStays | internal/server/handlers.go:388-393 | until something is loaded an updated counter stays known and equals, wrapped, the value before the update plus its delta plus all later deltas |
| LockedStore.SomeoneGoesOn | internal/storage/memstorage.go:96-110 | as long as some thread is in the middle of something, some such thread can go on |
| LockedStore.OperationCompletes | internal/storage/memstorage.go:166-192 | when the lock is free any operation can be carried out, with exactly its effect |
| LockedStore.SaveCompletes | internal/storage/memstorage.go:96-110 | when nobody writes a save can be carried out, whoever else reads, and copies the memory |
| LockedStore.RequestCompletes | internal/server/handlers.go:382-394 | when the lock is free a JSON request can be carried out and answers with the old value plus its delta |
| Durability.LifetimesKeepEverything | cmd/server/main.go:134-163 | over any number of clean lifetimes with restore on and finite gauges, memory (or, between lifetimes, the file) holds exactly the updates ever accepted: wrapped sums and last values; failing periodic saves do no harm |
| Durability.RecordedStep | internal/server/storage_manager.go:75-92 | every step keeps memory, saver's copy and file equal to replays of their histories |
| Durability.FileBehindStep | internal/server/storage_manager.go:75-140 | with restore on, the file never holds anything but a prefix of what memory holds |
| Durability.SecondLoadChangesNothing | cmd/server/main.go:60-86 | the load in Start after the load at initialisation changes nothing |
| Durability.NoSaveAfterStop | internal/server/storage_manager.go:95-140 | after Stop no periodic save starts or finishes, and after the final save the file equals memory |
| Durability.SaveNow | internal/server/storage_manager.go:75-92 | whenever the server serves or waits for its saver, a waiting saver can save, and the file then holds the memory |
| Durability.LifetimeCompletes | cmd/server/main.go:165-205 | from any point between two lifetimes the server can be started, take any well-formed updates and be shut down; the file then holds what was loaded with the updates on top |
| Durability.RestartRestoresIff | internal/storage/memstorage.go:111-121 | shutdown and restart bring the store back if and only if every gauge is finite |
| Durability.NaNIsLost | internal/storage/memstorage.go:111-121 | a run from the first boot to the final save, without a kill, after which a restart does not bring back a NaN gauge |
| Durability.KillLosesASuffix | internal/server/storage_manager.go:75-92 | a kill between file writes loses at most a suffix of the updates |
| StorageManager.StorageManager.Start | internal/server/storage_manager.go:44-72 | loads when restore is on, starts one more saver for a positive interval, and does nothing after Stop |
| StorageManager.StorageManager.PeriodicSave | internal/server/storage_manager.go:75-92 | one tick puts the current store into the file or leaves it alone |
| StorageManager.StorageManager.Stop | internal/server/storage_manager.go:95-113 | afterwards no saver is running and the file is as before or equals the store; a second call changes nothing |
| StorageManager.StorageManager.Shutdown | internal/server/storage_manager.go:116-140 | the file equals the store unless there is no path or it cannot be created; the result says which |
| StorageManager.Lifetime | cmd/server/main.go:165-205 | a whole process in order: the file ends as what was loaded plus the updates, whatever was saved in between, and no saver is left running |
| Crypto.UnpadUndoesPad | internal/crypto/rsa.go:87-94 | removing PKCS#1 v1.5 padding (section 7.2 of RFC 8017) undoes adding it, for every message and non-zero padding of at least eight bytes |
| Crypto.UnpadIff | internal/crypto/rsa.go:92-94 | a block is accepted if and only if it is 00 02, at least eight non-zero bytes, 00 and the message |
| Crypto.EncryptDataSucceedsIff | internal/crypto/rsa.go:87-89 | a block is encrypted if and only if the library takes the key and the message is at least 11 bytes shorter |
| Crypto.BlockRoundTrip | internal/crypto/rsa.go:87-94 | every message within the limit of section 7.2.1 of RFC 8017 is accepted and comes back |
| Crypto.BlockCountIsCeiling | internal/crypto/utils.go:70-85 | the number of blocks is the least number, at least one, with room for the data |
| Crypto.BlocksLength | internal/crypto/utils.go:70-85 | the block loop always succeeds and puts out one key length per block |
| Crypto.ShortcutAgrees | internal/crypto/utils.go:66-68 | the one-block shortcut agrees with the loop on non-empty data |
| Crypto.LargeRoundTrip | internal/crypto/utils.go:61-110 | decryption undoes encryption for every byte string, pair of keys longer than 11 bytes and padding; the ciphertext is key size times block count |
| Crypto.RoundTripIff | internal/crypto/utils.go:61-110 | over all pairs of keys data comes back if and only if the key is longer than 11 bytes or the data is empty |
| Crypto.DecryptsIff | internal/crypto/utils.go:91-110 | data decrypts if and only if it is whole blocks that all decrypt to an encoded message; a bad length and a bad block are told apart |
| Crypto.RefusedKeyDecryptsNothing | internal/crypto/rsa.go:92-94 | a key the library refuses decrypts nothing but the empty text |
| Crypto.EncryptLargeData | internal/crypto/utils.go:61-88 | for every key the loop, with its clipped last block, computes the function of the lemmas, including the panic and the endless loop of short keys |
| Crypto.DecryptLargeData | internal/crypto/utils.go:91-110 | so does the decrypting loop, with its length check and its errors |
| Base64.RoundTrip | internal/middleware/decrypt.go:38 | decoding undoes encoding (section 4 of RFC 4648) for every byte string, with line breaks skipped by the decoder |
| Base64.DecodesIff | internal/middleware/decrypt.go:38-42 | text without line breaks decodes if and only if its length is a multiple of four and all characters before at most two padding characters are in the alphabet |
| Base64.BreaksIgnored | internal/middleware/decrypt.go:38-42 | a line break anywhere makes no difference |
| Base64.TestVectors | internal/app/agent.go:500 | the alphabet is that of RFC 4648, by a test vector of section 10 and its last two characters |
| Base64.EncodeIsClean | internal/app/agent.go:500 | encoded text has no line break and no bracket in front |
| BodyCodec.DecryptedIsCompressed | internal/middleware/decrypt.go:16-60 | the decrypting middleware turns an encrypted request into the compressed one, with its length and its header |
| BodyCodec.DeliveredIff | internal/app/agent.go:465-513 | the handler reads the JSON array the agent sent if and only if the agent does not encrypt, or encrypts with a key longer than 11 bytes and the server has its partner; a private key that is no partner need only reject this one message |
| BodyCodec.AgentSends | internal/app/agent.go:492-513 | without a key the compressed text goes out as gzip, with one text that decodes to the ciphertext as encrypted, each with its length |
| BodyCodec.DecryptMiddleware | internal/middleware/decrypt.go:16-60 | leaves a request alone that is not encrypted or cannot be decrypted for lack of a key; rewrites body, length and header together; or answers 400 (body unreadable, not Base64, not decryptable) and changes nothing |
| BodyCodec.GzipMiddleware | internal/middleware/gzip.go:26-38 | leaves a request without gzip alone, puts a gzip reader before the body of a gzip request, or answers 400 when it does not begin like gzip |
| BodyCodec.Serve | internal/server/router.go:42-43 | through both middlewares a plain body is read as it is, a compressed one inflated, an encrypted one decrypted and inflated; what cannot be decrypted or does not begin like gzip is answered with 400 |
| BodyCodec.ContainsIff | internal/middleware/gzip.go:27 | the header test finds gzip anywhere in the header |
| Durations.PrintedSecondsParse | internal/config/json.go:48-64 | printing n seconds and parsing gives n if and only if 1 <= n <= 9223372036; any other n is rejected |
| Durations.TermsParse | internal/config/json.go:48-64 | number-unit terms that fit an int64 parse to the sum of what they mean, with either sign; those of microseconds or more that do not fit are rejected |
| Durations.OneUnitParses | internal/config/json.go:48-64 | a number with one of the units h, m, s, ms, us, ns means that many of them, or is rejected when it does not fit |
| Durations.HoursMinutesSeconds | internal/config/json.go:48-64 | h hours, m minutes and s seconds are 3600 h + 60 m + s seconds, or rejected when they do not fit or are zero |
| Durations.WholeSecondsCount | internal/config/json.go:55-63 | of any such duration the whole seconds count, and less than one is rejected |
| Durations.UnknownUnit | internal/config/json.go:48-64 | any other unit is rejected |
| Durations.FractionIsTold | internal/config/json.go:48-64 | a fraction after terms that fit is told apart from an error |
| Durations.MicroSpellings | internal/config/json.go:48-64 | microseconds may be spelled with either micro sign |
| Durations.AtoiPrint | internal/app/agent_config.go:78-92 | an environment text is taken as the number it prints, when it fits |
| Durations.AtoiSigned | internal/app/agent_config.go:78-92 | one sign and digits are taken as the number they stand for, when it fits |
| Durations.AtoiRejects | internal/app/agent_config.go:78-92 | a text with anything else in it is no number |
| Durations.TextSettings | internal/app/agent_config.go:147-165 | a text that is no number is parsed as it is, and without any text the default stands |
| Durations.BareNumberRejected | internal/config/json.go:48-64 | a number without a unit is never accepted from JSON |
| Durations.IntegerSettings | internal/app/agent_config.go:147-165 | an integer setting from flag, environment or JSON is that many seconds when in range and rejected otherwise |
| ExitCheck.Pass.Inspect | cmd/staticlint/exitcheck.go:42-62 | walking a tree appends the reports of all its nodes in order |
| ExitCheck.Pass.Run | cmd/staticlint/exitcheck.go:35-66 | the reports are those of all files of package main, in order |
| ExitCheck.IsInMainFunction | cmd/staticlint/exitcheck.go:97-120 | the search finds a declaration named main around the position exactly when there is one |
| ExitCheck.ReportsAreNested | cmd/staticlint/exitcheck.go:35-66 | the interval test reports exactly the calls syntactically nested in declarations named main, each once and in order, for every tree |
| ExitCheck.WhichCallsAreReported | cmd/staticlint/exitcheck.go:69-94 | a call is taken for os.Exit if and only if its selector is Exit on a name whose declaration belongs to package os, or on anything spelled os |
| ExitCheck.AliasIsMissed | cmd/staticlint/exitcheck.go:82-93 | os.Exit under an import alias is not reported, because the name of an import belongs to the importing package; Exit of anything else called os is |
| ExitCheck.ReportsLieInMain | cmd/staticlint/exitcheck.go:97-120 | for every tree, nothing is reported outside package main or outside declarations called main |
| ExitCheck.MatchesDocumentationIff | cmd/staticlint/exitcheck.go:97-120 | it agrees with its documentation if and only if no method named main calls os.Exit |
| ExitCheck.MethodIsReported | cmd/staticlint/exitcheck.go:97-120 | a file in which a method called main is reported against the documentation |

## Left out

- HTTP serving, chi routing, HTML pages, logging, pprof, signal delivery, goose migrations, pgx and
  connection pooling: the theorems start at a decoded request or a statement and end at a status,
  a store or a table, so they mention nothing above or below that.
- `UpdateHandler`, `ValueHandler`, `ValueJSONHandler`, `IndexHandler`, `PingHandler`: each makes one
  store call and keeps no state of its own; the store calls are modelled.
- `checkHash` and the response header: they hash whole bodies, while the theorems on signatures are
  about metrics.
- `GetAllMetrics`, `GetAllGauges` and the copies of the in-memory maps: the same loops as
  `GetAllCounters` and `CopyOut`, and no theorem uses their results.
- Key generation and key files, `cmd/migrate`, the list of analysers and build information: nothing
  that is modelled depends on how a key, a schema or a version string came to be.
- Pipeline.NeverStuck: says that some step is enabled, not that the scheduler takes it; goroutine fairness is not modelled.
- Pipeline: the process exit and the 10-second limit in `App.Run` simply end a run; whatever the goroutines would have done afterwards is cut off.
- Pipeline: sending is one `WorkerFinish` step; the network, its retries and the reuse of the request body inside them are not modelled.
- EndToEnd.PollCountOnServer: a batch delivered twice because of a retry on the network is not modelled.
- MemStorage.MemStorage.SaveToFile: one step, so a kill or a full disk in the middle of a write, and writes of two savers at once, are not modelled.
- MemStorage: a float64 is a pattern of bits marked finite or not; that JSON prints finite values without loss is assumed.
- Database: statements act on a sequence of rows; `created_at`, isolation between concurrent transactions and the 30-second deadline (other than as an observed cancellation) are not modelled.
- Database.UpsertGaugeSimulates: names of more than 255 characters whose excess is all spaces, which PostgreSQL truncates and accepts, count as rejected.
- Database.UpsertCounterSucceedsIff: the same names count as rejected.
- Database.DatabaseStorage.UpdateBatch: `Retry` receives the attempt as a function value, so the transaction inside it is the function `Attempt` on tables rather than code that changes the object; `Database.Transaction` gives its loop.
- Database.DatabaseStorage.UpdateGauge: a single statement is modelled as a transaction of one metric, which it is under autocommit.
- Retry.Retry: `IsRetriableError` is an uninterpreted predicate.
- LockedStore: the fairness and the writer preference of `sync.RWMutex` are not modelled.
- Durability: in-flight requests that outlive the HTTP shutdown, and the time limits of the shutdown, are not modelled.
- BodyCodec: JSON and gzip are abstract, and the compression of responses is not modelled.
- BodyCodec.DeliveredIff: a private key that is no partner of the public one is assumed to reject the message that was sent; by chance it can also take it for something else.
- Signing: the path of `checkJSONHash` over the hash header is in the model, but no lemma says who sends that header.
- Durations.PrintedSecondsParse: texts with a fraction such as `1.5s` are recognised but not evaluated.
- Durations: `ParseDurationToSeconds` divides exactly, while the source goes through a float64; for long texts that are not whole seconds, such as `16777216s999999999ns`, the source can round up and give one second more.
- Durations: of the configuration only the intervals are modelled, not the precedence of the other fields.
- ExitCheck: comments are not part of the trees, and two declarations are assumed to be separated by at least one character.
