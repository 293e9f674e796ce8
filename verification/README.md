# std0_quant, modelled and proved in Dafny

A model of the parts of this repository that keep state over time or carry a fast or
duplicated algorithm with a simple meaning, and proofs about them. Each file is one
module and follows one component:

| file | component |
|---|---|
| `Storage`, `Publication` | the dedupe registry and the append-only log; their durable steps and crashes |
| `WindowFetch`, `BisectionCrawl`, `SyncCompleteness`, `SyncLiveness`, `ProspectiveSync` | the strict prospective sync: one window, the bisection stack, what whole runs guarantee, when they complete and what they count, and the syncer object |
| `GammaDiscovery` | the generation and lock protocol of the discovery worker |
| `OrderBook`, `BookRows`, `LiveAudit`, `BookRecorder` | the live book and what its derived rows show, the validity state machine and gap tracker, the recorder's hooks |
| `LiveStorage`, `LiveStorageRuns` | rotating raw files, sidecars, crash recovery; whole runs with a crash anywhere |
| `Coverage` | interval merging, bucket counting, gaps |
| `OnlineRegime`, `RegimeChanges`, `RegimeBaselines` | past-only regime ids and when they change; two forms of the historical baselines |
| `Episodes`, `EpisodeResults`, `EpisodeOrder` | the frozen chaining rule; what it promises of the returned episodes, their order, and which fills are taken |
| `Lifecycle`, `Cohort`, `Checkpoints` | connection intervals and market lifecycle, the cohort manifest, fire-once checkpoints |
| `DurablePublish` | the durable directory publication under faults |
| `Wilson`, `SanityAudit` | the Wilson interval; the two sanity audits |
| `Options`, `Ordering` | shared: optional values, the stable sort, filtering, string order |

Conventions. Code that updates state is a class or a method with a loop, proved equal to a
function of its inputs or of the old state; the lemmas are about that function, over every
input, run or interleaving. Milliseconds are integers, prices and rates are reals. An
exception that leaves a call is a `None` or an error value. `trade_identity`, SHA-256 and
canonical JSON are injective: a digest is the content it is taken of, an identity is a
field of the record. Clocks, API replies, executor outcomes, failing system calls and
rival processes are parameters, quantified over.

Where the code and its own documentation disagree the model follows the code:

- `coverage.py:84-86` counts a bucket that is usable at its start or has an observation
  inside; the code at 95-102 wants the whole bucket inside one merged interval.
  `Coverage.CodeIsStricter` relates the two readings for every input.
- `polymarket_book.py:183-187` speaks of persisting the top three levels; `_sorted_levels`
  cuts to three before it drops zero-size levels (`OrderBook.PersistedListIsTopLiveIff`
  says exactly when the two are the same).
- `sync_range` promises every public fill timestamp of the millisecond interval, on the
  stated ground that API times are whole seconds. The code covers whole seconds only:
  `SyncCompleteness.CompleteMeansComplete` proves completeness for every whole-second
  time, and `SyncCompleteness.SubSecondTimeCanBeMissed` exhibits, for every other time, a
  consistent API under which the sync reports `complete` without the trade.
- `PUBLICATION_RENAMED_DURABILITY_UNCONFIRMED` is not raised when the rename worked and
  the postcondition check right after it fails, because a rival recreated the staging name
  or took the target away (`DurablePublish.UnconfirmedIffNotDisturbed`).
- A crash or an exception between the log append and the key registration makes the
  retried window repeat rows; `Publication.RetryAfterCrash` and
  `Publication.RetryAfterException` say exactly when.
- `finalize_orphan_sidecars` is to describe every raw file an unclean exit left behind. Rows
  are written without escaping (`storage.py:40`), so a row can be torn inside a character;
  reading such a file raises outside the `try` of line 61, and it blocks this and every
  later sweep that comes to it (`LiveStorage.RecoverySweep.FinalizeOrphanSidecars` says
  exactly when; `LiveStorage.CrashRecovery` that no other crash does it).
- `observation_identity` joins its parts with a bar, so an id names one observation if and
  only if the condition, the prediction time and the cutoff mode hold no bar
  (`Cohort.IdentityIsInjectiveIff`).

## Model

| member | source | states |
|---|---|---|
| Storage.SqliteState.FilterNewKeys | src/std0_quant/storage.py:156-171 | the query in chunks of 500 equals the plain order-preserving filter of unregistered keys |
| Storage.RegisteredRows | src/std0_quant/storage.py:173-185 | `INSERT OR IGNORE` adds exactly the given keys in one namespace and never overwrites who saw a key first |
| Storage.SqliteState.RegisterKeys | src/std0_quant/storage.py:173-185 | the new table, committed, and how many rows were new |
| Storage.AppendOnlyNDJSON.AppendMany | src/std0_quant/storage.py:66-79 | appends all records in order and makes them durable |
| Publication.PartwayIsReached | src/std0_quant/collectors/prospective_std0_trades.py:308-336 | the closed form of both stores after any number of publication steps |
| Publication.RegistryNeverAheadOfLog | src/std0_quant/collectors/prospective_std0_trades.py:308-336 | after any prefix of the steps every key the connection sees has its line, and after any loss of the unflushed tail so has every committed key |
| Publication.PublishKeepsExactlyOnce | src/std0_quant/collectors/prospective_std0_trades.py:308-336 | publication in full adds the fresh identities and nothing else, and leaves each registered identity in the log exactly once |
| Publication.RetryAfterCrash | src/std0_quant/collectors/prospective_std0_trades.py:308-336 | retrying after a crash keeps exactly-once if and only if no new line survived or the keys were already committed |
| Publication.RetryCanRepeat | src/std0_quant/collectors/prospective_std0_trades.py:308-336 | a concrete crash after which the retry repeats a row |
| Publication.ExceptionCommitsOnlyLoggedKeys | src/std0_quant/collectors/prospective_std0_trades.py:292-306 | when an exception leaves the publication and the failed run is recorded, the keys committed with it all have durable lines |
| Publication.RetryAfterException | src/std0_quant/collectors/prospective_std0_trades.py:292-336 | retrying in the same process keeps exactly-once if and only if no line had been written or every key had been inserted |
| WindowFetch.FetchPagesStages | src/std0_quant/collectors/prospective_std0_trades.py:213-279 | for any API, a window stages one record per fetched identity, each inside the window |
| WindowFetch.WindowPublishesAllOrNothing | src/std0_quant/collectors/prospective_std0_trades.py:168-306 | for any API, a window publishes all its distinct fresh identities or leaves both stores alone; every new line lies inside the window |
| ProspectiveSync.ProspectiveTradesSyncer.StrictPageViolation | src/std0_quant/collectors/prospective_std0_trades.py:339-366 | the status of the first row breaking the boundary, none exactly when every row is inside |
| WindowFetch.PageViolation | src/std0_quant/collectors/prospective_std0_trades.py:339-366 | no violation if and only if every row has a public time within the requested seconds |
| WindowFetch.FirstOffenderDecides | src/std0_quant/collectors/prospective_std0_trades.py:339-366 | the status reported is that of the first row out of bounds: its time does not parse, or lies outside |
| BisectionCrawl.StepKeepsCover | src/std0_quant/collectors/prospective_std0_trades.py:119-163 | at every loop head the done windows tile a newest suffix, the pending stack tiles the rest, and windows so far plus remaining work stay within 2 * seconds - 1 |
| BisectionCrawl.DoneTilesExactly | src/std0_quant/collectors/prospective_std0_trades.py:119-163 | a tiling meets every second of its interval in exactly one range and no other second |
| BisectionCrawl.CrawlCovers | src/std0_quant/collectors/prospective_std0_trades.py:119-166 | the loop ends; on completion the windows tile the range; only a budget below 2 * seconds - 1 can run out |
| BisectionCrawl.CrawlIsSafe | src/std0_quant/collectors/prospective_std0_trades.py:119-166 | whatever the API answers the stores stay exactly-once and append-only, and the counters count the appended lines |
| SyncCompleteness.SyncCoversRange | src/std0_quant/collectors/prospective_std0_trades.py:91-166 | sync_range terminates within the window bound and `complete` means the requested seconds are tiled |
| SyncCompleteness.WindowFindsAll | src/std0_quant/collectors/prospective_std0_trades.py:213-279 | against a stable API a published window fetched exactly the trades of its range |
| SyncCompleteness.CompleteMeansComplete | src/std0_quant/collectors/prospective_std0_trades.py:91-166 | `complete` against a stable API: every whole-second trade of the interval is registered |
| SyncCompleteness.OnlyRangeIsPublished | src/std0_quant/collectors/prospective_std0_trades.py:91-166 | however a sync ends, what it registers are trades of the requested interval |
| SyncCompleteness.SubSecondTimeCanBeMissed | src/std0_quant/collectors/prospective_std0_trades.py:91-109 | for any time that is not a whole second some stable API makes a complete sync miss the trade |
| SyncCompleteness.RerunIsIdempotent | src/std0_quant/collectors/prospective_std0_trades.py:91-166 | a second sync of a completed range whose trades all have whole-second times appends nothing |
| SyncCompleteness.SessionsStayExactlyOnce | src/std0_quant/collectors/prospective_std0_trades.py:91-166 | over any sequence of runs against any API the log stays append-only with each registered identity exactly once |
| SyncLiveness.StatusSaysWhy | src/std0_quant/collectors/prospective_std0_trades.py:119-166 | whatever the API does each status has its reason: nothing left pending, the budget used up with work left, or the last window fetched ended that way; the cap is fatal only in a window of one second |
| SyncLiveness.BudgetIsKept | src/std0_quant/collectors/prospective_std0_trades.py:119-131 | no sync counts more windows than its budget, and one that gives up for it has counted exactly that many |
| SyncLiveness.WindowEndsWhy | src/std0_quant/collectors/prospective_std0_trades.py:213-279 | for any API a window ends at its last request, and its status tells of the reply: a failure, the cap error or the offset limit, the first row out of bounds, or a short page |
| SyncLiveness.TruthfulWindow | src/std0_quant/collectors/prospective_std0_trades.py:213-279 | a window against an API that tells the truth publishes exactly its trades, after trades / limit + 1 requests, if they fit under the offset cap, and hits the cap otherwise |
| SyncLiveness.SyncCompletesIff | src/std0_quant/collectors/prospective_std0_trades.py:119-166 | with a truthful API, which may cap any request wider than a second, and 2 * seconds - 1 windows, the sync completes if and only if the trades of every single second fit under the cap, and reports the unsplittable second otherwise |
| SyncLiveness.TruthfulSyncFindsAll | src/std0_quant/collectors/prospective_std0_trades.py:91-166 | such a sync registers every whole-second trade of the interval |
| SyncLiveness.CountersAddUp | src/std0_quant/collectors/prospective_std0_trades.py:130-134 | the counters of a complete sync: every trade of the interval is new or a duplicate, windows are the done ones and the split ones, pages are the requests, and records the trades plus what the split windows fetched |
| ProspectiveSync.ProspectiveTradesSyncer.AppendNew | src/std0_quant/collectors/prospective_std0_trades.py:308-336 | both stores move exactly as the publication steps say; the result is the number of new lines |
| ProspectiveSync.ProspectiveTradesSyncer.TakeRows | src/std0_quant/collectors/prospective_std0_trades.py:240-270 | a page is checked whole, then staged once per identity, and the next offset is asked for only within the limits |
| ProspectiveSync.ProspectiveTradesSyncer.RequestPage | src/std0_quant/collectors/prospective_std0_trades.py:213-270 | one request and every kind of reply to it |
| ProspectiveSync.ProspectiveTradesSyncer.StagePages | src/std0_quant/collectors/prospective_std0_trades.py:210-279 | the paging loop computes the window outcome the lemmas are about |
| ProspectiveSync.ProspectiveTradesSyncer.FetchWindow | src/std0_quant/collectors/prospective_std0_trades.py:168-306 | stage first, publish only a complete window, count what was published |
| ProspectiveSync.ProspectiveTradesSyncer.Visit | src/std0_quant/collectors/prospective_std0_trades.py:129-163 | one turn of the loop is one step of the crawl |
| ProspectiveSync.ProspectiveTradesSyncer.SyncRange | src/std0_quant/collectors/prospective_std0_trades.py:91-166 | the stores, the counters and the status are those of the crawl; an inverted interval raises and changes nothing |
| GammaDiscovery.EveryInterleavingKeeps | src/std0_quant/collectors/gamma_discovery.py:81-203 | every interleaving of calls, completions and a close keeps the worker's whole invariant |
| GammaDiscovery.ExactlyOncePerGeneration | src/std0_quant/collectors/gamma_discovery.py:81-198 | at most one applied result per generation, the applied set within the current target, at most one blocking call in flight |
| GammaDiscovery.NoOlderResultAfterNewerTarget | src/std0_quant/collectors/gamma_discovery.py:91-98 | an applied result belongs to the target and generation in force at that moment, also when targets go A, B, A |
| GammaDiscovery.CurrentAnswerIsApplied | src/std0_quant/collectors/gamma_discovery.py:128-198 | a still current answer for its own target is applied, and is its generation's first |
| GammaDiscovery.CallsAreEntries | src/std0_quant/collectors/gamma_discovery.py:86-98 | in any run the calls are the targets asked for before the close, in order |
| GammaDiscovery.CurrentIffNotSuperseded | src/std0_quant/collectors/gamma_discovery.py:91-101 | a call is current exactly until another target is asked for, and never again after, also when targets go A, B, A |
| GammaDiscovery.AcquireDecides | src/std0_quant/collectors/gamma_discovery.py:100-126 | in any run a queued call that takes the free lock is submitted if and only if it is not superseded, its generation has no applied result and nobody closed the worker; each refusal has its one reason |
| GammaDiscovery.CompleteDecides | src/std0_quant/collectors/gamma_discovery.py:128-198 | in any run each final status has its one outcome: failed on an error, no result on none, mismatch on a market of another target, applied on one of its own, stale if superseded, raised if cancelled |
| GammaDiscovery.OtherStepsLeaveCalls | src/std0_quant/collectors/gamma_discovery.py:81-203 | nothing else moves a call, and a finished call stays as it is |
| GammaDiscovery.NeverStuck | src/std0_quant/collectors/gamma_discovery.py:100-126 | a queued call can take the lock, or the call that holds it can be answered |
| GammaDiscovery.NewTargetIsDiscovered | src/std0_quant/collectors/gamma_discovery.py:86-198 | from any moment with a free lock and an open worker, a new target that is asked for, submitted and answered with a market of its own is applied |
| GammaDiscovery.GammaDiscoveryWorker.Discover | src/std0_quant/collectors/gamma_discovery.py:86-98 | entry is the Enter step; it raises exactly on a closed worker |
| GammaDiscovery.GammaDiscoveryWorker.LockAcquired | src/std0_quant/collectors/gamma_discovery.py:100-126 | taking the lock is the Acquire step with its stale and duplicate checks |
| GammaDiscovery.GammaDiscoveryWorker.ExecutorDone | src/std0_quant/collectors/gamma_discovery.py:128-198 | completion is the Complete step with its checks in the source's order |
| OrderBook.TombstonesAreInvisible | src/std0_quant/collectors/polymarket_book.py:57-75 | for any stream of frames the book that keeps zero-size levels has the best bid and ask of one that deletes them |
| OrderBook.BatchIsOneAtATime | src/std0_quant/collectors/polymarket_book.py:225-244 | a batched frame gives the books and rows of its changes sent one at a time |
| OrderBook.BatchMatchesLegacyMessage | src/std0_quant/collectors/polymarket_book.py:124-140 | one token's changes batched leave the book the one-token message leaves |
| OrderBook.OtherBooksUntouched | src/std0_quant/collectors/polymarket_book.py:107-151 | an event for one token never changes another token's book |
| OrderBook.EventsOnDifferentTokensCommute | src/std0_quant/collectors/polymarket_book.py:107-151 | events for different tokens can be applied in either order |
| OrderBook.PersistedListStartsAtBest | src/std0_quant/collectors/polymarket_book.py:198-204 | a non-empty persisted level list starts at the best price |
| OrderBook.PersistedListIsTopLiveIff | src/std0_quant/collectors/polymarket_book.py:198-204 | the persisted list is the first live levels if and only if the cut holds no dead level or nothing live lies beyond it |
| OrderBook.DeadTopHidesALevel | src/std0_quant/collectors/polymarket_book.py:198-204 | four concrete bids of which the persisted three levels miss a live one |
| BookRows.DealtIsTheSame | src/std0_quant/collectors/polymarket_book.py:225-244 | dealing every batch out into one event per change gives the same books and rows |
| BookRows.RowsShowTheBook | src/std0_quant/collectors/polymarket_book.py:155-252 | over any stream of frames from empty books, each row of a subscribed token shows at its own position the highest bid and lowest ask of the book that deletes dead levels, its top levels best first with their sizes, and the last trade; kind and token are those of the event as dealt, and any other token shows nothing |
| BookRows.SaneIffUncrossed | src/std0_quant/collectors/polymarket_book.py:155-195 | a row counts as sane if and only if its live book is not crossed and its best prices are probabilities |
| BookRows.ValidMeansSound | src/std0_quant/collectors/polymarket_book.py:517-538 | after a connect and any rows, the last may be flagged valid if and only if every subscribed token has had a `book` row and from some `book` on every row is sane and in time order |
| LiveAudit.ValidIffGoodRun | src/std0_quant/collectors/live_audit.py:45-54 | over any run with reconnects the machine says VALID exactly when the events since the last connect end in a sane, time-ordered run opened by a `book` |
| LiveAudit.DesyncedIffLastIsBad | src/std0_quant/collectors/live_audit.py:45-54 | DESYNCED exactly when the last event since the connect was insane or out of order, UNINITIALIZED when there is no good run and it was neither |
| LiveAudit.BookValidity.Apply | src/std0_quant/collectors/live_audit.py:49-54 | the reply is true exactly under that condition |
| LiveAudit.GapTracker.Observe | src/std0_quant/collectors/live_audit.py:18-23 | the recorded gaps stay those of the observations so far |
| BookRecorder.BookState.Apply | src/std0_quant/collectors/polymarket_book.py:107-151 | books and derived row after one event |
| BookRecorder.BookState.HandleRawText | src/std0_quant/collectors/polymarket_book.py:207-252 | books and rows of a whole frame, batches expanded |
| BookRecorder.SnapshotsSuffice | src/std0_quant/collectors/polymarket_book.py:525-534 | the token set test is the same as every subscribed token having had a `book` since the last connect |
| BookRecorder.BookRecorder.OnConnect | src/std0_quant/collectors/polymarket_book.py:501-508 | empty books, no snapshot, a new stretch of events |
| BookRecorder.BookRecorder.FlagRow | src/std0_quant/collectors/polymarket_book.py:524-538 | the row is valid if and only if every subscribed token has had a snapshot and the run of events is good; its status is the machine's, or UNINITIALIZED without the snapshots |
| BookRecorder.BookRecorder.OnText | src/std0_quant/collectors/polymarket_book.py:517-538 | every row of a frame is flagged by that condition at its own position |
| LiveStorage.RecoveryEqualsCleanClose | src/std0_quant/collectors/live_storage.py:45-66 | with non-zero timestamps recovery gives the count, first, last and digest of a clean close |
| LiveStorage.FirstAgreesIff | src/std0_quant/collectors/live_storage.py:57-62 | recovered and clean first timestamps agree if and only if the first row carries one, or the first one found equals the clock at the first append |
| LiveStorage.LastAgreesIffStamped | src/std0_quant/collectors/live_storage.py:62-83 | recovered and clean last timestamps agree if and only if the last row carries one, or a literal zero was written at clock zero |
| LiveStorage.RecoveryIsCleanIff | src/std0_quant/collectors/live_storage.py:45-95 | recovery reproduces the whole clean sidecar exactly under both conditions |
| LiveStorage.ScanAccountsForEveryLine | src/std0_quant/collectors/live_storage.py:57-62 | of any text lines: the whole rows are counted and give the first and last timestamp, the torn ones are the parse errors, the rest is blank, and the integrity is OK if and only if none is torn |
| LiveStorage.JunkLinesDoNotCount | src/std0_quant/collectors/live_storage.py:57-62 | a torn or blank line, wherever it stands, changes neither the count nor the first or last timestamp |
| LiveStorage.FinalizeIsSafe | src/std0_quant/collectors/live_storage.py:45-66 | a sweep leaves existing sidecars alone, describes each orphan it can read by its content once the grace is over and never before, and is idempotent |
| LiveStorage.RecoverySweep.FinalizeOrphanSidecars | src/std0_quant/collectors/live_storage.py:45-66 | the sweep loop gives exactly that result and lists the repaired files; it raises if and only if an orphan is not text, with what came before it described |
| LiveStorage.AppendKeeps | src/std0_quant/collectors/live_storage.py:76-95 | an append adds its row, keeps every file's sidecar state and rewrites no sidecar |
| LiveStorageRuns.EveryRowIsKept | src/std0_quant/collectors/live_storage.py:68-96 | over any run of appends and closes the files concatenate to the rows taken; every file but the current one is non-empty, was within its limits and has its clean sidecar |
| LiveStorageRuns.OpenTakesEveryRow | src/std0_quant/collectors/live_storage.py:76-83 | a writer that is not closed takes every row |
| LiveStorageRuns.SidecarsNeverChange | src/std0_quant/collectors/live_storage.py:68-96 | no run rewrites a sidecar |
| LiveStorageRuns.VisitsEndThere | src/std0_quant/collectors/live_storage.py:73-96 | the atomic steps of an append or close lead to its end state |
| LiveStorageRuns.VisitsAreConsistent | src/std0_quant/collectors/live_storage.py:73-96 | every state between two atomic steps of any append or close is consistent |
| LiveStorage.CrashRecovery | src/std0_quant/collectors/live_storage.py:45-66 | after a crash in a consistent state, with or without a torn tail, a sweep gives every file it can read the count, first and last of a clean close of its surviving rows, flags the torn one, and is blocked exactly by a tail that ends inside a character |
| LiveStorageRuns.CrashAnywhere | src/std0_quant/collectors/live_storage.py:45-96 | after any run, any number of atomic steps of the next operation and a crash, whatever half-written row it leaves, the surviving rows are a prefix that holds every durable one, and a sweep gives their sidecar data |
| LiveStorageRuns.NewWriter | src/std0_quant/collectors/live_storage.py:69-74 | a new writer is at rest, flushed, and its file named by the hour |
| LiveStorageRuns.CrashLosesFewRows | src/std0_quant/collectors/live_storage.py:76-84 | a crash at any point of any run loses no more than fsync_every rows, between two calls fewer |
| LiveStorageRuns.FilesChangeOnlyWhenDue | src/std0_quant/collectors/live_storage.py:76-78 | no run gives a file up before it is full or its period is over |
| LiveStorageRuns.FilesAreNamedByHour | src/std0_quant/collectors/live_storage.py:73-74 | over any run each file is named by the hour it was opened in |
| LiveStorageRuns.ClosedWriterReopens | src/std0_quant/collectors/live_storage.py:76-83 | a closed writer takes a row if and only if its file has rows and its period is over, and then in a new file |
| LiveStorage.RotatingNDJSON.Append | src/std0_quant/collectors/live_storage.py:76-83 | the object moves as the append the lemmas are about |
| LiveStorage.RotatingNDJSON.CloseCurrent | src/std0_quant/collectors/live_storage.py:85-95 | flush, sidecar, close; nothing when already closed |
| Coverage.MergeIsMerged | src/std0_quant/audit/coverage.py:93-98 | merged intervals are ordered, separated and maximal: the points they cover are the usable milliseconds |
| Coverage.BucketFilledIff | src/std0_quant/audit/coverage.py:99-101 | a bucket counts if and only if each of its milliseconds is within the stale bound of some observation |
| Coverage.CoverageIsMonotone | src/std0_quant/audit/coverage.py:73-102 | more observations never lower the count, and order does not matter |
| Coverage.BucketsTileWindow | src/std0_quant/audit/coverage.py:89-100 | each millisecond of the window lies in exactly one bucket, and no bucket reaches beyond it |
| Coverage.CodeIsStricter | src/std0_quant/audit/coverage.py:84-101 | the code never counts a bucket the docstring would not, and the two agree on a bucket if and only if the docstring leaves it out too or each of its milliseconds is usable |
| Coverage.DocstringCountsMore | src/std0_quant/audit/coverage.py:84-101 | two concrete buckets on which they differ, one usable too late and one stale too early |
| Coverage.MergeIntervals | src/std0_quant/audit/coverage.py:93-98 | the merging loop gives the merged intervals of the sorted observations |
| Coverage.FilledBuckets | src/std0_quant/audit/coverage.py:99-101 | the counting loop finds exactly the usable buckets |
| Coverage.BoundedStateCoverage | src/std0_quant/audit/coverage.py:73-102 | none for an empty window, else the share of usable buckets, within [0, 1] |
| Coverage.GapsAreSound | src/std0_quant/audit/coverage.py:105-127 | reported gaps are longer than the threshold, inside the window, ordered, disjoint and free of interior observations |
| Coverage.GapsAreComplete | src/std0_quant/audit/coverage.py:105-127 | every observation-free stretch longer than the threshold lies inside one reported gap |
| Coverage.TrackerFindsInteriorGaps | src/std0_quant/audit/coverage.py:105-127 | the streaming tracker records exactly the gaps that are neither leading nor trailing |
| Coverage.InteriorGaps | src/std0_quant/audit/coverage.py:122-124 | the loop over neighbours finds the gaps between consecutive observations |
| Coverage.FindGaps | src/std0_quant/audit/coverage.py:105-127 | the function returns exactly those gaps |
| OnlineRegime.PushAllKeepsLast | src/std0_quant/audit/online_regime.py:9-29 | the bounded deque holds the last `window` labels pushed |
| OnlineRegime.AssignUsesOnlyThePast | src/std0_quant/audit/online_regime.py:7-31 | every assignment is built from the last eligible labels of strictly earlier times |
| OnlineRegime.PointInTimeAlwaysHolds | src/std0_quant/audit/online_regime.py:34-38 | assert_point_in_time passes on every result |
| OnlineRegime.RegimesRiseByOne | src/std0_quant/audit/online_regime.py:15-26 | regime ids rise by at most one from row to row, and only between batches |
| OnlineRegime.NonInterference | src/std0_quant/audit/online_regime.py:7-31 | two inputs with the same rows before t and the same ids at t give equal assignments up to t |
| OnlineRegime.LabelsAreOfEligibleRows | src/std0_quant/audit/online_regime.py:27-28 | the labels that enter the history are those of the eligible rows that have one, in order |
| RegimeChanges.RegimeRisesIff | src/std0_quant/audit/online_regime.py:15-26 | ids start at 0 and go up by one where a batch starts if and only if the labels seen are enough and their rate is at least the threshold away from the reference: the rate of the last rise, or of the first batch with enough labels |
| OnlineRegime.AssignBatch | src/std0_quant/audit/online_regime.py:15-30 | one turn of the loop assigns a whole batch before its labels enter the history |
| OnlineRegime.AssignOnlineRegimes | src/std0_quant/audit/online_regime.py:7-31 | the batched loop computes that assignment |
| RegimeBaselines.FormsAgree | src/std0_quant/audit/regime_baselines.py:13-45 | all five baselines are the same from unsorted training rows as from the rows in time order |
| RegimeBaselines.FunctionsAgree | src/std0_quant/audit/regime_baselines.py:13-45 | with distinct times predict_from_train at t equals what historical_probabilities gives a row appended at t, whatever its label |
| RegimeBaselines.ValueIsHistorical | src/std0_quant/audit/regime_baselines.py:13-27 | with distinct times a row's value depends only on the rows strictly before it |
| RegimeBaselines.EwmaStaysInUnit | src/std0_quant/audit/regime_baselines.py:25-26 | with 0/1 labels every EWMA value is in [0, 1] before clipping |
| RegimeBaselines.WeeksStartOnMondays | src/std0_quant/audit/regime_baselines.py:9-10 | a week holds the times of seven days from a Monday on |
| RegimeBaselines.WindowEdges | src/std0_quant/audit/regime_baselines.py:21-23 | an observation counts in a rolling window from the moment after it until exactly that many days after it |
| RegimeBaselines.PreviousWeekIs | src/std0_quant/audit/regime_baselines.py:19-20 | the previous week is the latest earlier week with an observation, its value the mean of that week |
| RegimeBaselines.MeanBetween | src/std0_quant/audit/regime_baselines.py:20-23 | a mean lies between any bounds on the labels |
| RegimeBaselines.ClipIsNearest | src/std0_quant/audit/regime_baselines.py:27-27 | clipping moves each of the five values to the nearest one in [0.000001, 0.999999] |
| RegimeBaselines.SortedValues | src/std0_quant/audit/regime_baselines.py:17-26 | the loop gives position i the baselines of the positions before it |
| RegimeBaselines.HistoricalProbabilities | src/std0_quant/audit/regime_baselines.py:13-28 | for any order np.argsort may return, values come back to the rows they belong to |
| RegimeBaselines.PredictFromTrain | src/std0_quant/audit/regime_baselines.py:30-45 | each test time gets the prediction from the training rows alone |
| Episodes.ChainFollowsRule | src/std0_quant/events/episode_builder.py:113-121 | a gap of the window or less keeps neighbours together, a larger one starts a new episode |
| Episodes.ChainFlattens | src/std0_quant/events/episode_builder.py:113-121 | the chunks in order are the chained fills, none empty |
| Episodes.ChunksAreComponents | src/std0_quant/events/episode_builder.py:113-121 | two fills share a chunk if and only if a path of same-market, same-direction steps within the window links them |
| EpisodeResults.BuiltFromChunks | src/std0_quant/events/episode_builder.py:97-125 | the returned episodes are exactly those made from the chunks of the groups |
| EpisodeResults.EpisodesAreComponents | src/std0_quant/events/episode_builder.py:87-125 | two usable fills go into one returned episode if and only if such a path links them; with distinct ids the member lists say the same |
| Episodes.EpisodeSpansItsFills | src/std0_quant/events/episode_builder.py:128-144 | an episode's bounds and ids are those of its fills, and the next one starts more than the window later |
| EpisodeResults.VwapBetweenMemberPrices | src/std0_quant/events/episode_builder.py:128-131 | every returned episode has shares and its vwap lies between any bounds on its members' prices, so the NaN branch is never taken |
| EpisodeResults.EpisodesPartitionFills | src/std0_quant/events/episode_builder.py:97-144 | the member ids of the returned episodes, taken together, are those of the usable fills, each as often as given |
| Episodes.TotalsAreConserved | src/std0_quant/events/episode_builder.py:97-144 | the episodes hold all shares and dollars of the usable fills |
| EpisodeResults.OrderDoesNotMatter | src/std0_quant/events/episode_builder.py:87-125 | the same BUY fills in any order, with any SELL fills among them, give the same invalid fills and, with distinct ids, the same episodes |
| EpisodeResults.InvalidIff | src/std0_quant/events/episode_builder.py:102-109 | exactly the BUY fills that fail validation are reported, with their reason |
| EpisodeResults.EveryBuyIsAccountedFor | src/std0_quant/events/episode_builder.py:97-144 | the ids of the BUY fills are those of the episode members and of the invalid fills together, each as often as given |
| EpisodeOrder.EpisodesInOrder | src/std0_quant/events/episode_builder.py:112-125 | the returned list goes by market, direction and time, and the episodes of one market and direction lie more than the window apart; the final sort changes nothing |
| EpisodeOrder.EveryFillIsPlaced | src/std0_quant/events/episode_builder.py:74-110 | a BUY fill with every field there and in range is taken with its own fields, any other BUY fill is reported, a missing time before everything else, and nothing else is taken or reported |
| Episodes.ChainGroup | src/std0_quant/events/episode_builder.py:113-121 | the inner loop makes one episode per chunk |
| Episodes.GroupFills | src/std0_quant/events/episode_builder.py:98-109 | the first loop reports the invalid fills and groups the usable ones |
| Episodes.BuildEpisodes | src/std0_quant/events/episode_builder.py:87-125 | refuses any other rule, else returns the sorted episodes and the invalid fills |
| Lifecycle.ConnectionIntervals | src/std0_quant/audit/prospective.py:99-112 | the scan computes the intervals the lemmas are about |
| Lifecycle.RunSpans | src/std0_quant/audit/prospective.py:100-109 | the closed intervals are exactly those from a connect to the next connect or loss |
| Lifecycle.IntervalsAreOrdered | src/std0_quant/audit/prospective.py:99-112 | intervals come in time order with disjoint interiors |
| Lifecycle.CoveredIffConnected | src/std0_quant/audit/prospective.py:99-112 | an instant is inside some interval exactly when a connect at or before it is not ended before it and recording reached it |
| Lifecycle.ReconnectCutsAHole | src/std0_quant/audit/prospective.py:99-112 | a disconnect and reconnect put anywhere in the list but inside one interval in time take away exactly the open gap between them |
| Lifecycle.FullIffReadyAtBothEnds | src/std0_quant/audit/prospective.py:115-150 | FULL if and only if book (subscribed) and BTC sessions were connected at both endpoints |
| Lifecycle.HalvesAndEvidence | src/std0_quant/audit/prospective.py:115-150 | the two halves of the verdict one by one, and evidence exactly when some endpoint was ready |
| Lifecycle.WhatEndsAConnection | src/std0_quant/audit/prospective.py:99-112 | what each kind of event does to an open connection |
| Lifecycle.EvidenceIsFirstReady | src/std0_quant/audit/prospective.py:125-137 | the evidence is the interval and first subscription of the first ready session |
| Lifecycle.ReconnectKeepsLifecycle | src/std0_quant/audit/prospective.py:115-150 | a mid-market reconnect in any session leaves the classification unchanged |
| Cohort.IdentityIsInjectiveIff | src/std0_quant/audit/prospective.py:37-40 | within a cohort version a key names one observation if and only if condition, prediction time and cutoff mode hold no bar |
| Cohort.IdentityIsInjective | src/std0_quant/audit/prospective.py:37-40 | across versions, keys of fields without a bar are equal only when all parts are |
| Cohort.BarsCanCollide | src/std0_quant/audit/prospective.py:37-40 | a concrete pair of observations that share a key |
| Cohort.SameIdIff | src/std0_quant/audit/prospective.py:37-40 | rows without a bar share an id exactly when condition, prediction time, cutoff mode (a missing one being cutoff_1) and cohort are the same |
| Cohort.IdText | src/std0_quant/audit/prospective.py:37-40 | the text that is hashed, once spelled out |
| Cohort.TakeRowsFacts | src/std0_quant/audit/prospective.py:349-370 | an upsert only appends admissible rows under fresh ids, counts every row once, and ends with the old ids and all admissible ones |
| Cohort.CountersOfTakeRows | src/std0_quant/audit/prospective.py:356-366 | each exclusion counter counts the rows of its own kind, the collector version tested first |
| Cohort.AdmissibleIff | src/std0_quant/audit/prospective.py:356-360 | outside the frozen cohort any row is admissible, inside it exactly those of the frozen collector version and a market start not before the frozen one |
| Cohort.UpsertTwice | src/std0_quant/audit/prospective.py:349-370 | repeating an upsert inserts nothing and changes nothing |
| Cohort.RunsOnlyAppend | src/std0_quant/audit/prospective.py:323-370 | after the freeze any run of calls only appends, adds only admissible rows to the frozen cohort and never changes the primary |
| Cohort.RunsKeepIdsUnique | src/std0_quant/audit/prospective.py:349-370 | any run of calls keeps observation ids unique |
| Cohort.MarksStay | src/std0_quant/audit/prospective.py:337-344 | a freeze marks every cohort, eligible only if primary, touches no observation, and no later call changes a mark |
| Cohort.UpsertCreatesOnce | src/std0_quant/audit/prospective.py:349-354 | the first upsert of a version creates its cohort; later ones change only its observations, and no other cohort |
| Cohort.CohortManifest.FreezePrimary | src/std0_quant/audit/prospective.py:323-344 | raises exactly when something else is frozen, and then writes nothing |
| Cohort.CohortManifest.Upsert | src/std0_quant/audit/prospective.py:349-370 | the loop moves the payload and the file as the lemmas say and returns its counters |
| Checkpoints.TriggeredIffReached | src/std0_quant/audit/prospective.py:459-466 | the stored points are exactly the checkpoints some automatic count has reached |
| Checkpoints.FiresOnFirstReach | src/std0_quant/audit/prospective.py:459-466 | an automatic call reports a checkpoint exactly when it is the first to reach it; manual calls make no difference |
| Checkpoints.FiresAtMostOnce | src/std0_quant/audit/prospective.py:459-466 | no checkpoint is reported by two automatic calls of a run |
| Checkpoints.ManualReportsItself | src/std0_quant/audit/prospective.py:459-466 | a manual call reports just its own point and stores nothing |
| Checkpoints.CheckpointState.TriggerCheckpoints | src/std0_quant/audit/prospective.py:459-466 | what one call returns and stores |
| DurablePublish.CrashNeverExposesUnsynced | scripts/build_publication_provenance_v2.py:631-675 | losing power at any point of any run, a renamed target had its staging directory synced first |
| DurablePublish.ReturnMeansDurable | scripts/build_publication_provenance_v2.py:631-675 | a normal return: staging fsync, then rename, then parent fsync, and the target was absent before |
| DurablePublish.UnconfirmedIffNotDisturbed | scripts/build_publication_provenance_v2.py:290-307 | the unconfirmed error means renamed without normal return, if and only if not (the rename works and rivals make its postcondition check fail) |
| DurablePublish.DisturbedRenames | scripts/build_publication_provenance_v2.py:306-307 | concrete runs with no failing call in which the check fails after the rename, by a recreated staging name and by a target taken away |
| DurablePublish.NeverReplaces | scripts/build_publication_provenance_v2.py:290-307 | an existing target, or a rival's, is never replaced; without a rename the names are untouched but for a rival's target, and after one they are as the rename and rivals leave them |
| DurablePublish.OtherErrorsLeaveTarget | scripts/build_publication_provenance_v2.py:631-675 | every other error, unless the check was disturbed, leaves the target as it was but for what a rival put there |
| DurablePublish.EachErrorHasItsCause | scripts/build_publication_provenance_v2.py:290-307 | which error is raised, for every choice of failing calls and rivals, each if and only if its cause |
| DurablePublish.DescriptorsAreClosedOnce | scripts/build_publication_provenance_v2.py:650-675 | each opened descriptor is closed exactly once |
| DurablePublish.FileSystem.AtomicPublishNoReplace | scripts/build_publication_provenance_v2.py:290-307 | the error, the names and the calls of the no-replace publication |
| DurablePublish.FileSystem.DurablePublishDirectory | scripts/build_publication_provenance_v2.py:631-675 | the error, the names and the calls of the whole protocol, for every choice of failing calls |
| Wilson.UnclampedIsAccepted | src/std0_quant/audit/regime_surface.py:19-26 | before clamping the interval is exactly the set of proportions within z standard errors of the observed one |
| Wilson.WilsonIsScoreInterval | src/std0_quant/audit/regime_surface.py:19-26 | 0 <= lo <= p <= hi <= 1, both clamps are redundant, and the interval is that set |
| Wilson.OrderedIffZNonNegative | src/std0_quant/audit/regime_surface.py:19-26 | the returned bounds are in order if and only if z is not negative |
| SanityAudit.AuditV1 | src/std0_quant/audit/prospective.py:261-279 | raises exactly when a governed value cannot be converted, else status, count and the first 100 of all version 1 failures |
| SanityAudit.AuditV2 | src/std0_quant/audit/sanity_audit_v2.py:59-115 | the counts cover every row and the first 100 findings are kept |
| SanityAudit.RowsDiffer | src/std0_quant/audit/sanity_audit_v2.py:81-109 | for one row version 1 reports exactly the widened change readings more than version 2 |
| SanityAudit.V2RefinesV1 | src/std0_quant/audit/sanity_audit_v2.py:59-115 | over any rows whose governed values are finite numbers or texts of them, version 1 does not raise and counts exactly the change values with 1 < abs(x) <= 2 more, so a version 1 PASS is a version 2 PASS |
| SanityAudit.PassMeansInRange | src/std0_quant/audit/sanity_audit_v2.py:59-115 | version 2 passes if and only if in every row each present governed value is a finite number in its range and the best bid is not above the best ask |
| SanityAudit.FindingSaysWhy | src/std0_quant/audit/sanity_audit_v2.py:81-103 | what a finding says: its row, field and value, and whether it is out of range, not finite, or no number |
| SanityAudit.FindingsNameTheirRow | src/std0_quant/audit/sanity_audit_v2.py:75-109 | every finding names the row it was made in |
| SanityAudit.BoolsAreNumbersToVersion1 | src/std0_quant/audit/prospective.py:274-277 | a bool for a price: version 1 reads 0 or 1, version 2 refuses it |

## Left out

- Sockets, HTTP, proxies, processes, signals, supervisor and status scripts, reports, notebooks, model fitting and statistics libraries.
- JSON text and its parsing: messages, rows and pages arrive already parsed; a malformed page is a failed request.
- Float rounding and clock drift; times past the four-digit ISO years (weeks are numbered, not spelled).
- The sync's message lists, run bookkeeping table, saved raw pages, envelope fields and sleeps between pages; settings keep the bounds of `config.py:55-57`.
- A torn last line of the fill log: a crash keeps whole lines in `Publication`. A torn raw row never parses as JSON, as it begins an object it does not end.
- Journal events and durations of the discovery worker, and cancellation of a task that waits for the lock.
- Mid, spread, latency, market and outcome labels, exchange times and raw references of book rows; the staleness reply of `BookValidity.status_at`.
- Session ids, opened and closed times in sidecars; directory dates; periodic flushing by row count is one durable step like any other. The sweep's grace is in milliseconds.
- `coverage_pct`, `stream_coverage` and the session manifests around them; bucket, stale and threshold lengths are given in milliseconds.
- Transaction hashes, fill counts and the rule label of an episode.
- Events without a timestamp in connection intervals, and rows whose fields do not convert.
- SHA-256 of the observation identity: ids are the joined key that is hashed.
- The sorted list form of the stored checkpoints: kept as a set.
- Interrupts that arrive between two calls of the publication; the rename system call is atomic and reports truthfully.
- Texts that only one of float and Decimal can read, objects with a float conversion of their own, and the type errors of version 2 for things that are not rows.
- Simple counters, rollups and eligibility flags, which would only add easy members.
