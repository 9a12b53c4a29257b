# Duckling server and SDK: a verified model

Duckling replicates MySQL tables into ClickHouse by polling, helped by the binlog, and serves queries over HTTP and a
WebSocket SDK. This project models the parts of it whose correctness spans many steps, and proves what the code promises
about them. `dafny verify dfyconfig.toml` checks everything.

| files | what they model |
|---|---|
| `Keyset`, `MysqlStream` | keyset pagination: the resumable full dump and the incremental stream with its sort-memory retry |
| `ProjectionView` | the append-only raw log and the deduplicating view over it |
| `Replication`, `ReplicationLimits`, `SyncService`, `SyncRefinement` | writers, binlog tombstones and syncs interleaving; the table sync itself, and that it takes timely steps of that machine |
| `Nudges`, `DedupKeys`, `BinlogTailer` | debounced sync nudges, the cache of key columns under overlapping event handlers, delete tombstones |
| `CdcPoller` | the snapshot poller and its counters |
| `RateLimit`, `InFlightSlots`, `QueryGovernor` | admission control |
| `SqlSafety` | the read-only query check |
| `LiteralMask`, `MysqlCompat`, `CallTerms`, `CompatPasses`, `CompatBuilders`, `LiteralsKept`, `CompatLiterals`, `Decimal` | rewriting MySQL function calls for ClickHouse; when literals stay untouched |
| `SdkConnection`, `SdkClient` | the SDK's connection |
| `ApiKeyIndex` | API-key records and the index that must agree with them |

Code that changes state is a class or a method with loops, proved to take the steps of a specification on values; what
spans several steps is proved about that specification, over all runs. Asynchronous code is cut at its suspension points:
each event handler, timer and continuation is a step of its own, and runs are arbitrary sequences of enabled steps.

## What the model takes as given

- What the databases answer is a parameter: function values for queries, and `ServesDump`, `ServesIncremental` and
  `Quiet` say that the answers fit some table contents, which may differ from SELECT to SELECT.
- Primary keys are unique, non-null and never updated; timestamps are non-null. Keys are sequences of integers, the other
  columns one opaque value, times integers (milliseconds).
- During incremental syncs every write gets a larger timestamp than all before it. A later append to the raw log has a
  strictly larger pair of sync timestamp and batch id for its key; batch ids are random, so within one millisecond this
  is luck, and `LateTombstoneIsLost` shows a clock that steps back.
- `Replication.Timely` lists what the code leaves to its surroundings, and no more: a run is timely if and only if all
  states it comes to are safe for readers of the view (`TimelyIffSafe`). `ReplicationLimits` has for each clause a run that
  loses or resurrects a row without it, and shows that such a row stays so (`LostForGood`, `ResurrectedForGood`).
- A delete's tombstone is one step of `Replication`, at any time and in any order, or lost; an insert of several is as many
  steps at once. Which step an insert of `BinlogTailer` is follows from the event it handles, and is not proved.
- MySQL lists each table of a database once. Costs and fractions of the rate limiter are reals. Secrets' hashes and key
  ids are never drawn twice.
- A promise eventually settles and an armed timer fires, where a result counts such events; listeners do not call back
  into the SDK client.

## Where the code and its documentation differ

- `replaceFunctionCalls` says that nested occurrences of a function are all handled
  (`packages/server/src/services/mysqlCompat.ts:68-73`). It continues after the text it wrote (lines 118-120), so a call
  of the same function inside a rewritten call's arguments is left as it is: `NestedCallStays` has f(f(x)), and
  `TouchedIff` says exactly which calls are handled.
- Clearing the tailer's key cache on DDL is called safe (`packages/server/src/services/binlogTailerService.ts:286-296`),
  but handlers overlap, and a lookup in flight caches its answer afterwards: `StaleKeyRun` has the run that leaves a key
  of the old schema in the cache, `CurrentAfterDdlIff` says exactly when none can get there.
- The SDK retries a handshake that times out or finds its socket closed, but not one whose send throws, which it takes for
  a refusal, and it stops retrying when a socket cannot be made: `HandshakeDecides`, `ThrowingSendIsNotRetried`,
  `ThrowingConstructorStops`; `GivesUpIff` lists exactly the events that end its attempts.
- `maxConcurrent` of the query governor is exceeded when a query arrives between a release and its resumption:
  `SemaphoreHoldsIff` is exact, `BargingExceedsSemaphore` holds in every full state.
- Literals are untouchable in the rewriting, but a query that itself contains U+0001 placeholders can come back changed:
  `MaskRoundTripIff` says exactly which. For texts without U+0001, `LiteralsComeThroughIff` says exactly when the promise
  holds: unless a TIMESTAMPDIFF that is replaced has a literal in its unit, whose placeholder it lower-cases
  (`packages/server/src/services/mysqlCompat.ts:284`). `QuotedUnitIsLost` has such a query.
- The tailer's `stop` forgets pending nudges until another event comes, also after a new `start`: `StrandedIff`.
- `isConnecting` of the SDK is false during an attempt that replaced a stale socket: `ConnectingFlagIff`.
- A rebuild that fails after dropping the old log keeps the old watermark; rows below it stay lost:
  `FailedRedumpLosesRow`.

## Model

| member | source | states |
|---|---|---|
| `MysqlStream.StreamTableData` | packages/server/src/database/mysql.ts:408-453 | The generator loop yields exactly the batches of the specification `Dump`, never an empty one, for any table contents each SELECT sees and any point where the consumer stops |
| `MysqlStream.CursorAdvances` | packages/server/src/database/mysql.ts:433-449 | A page moves the key cursor past every row it holds and past no other row of the table: nothing is skipped between pages |
| `MysqlStream.DumpKeysIncrease` | packages/server/src/database/mysql.ts:420-453 | Whatever writers do between pages, yielded keys strictly increase, so no key comes twice, and each row was in the table at some SELECT |
| `MysqlStream.DumpYieldsKeys` | packages/server/src/database/mysql.ts:420-453 | A dump that ends by itself has yielded a row of every key past its start that was in the table all along, whether or not writers changed it |
| `MysqlStream.DumpYieldsUntouchedRows` | packages/server/src/database/mysql.ts:420-453 | A dump that ends by itself has yielded every row past its start that no writer touched while it ran |
| `MysqlStream.DumpOfQuietTable` | packages/server/src/database/mysql.ts:420-453 | On an unchanging table a dump yields the rows in key order; it ends by itself exactly when the pages allowed hold more rows than there are (never with batch size 0) |
| `MysqlStream.ResumeCompletesDump` | packages/server/src/database/mysql.ts:411-418 | On an unchanging table an interrupted dump followed by one started after its last key, with any batch sizes, is the uninterrupted dump |
| `MysqlStream.MatchesIsOrder` | packages/server/src/database/mysql.ts:526-539 | The tie-breaking WHERE clause selects exactly the rows behind the cursor row in the ORDER BY order |
| `MysqlStream.SmallerLimitShrinks` | packages/server/src/database/mysql.ts:487-499 | The sort-memory retry asks for a tenth of the limit, rounded down, from 1000 rows on, and for 100 below that: for fewer rows exactly when the limit was above 100 |
| `MysqlStream.StreamIncrementalData` | packages/server/src/database/mysql.ts:503-554 | The loop with its shrinking limit and two-part cursor yields exactly the batches of the specification `Incremental`, and ends as it does: by a short page, an error or its consumer |
| `MysqlStream.IncrementalCursorAdvances` | packages/server/src/database/mysql.ts:526-551 | A page moves the (timestamp, key) cursor past its own rows and past no other row |
| `MysqlStream.IncrementalIsOrdered` | packages/server/src/database/mysql.ts:503-554 | Whatever writers and retries do, rows come in strictly increasing (timestamp, key) order, each one at or above the watermark |
| `MysqlStream.IncrementalOfQuietTable` | packages/server/src/database/mysql.ts:503-554 | On an unchanging table the stream yields exactly the rows at or above the watermark, sorted, each once, for every batch size and every pattern of retries |
| `MysqlStream.UnreadRowsShrink` | packages/server/src/database/mysql.ts:542-554 | A full page, at the limit in force after a retry, leaves strictly fewer unread rows |
| `MysqlStream.IncrementalEndsByItself` | packages/server/src/database/mysql.ts:503-554 | Unless a query fails, the stream ends by itself within one page more than there are unread rows |
| `ProjectionView.LastWins` | packages/server/src/services/clickhouseSyncService.ts:605-627 | row_number() = 1 picks each key's last entry, however ties are broken, exactly when that entry is strictly newest of its key |
| `ProjectionView.ViewIsReplay` | packages/server/src/services/clickhouseSyncService.ts:584-628 | When every key's last entry is its newest, the view returns exactly the log replayed into a map |
| `ProjectionView.StampOrder` | packages/server/src/services/clickhouseSyncService.ts:605-627 | Newer means a later timestamp, whatever the batch ids; they decide between equal timestamps alone |
| `ProjectionView.LatestTimeIsShown` | packages/server/src/services/clickhouseSyncService.ts:605-627 | When each key's last entry has a strictly later timestamp than its others, whatever the batch ids, the view is exactly the log replayed into a map |
| `ProjectionView.LaterOfTwoIsShown` | packages/server/src/services/clickhouseSyncService.ts:605-627 | Of two live entries of a key the view shows the one with the later timestamp, and between equal ones that with the larger batch id |
| `ProjectionView.AppendNewest` | packages/server/src/services/clickhouseSyncService.ts:605-627 | Appending a newest row or tombstone changes the view at its own key and nowhere else |
| `ProjectionView.RereadIsUnobservable` | packages/server/src/services/clickhouseSyncService.ts:605-627 | Appending again a row the view already shows leaves the view as it was: re-reading from the watermark is harmless |
| `ProjectionView.FilterFirstResurrects` | packages/server/src/services/clickhouseSyncService.ts:605-608 | Filtering tombstones before the window would show the same rows plus exactly the deleted keys |
| `ProjectionView.LateTombstoneIsLost` | packages/server/src/services/binlogTailerService.ts:346-372 | A tombstone stamped by a clock that stepped back never takes effect, though it is last in the log |
| `Replication.StepKeepsInvIff` | packages/server/src/services/clickhouseSyncService.ts:422-551 | For every step of writers, tailer and sync: it keeps the invariant exactly when it is timely, and exactly when it leaves a state that is safe for readers of the view |
| `Replication.TombstoneKeepsInv` | packages/server/src/services/binlogTailerService.ts:346-377 | A tombstone keeps the invariant whenever it is written, in whatever order, also while a page holds a row of its key |
| `Replication.LossKeepsInvIff` | packages/server/src/services/binlogTailerService.ts:323-327 | A tombstone whose insert fails keeps the invariant exactly when its key is not in the view, back in the source, or deleted again |
| `Replication.ReadPageKeepsInv` | packages/server/src/database/mysql.ts:408-554 | Reading a page keeps the invariant whatever deletes are pending: a row read before the tombstone of an earlier one is put on account |
| `Replication.AppendPageKeepsInvIff` | packages/server/src/services/clickhouseSyncService.ts:446-452 | Appending a page keeps the invariant exactly when each of its rows is still in the source or has a tombstone on its way |
| `Replication.AbortKeepsInvIff` | packages/server/src/services/clickhouseSyncService.ts:440-467 | A sync that fails at any point keeps the invariant exactly when it was not a dump that leaves a row older than the saved watermark unappended or missed; a failed incremental sync always does |
| `Replication.FinishKeepsInvIff` | packages/server/src/services/clickhouseSyncService.ts:456-467 | A sync that finishes saves a safe watermark exactly when no row it missed is older than the last one it read: none written behind its cursor, none read before the tombstone of an earlier one |
| `Replication.InvAlways` | packages/server/src/services/clickhouseSyncService.ts:422-551 | The invariant holds after every timely run |
| `Replication.TimelyIffSafe` | packages/server/src/services/clickhouseSyncService.ts:422-551 | Exactness over whole runs: a run is timely if and only if every state it comes to is safe: at rest no row is lost, and never is a deleted row in the view without a tombstone on its way |
| `Replication.NoLostChange` | packages/server/src/services/clickhouseSyncService.ts:479-551 | No lost change, over every timely run from an empty log: at rest each source row is in the view, with no tombstone to remove it, or the next sync reads it; during a sync it is in the view, in flight, still to be read or on the account of missed rows; no other key is in the view unless its tombstone is on the way |
| `Replication.WatermarkNeverFalls` | packages/server/src/services/clickhouseSyncService.ts:512-541 | Over any run at all, timely or not, incremental syncs, failures and writers never lower the saved watermark |
| `Replication.Converges` | packages/server/src/services/binlogTailerService.ts:330-372 | After any timely history of writes, deletes and re-inserts, tombstones in any order or lost, a sync that finishes with nobody writing and no delete pending leaves the view equal to the source exactly when it started after the last write or had missed no row by then |
| `ReplicationLimits.FailedRedumpLosesRow` | packages/server/src/services/clickhouseSyncService.ts:440-467 | A run in which a rebuild fails after dropping the old log: a row is missing and below the old watermark, so no sync reads it again |
| `ReplicationLimits.BusyDumpLosesChange` | packages/server/src/services/clickhouseSyncService.ts:456-467 | A run in which writers change a row behind a dump's cursor and then its last row: the change is lost |
| `ReplicationLimits.LateTombstoneLosesRow` | packages/server/src/services/binlogTailerService.ts:346-372 | A run in which a row is read before the tombstone of an earlier one is written, and a newer row after it: the row is lost |
| `ReplicationLimits.OvertakenTombstoneResurrectsRow` | packages/server/src/services/binlogTailerService.ts:346-372 | A run in which a page holding a deleted row is appended after its tombstone: the row comes back |
| `ReplicationLimits.LostTombstoneResurrectsRow` | packages/server/src/services/binlogTailerService.ts:323-327 | A run in which the insert of a tombstone fails: the deleted row stays in the view |
| `ReplicationLimits.LostForGood` | packages/server/src/services/clickhouseSyncService.ts:505-541 | A row lost at rest stays out of the view and below the watermark over every run that neither changes it nor rebuilds the table |
| `ReplicationLimits.ResurrectedForGood` | packages/server/src/services/binlogTailerService.ts:346-372 | A row resurrected at rest stays in the view over every run that neither writes its key nor rebuilds the table |
| `ReplicationLimits.PromisesAreNeeded` | packages/server/src/services/clickhouseSyncService.ts:422-551 | The five runs above exist from a two-row source: where a clause of `Timely` is not kept, a row can be lost, or come back, in a reachable state |
| `SyncService.TableSync.constructor` | packages/server/src/services/clickhouseSyncService.ts:26-50 | Before its first sync a table has no log, no watermark and no lock |
| `SyncService.TableSync.PerformFullSync` | packages/server/src/services/clickhouseSyncService.ts:422-477 | Drops the log, appends the dump and saves the last row's timestamp as watermark; cut short, it has dropped the log and saved nothing |
| `SyncService.TableSync.AppendAll` | packages/server/src/services/clickhouseSyncService.ts:446-459 | Appends the batches in order, each with its own sync timestamp, counting rows and keeping the last row's timestamp |
| `SyncService.TableSync.PerformIncrementalSync` | packages/server/src/services/clickhouseSyncService.ts:479-551 | Dumps when there is no timestamp column, table or watermark or the schema changed; otherwise appends the stream from the watermark and saves the last timestamp it read. A sync that succeeds reports a full one exactly in the first case |
| `SyncService.TableSync.BeginSync` | packages/server/src/services/clickhouseSyncService.ts:77-87 | One sync at a time per table: a caller takes the lock exactly when no other is syncing, and is otherwise turned away with nothing changed |
| `SyncService.TableSync.EndSync` | packages/server/src/services/clickhouseSyncService.ts:88-122 | The caller holding the lock syncs and gives it back however that ends. Over a quiet source a sync that succeeds leaves the view equal to the source: whatever was in the old log when the schema changed or there is no timestamp column, table or watermark; otherwise it keeps the old log, adds to it, and needs one that was right up to the watermark |
| `SyncService.DumpShowsSource` | packages/server/src/services/clickhouseSyncService.ts:422-477 | A finished dump of a quiet source leaves exactly its rows in the view |
| `SyncService.StreamShowsSource` | packages/server/src/services/clickhouseSyncService.ts:479-551 | A finished stream completes a view that was right below the watermark |
| `SyncRefinement.FullSyncIsRun` | packages/server/src/services/clickhouseSyncService.ts:422-477 | A full sync, finished or cut short, with writes, deletes and tombstones from its start to its end, is a timely run of the replication state machine up to its last step, with the log and watermark of the code; that step keeps the invariant exactly when it is timely, and certainly when the last row is no newer than the start and no older row was read before the tombstone of an earlier one |
| `SyncRefinement.IncrementalSyncIsRun` | packages/server/src/services/clickhouseSyncService.ts:505-541 | An incremental sync, with shrinking limits and failing queries, with writes, deletes and tombstones from its start to its end, is a timely run up to its last step, with the log and watermark of the code; that step keeps the invariant exactly when it is timely, and certainly when it fails, reads nothing, or read no row older than its last before the tombstone of an earlier one |
| `SyncRefinement.DumpLogIsAppended` | packages/server/src/services/clickhouseSyncService.ts:446-459 | With no tombstones between, the log of that run is the one the full sync's loop appends, batch by batch |
| `SyncRefinement.StreamLogIsAppended` | packages/server/src/services/clickhouseSyncService.ts:515-531 | With no tombstones between, the log of that run is the one the incremental sync's loop appends, batch by batch |
| `BinlogTailer.Tailer.constructor` | packages/server/src/services/binlogTailerService.ts:77-100 | A new tailer has nothing pending and nothing cached |
| `BinlogTailer.Tailer.QueueNudge` | packages/server/src/services/binlogTailerService.ts:396-403 | Queues a table once, and arms the timer unless it is armed or a flush is in flight |
| `BinlogTailer.Tailer.OnNudgeTimer` | packages/server/src/services/binlogTailerService.ts:399-415 | The timer starts a flush that takes all pending tables and starts the first sync |
| `BinlogTailer.Tailer.OnSyncSettled` | packages/server/src/services/binlogTailerService.ts:409-424 | After each sync, failed or not, the flush goes on to the next table, or to those queued meanwhile, or ends |
| `BinlogTailer.Tailer.StopNudging` | packages/server/src/services/binlogTailerService.ts:159-173 | Stopping cancels the timer and leaves the pending tables |
| `BinlogTailer.Tailer.OnQuery` | packages/server/src/services/binlogTailerService.ts:286-296 | A schema-changing statement empties the key cache and leaves the lookups in flight as they are |
| `BinlogTailer.Tailer.BeginDelete` | packages/server/src/services/binlogTailerService.ts:330-334 | A delete event without rows does nothing; otherwise it takes the cached key or suspends in a lookup |
| `BinlogTailer.Tailer.OnAnswer` | packages/server/src/services/binlogTailerService.ts:390-391 | MySQL tells a lookup the primary key or, asked again when there is none, a unique one |
| `BinlogTailer.Tailer.OnLookupFailed` | packages/server/src/services/binlogTailerService.ts:323-326 | A lookup that MySQL fails to answer ends its handler and caches nothing |
| `BinlogTailer.Tailer.ResumeDelete` | packages/server/src/services/binlogTailerService.ts:392-393 | A handler that resumes caches the key it was told, whatever happened meanwhile |
| `BinlogTailer.Tailer.WriteTombstones` | packages/server/src/services/binlogTailerService.ts:330-377 | With its key known, a delete event inserts, in order, one tombstone for each deleted row that carries the whole key; nothing for a table without a key |
| `BinlogTailer.Tailer.OnInserted` | packages/server/src/services/binlogTailerService.ts:370-377 | An insert that settles writes all its tombstones and counts them, or, failing, none; inserts may settle in any order |
| `BinlogTailer.TombstonedIff` | packages/server/src/services/binlogTailerService.ts:350-368 | A key is tombstoned exactly when some deleted row carries all its columns, none of them null |
| `BinlogTailer.KeyValuesAre` | packages/server/src/services/binlogTailerService.ts:350-368 | A tombstone carries exactly the key columns, with the values of the deleted row, none of them missing or null |
| `DedupKeys.StaysCurrentIff` | packages/server/src/services/binlogTailerService.ts:387-394 | However handlers overlap, a cache that is right stays right under an unchanged schema exactly when no lookup in flight has been told what is no longer so |
| `DedupKeys.CurrentAfterDdlIff` | packages/server/src/services/binlogTailerService.ts:286-296 | After a DDL event the cache is right, and stays right whatever comes, exactly when no lookup was in flight with an old answer that the new schema changes |
| `DedupKeys.StaleKeyRun` | packages/server/src/services/binlogTailerService.ts:210-212 | The run that caches a stale key: a delete misses and is told the old key, a DDL event empties the cache, the delete resumes |
| `DedupKeys.CachedStays` | packages/server/src/services/binlogTailerService.ts:387-394 | Every later delete of that table then uses the stale key until the next DDL event |
| `DedupKeys.LookupCachesKey` | packages/server/src/services/binlogTailerService.ts:387-394 | A delete event of a table not cached, with nothing in between, caches the primary key after one answer, or, where there is none, the unique key after two |
| `Nudges.SoundAlways` | packages/server/src/services/binlogTailerService.ts:396-425 | In every interleaving the timer and a flush exclude each other, so flushes never overlap |
| `Nudges.StrandedIff` | packages/server/src/services/binlogTailerService.ts:159-173 | Pending nudges are left without a timer or flush exactly by a stop whose timer had still to fire; any later event rescues them |
| `Nudges.NeverStranded` | packages/server/src/services/binlogTailerService.ts:396-425 | While not stopped, pending nudges always have a timer armed or a flush in flight |
| `Nudges.NoLostNudge` | packages/server/src/services/binlogTailerService.ts:396-425 | A table queued at any moment, even while its own sync runs, has a sync that starts later or still waits for one |
| `Nudges.WaitIsBounded` | packages/server/src/services/binlogTailerService.ts:405-425 | A waiting table's sync starts after as many timer firings and settled syncs as there are tables ahead of it, whatever is queued meanwhile |
| `Nudges.StopStrandsNudge` | packages/server/src/services/binlogTailerService.ts:159-173 | After a stop between an event and its timer nothing happens until the next event is queued, also across a restart |
| `RateLimit.RateLimiter.constructor` | packages/server/src/middleware/rateLimit.ts:30-46 | A limiter starts without buckets |
| `RateLimit.RateLimiter.CheckRateLimit` | packages/server/src/middleware/rateLimit.ts:237-297 | The verdict and the stored bucket are those of the specification, see `VerdictIsWeighted`, and do not depend on the mode; only enforce mode blocks |
| `RateLimit.RateLimiter.Cleanup` | packages/server/src/middleware/rateLimit.ts:715-723 | Drops exactly the buckets whose window started more than two windows ago |
| `RateLimit.CleanupIsUnobservable` | packages/server/src/middleware/rateLimit.ts:252-279 | Cleanups inserted at any times into any run change no verdict |
| `RateLimit.VerdictIsWeighted` | packages/server/src/middleware/rateLimit.ts:252-286 | After any run, by what it admitted alone: with w the start of the window that now lies in, a request is over the limit exactly when the cost admitted in the window before, times 1 - (now - w) / windowMs, plus the cost admitted in w, plus its own, is more than the limit; the cost reported as used is that sum |
| `RateLimit.AdmissionWithinLimit` | packages/server/src/middleware/rateLimit.ts:265-279 | An admission keeps previous cost times the remaining fraction plus current cost within the limit, and so the cost of one window |
| `RateLimit.RemainingIsExact` | packages/server/src/middleware/rateLimit.ts:265-286 | `remaining` is exact: a next request at once, of any whole cost, is let through exactly when it costs no more |
| `RateLimit.EveryAdmissionFits` | packages/server/src/middleware/rateLimit.ts:252-279 | After any run a request let through fits the limit, and the time lies in the bucket's window |
| `RateLimit.AdmittedAtMostTwiceLimit` | packages/server/src/middleware/rateLimit.ts:237-297 | Over any run with a clock that never steps back, the cost admitted for one bucket in any interval of one window is at most twice the limit |
| `InFlightSlots.SlotStore.constructor` | packages/server/src/middleware/rateLimit.ts:299-307 | A slot store starts empty |
| `InFlightSlots.SlotStore.Acquire` | packages/server/src/middleware/rateLimit.ts:309-344 | With an entry updated within the time to live, a request joins it, and is turned away in enforce mode exactly when it holds the maximum; otherwise it opens a new generation and the old entry goes. In enforce mode no count exceeds the maximum |
| `InFlightSlots.SlotStore.Release` | packages/server/src/middleware/rateLimit.ts:345-362 | Gives a slot back at most once, to the entry of its own generation only: that entry counts one slot less, and goes with its last |
| `InFlightSlots.SlotStore.Cleanup` | packages/server/src/middleware/rateLimit.ts:725-730 | Drops exactly the entries not updated for the time to live |
| `InFlightSlots.AcquireKeepsCounts` | packages/server/src/middleware/rateLimit.ts:335-344 | Conservation: after an acquisition each entry counts exactly the unreleased slots of its generation |
| `InFlightSlots.ReleaseKeepsCounts` | packages/server/src/middleware/rateLimit.ts:346-362 | Conservation: after a release, repeated or of an evicted generation, each entry still counts exactly the unreleased slots of its generation |
| `QueryGovernor.Governor.constructor` | packages/server/src/services/queryGovernor.ts:52-78 | A governor starts with nothing running or waiting |
| `QueryGovernor.Governor.Begin` | packages/server/src/services/queryGovernor.ts:84-113 | Starts a query below `maxConcurrent` running ones, rejects it when the queue is full as well, and queues it otherwise; counts rejections |
| `QueryGovernor.Governor.ResumeWaiter` | packages/server/src/services/queryGovernor.ts:104-111 | A released waiter counts as running only when its continuation resumes |
| `QueryGovernor.Governor.Complete` | packages/server/src/services/queryGovernor.ts:113-122 | After success, timeout or error the slot is freed, the totals are kept and the next waiter released |
| `QueryGovernor.Governor.ReleaseNext` | packages/server/src/services/queryGovernor.ts:173-203 | Releases the waiter the priority and anti-starvation rules pick |
| `QueryGovernor.SafeAlways` | packages/server/src/services/queryGovernor.ts:84-122 | In every interleaving each query is in exactly one of queued, granted, running and finished; while anyone waits every slot is taken or promised; the queue stays within its bound |
| `QueryGovernor.SemaphoreHoldsIff` | packages/server/src/services/queryGovernor.ts:93-109 | A step keeps running plus granted within `maxConcurrent` exactly when it does not start a query into a promised slot |
| `QueryGovernor.SemaphoreHolds` | packages/server/src/services/queryGovernor.ts:84-122 | When granted waiters resume before the next arrival, `maxConcurrent` is never exceeded |
| `QueryGovernor.BargingExceedsSemaphore` | packages/server/src/services/queryGovernor.ts:103-109 | Otherwise it is: a completion, an arrival and then the waiter's resumption run one query too many |
| `QueryGovernor.NormalReleasedIff` | packages/server/src/services/queryGovernor.ts:173-203 | A normal query is released exactly when no high one waits, or when one waits and high ones have been released `maxConsecutiveHighPriority` times in a row |
| `QueryGovernor.CountsTurns` | packages/server/src/services/queryGovernor.ts:173-203 | In every run the counter is the number of high-priority queries released since the last normal one |
| `QueryGovernor.TurnsByHistory` | packages/server/src/services/queryGovernor.ts:173-203 | After any run, a completion releases a normal query exactly when no high one waits, or when one waits and at least the last `maxConsecutiveHighPriority` released were all high |
| `QueryGovernor.FifoAlways` | packages/server/src/services/queryGovernor.ts:173-203 | Within each priority queries are released in the order they were queued |
| `QueryGovernor.BoundedBypass` | packages/server/src/services/queryGovernor.ts:173-203 | A normal query with p normal ones ahead of it is released within (p + 1) * (maxConsecutiveHighPriority + 1) completions, whatever arrives |
| `QueryGovernor.StepKeepsSound` | packages/server/src/services/queryGovernor.ts:84-171 | The monitoring map always lists exactly the queries that run or wait, with their status |
| `SqlSafety.SkipWhitespaceAndComments` | packages/server/src/utils/sqlSafety.ts:15-64 | Finds the next position that starts neither white space nor a comment of the token grammar |
| `SqlSafety.CanIgnoreAfterSemicolon` | packages/server/src/utils/sqlSafety.ts:82-91 | True exactly when only blanks, comments and semicolons are left |
| `SqlSafety.HasNonTrailingSemicolon` | packages/server/src/utils/sqlSafety.ts:93-200 | True exactly when a semicolon outside quotes and comments is followed by a token that is neither blank, comment nor semicolon |
| `SqlSafety.ReadWord` | packages/server/src/utils/sqlSafety.ts:66-80 | Reads the run of letters at a position, in upper case |
| `SqlSafety.IsReadOnlyMySQLQuery` | packages/server/src/utils/sqlSafety.ts:202-235 | Accepts exactly the texts that start with a read-only keyword, are no EXPLAIN ANALYZE and are one statement |
| `SqlSafety.AcceptedIsOneStatement` | packages/server/src/utils/sqlSafety.ts:202-235 | An accepted text is one piece without a semicolon outside quotes and comments, then a tail that is nothing but blanks, comments and semicolons |
| `SqlSafety.AcceptedIff` | packages/server/src/utils/sqlSafety.ts:202-235 | Being one statement is also enough: a text is accepted exactly when it has a read-only first word, is no EXPLAIN ANALYZE, and its pieces are ones that are no semicolon and then a tail of blanks, comments and semicolons |
| `SqlSafety.LeadingIsIgnored` | packages/server/src/utils/sqlSafety.ts:15-64 | A blank, a line comment with its newline or a closed block comment in front of a text makes no difference to whether it is accepted |
| `SqlSafety.CaseIsIgnored` | packages/server/src/utils/sqlSafety.ts:66-80 | Two texts that differ only in the case of letters are both accepted or both refused |
| `SqlSafety.WordDecides` | packages/server/src/utils/sqlSafety.ts:1-1 | A text that is a lone upper-case word is accepted exactly when it is SELECT, SHOW, DESCRIBE, DESC or EXPLAIN |
| `SqlSafety.QuoteStops` | packages/server/src/utils/sqlSafety.ts:93-200 | A quoted text read as plain characters, backslash escapes (not in backticks) and doubled quotes (not "") ends behind the first quote that is none of these, or with the text |
| `SqlSafety.PiecesRejoin` | packages/server/src/utils/sqlSafety.ts:93-200 | The token grammar covers the text without gap or overlap |
| `LiteralMask.MaskLiterals` | packages/server/src/services/mysqlCompat.ts:177-181 | One pass replaces each string literal by its numbered placeholder and collects the literals |
| `LiteralMask.MaskRoundTripIff` | packages/server/src/services/mysqlCompat.ts:177-184 | Masking then resolving gives the text back exactly when the placeholder-like text it brings along outside its literals numbers no literal and is not completed by one |
| `LiteralMask.MaskRoundTrip` | packages/server/src/services/mysqlCompat.ts:177-184 | In particular a text without U+0001 always comes back |
| `LiteralMask.ForgedPlaceholder` | packages/server/src/services/mysqlCompat.ts:182-184 | A text that does not come back: the placeholder it brings along is replaced by its first literal |
| `LiteralMask.MaskLeavesNoLiteral` | packages/server/src/services/mysqlCompat.ts:172-181 | The masked text contains no string literal, so no pass can reach into one |
| `LiteralMask.LiteralEndIs` | packages/server/src/services/mysqlCompat.ts:177-181 | A literal is characters other than quotes and doubled quotes up to the first quote that no other follows; a backslash escapes nothing |
| `LiteralMask.OpenLiteralIsSplit` | packages/server/src/services/mysqlCompat.ts:177-181 | A text that ends before that has its literal end at the first half of its last doubled quote |
| `Decimal.ParsePrint` | packages/server/src/services/mysqlCompat.ts:179-184 | A printed placeholder number is read back as itself |
| `MysqlCompat.SplitArgs` | packages/server/src/services/mysqlCompat.ts:36-66 | Splits at exactly the top-level commas, trims, and drops an empty last argument |
| `MysqlCompat.SegmentsRejoin` | packages/server/src/services/mysqlCompat.ts:36-66 | The pieces joined with commas are the argument text: nothing is lost |
| `MysqlCompat.SegmentsAreWhole` | packages/server/src/services/mysqlCompat.ts:36-66 | No piece has a top-level comma left |
| `MysqlCompat.TrimIs` | packages/server/src/services/mysqlCompat.ts:36-66 | Trimming takes off all white space at both ends and nothing else |
| `MysqlCompat.FindCallIsFirst` | packages/server/src/services/mysqlCompat.ts:79-87 | The call found is the first one at or after the position |
| `MysqlCompat.MoveIsFirst` | packages/server/src/services/mysqlCompat.ts:84-106 | No call is passed over: before the call touched next there is no call head, and the scan ends only where there is none left or the first one left is unbalanced |
| `MysqlCompat.FindClose` | packages/server/src/services/mysqlCompat.ts:90-106 | Finds the parenthesis that closes the call, skipping quoted text |
| `MysqlCompat.ReplaceFunctionCalls` | packages/server/src/services/mysqlCompat.ts:74-125 | The in-place loop computes the specification `Rewrite`, and terminates because the text after its position shrinks |
| `MysqlCompat.PiecesAreText` | packages/server/src/services/mysqlCompat.ts:84-122 | Gaps and calls are the whole text, each character once |
| `MysqlCompat.RewriteIsPiecewise` | packages/server/src/services/mysqlCompat.ts:84-122 | The result is the text with each rewritten call replaced: nothing outside disjoint whole calls changes |
| `MysqlCompat.RewriteCounts` | packages/server/src/services/mysqlCompat.ts:84-122 | The count returned is the number of calls replaced |
| `MysqlCompat.PiecesAreFaithful` | packages/server/src/services/mysqlCompat.ts:108-121 | Each call touched is one balanced call of the function, replaced by what the builder makes of its own arguments, or left when it declines |
| `MysqlCompat.TouchedIff` | packages/server/src/services/mysqlCompat.ts:68-125 | A call head of the text is rewritten, or declined, as a piece of its own exactly when it lies inside no call touched before, comes before any unbalanced call, and is not glued to what replaced the call just before it |
| `MysqlCompat.TouchedAreSpans` | packages/server/src/services/mysqlCompat.ts:68-125 | The calls rewritten or declined are the leftmost disjoint balanced calls of the text as it was, up to the first unbalanced one; a head glued to a replacement is none |
| `MysqlCompat.ReachIs` | packages/server/src/services/mysqlCompat.ts:90-106 | The scan gets to the end of the text, or to the first head it meets that has no closing parenthesis |
| `MysqlCompat.NestedCallStays` | packages/server/src/services/mysqlCompat.ts:68-73 | In f(f(x)) the inner call stays as it is |
| `MysqlCompat.NothingRewritten` | packages/server/src/services/mysqlCompat.ts:84-122 | A count of zero means an unchanged text |
| `CallTerms.ArgumentsComeApart` | packages/server/src/services/mysqlCompat.ts:36-66 | Splitting undoes joining: well-formed arguments, whose commas are all inside closed quotes and brackets, written with commas between them come apart as they were |
| `CallTerms.CallIsFound` | packages/server/src/services/mysqlCompat.ts:74-106 | A call with a name in any case, white space and well-formed arguments in parentheses is a call head exactly when no quote, dot or word character stands right before it, and its closing parenthesis is the one found |
| `CallTerms.CallIsRead` | packages/server/src/services/mysqlCompat.ts:36-110 | The builder gets the arguments of such a call, trimmed, without the last one when it is blank |
| `CompatPasses.ApplyMysqlCompat` | packages/server/src/services/mysqlCompat.ts:168-323 | Masks, runs the passes in order and restores the literals; the notes have no duplicates and are exactly those of the passes that found something in the text the passes before left |
| `CompatPasses.NotesAre` | packages/server/src/services/mysqlCompat.ts:168-323 | After any number of passes a note is listed, once, exactly when a pass of that note found something |
| `CompatPasses.WordsFoundIff` | packages/server/src/services/mysqlCompat.ts:186-199 | A keyword pass finds something exactly when its keyword stands somewhere in the text |
| `CompatPasses.CallsFoundIff` | packages/server/src/services/mysqlCompat.ts:186-199 | A call pass finds something exactly when it replaced a call |
| `CompatPasses.UnchangedIff` | packages/server/src/services/mysqlCompat.ts:168-323 | A query to which no pass applies is returned unchanged exactly when masking and resolving gives it back |
| `CallTerms.BareIsFound` | packages/server/src/services/mysqlCompat.ts:186-194 | A bare keyword is found, in any case, exactly when it is no part of a longer word, has no quote or dot before it and is not called |
| `CallTerms.CalledIsFound` | packages/server/src/services/mysqlCompat.ts:197-200 | A called keyword is found, in any case, exactly when no quote, dot or word character stands before it and a parenthesis, perhaps after white space, behind it |
| `CallTerms.FirstWordReplaced` | packages/server/src/services/mysqlCompat.ts:186-200 | A keyword pass leaves the text up to the first one found, replaces that and goes on behind it |
| `CompatBuilders.PassesAre` | packages/server/src/services/mysqlCompat.ts:186-320 | Each call pass looks for its own function with its own builder, each word pass for its word with its replacement |
| `CompatBuilders.DateDiffSwaps` | packages/server/src/services/mysqlCompat.ts:204-217 | DATEDIFF(a, b) becomes dateDiff in days with b first and a second, for all a and b that are no literals |
| `CompatBuilders.DateDiffParses` | packages/server/src/services/mysqlCompat.ts:209-217 | A literal on either side of DATEDIFF is parsed as a date, in its swapped place |
| `CompatBuilders.ConvertTzNames` | packages/server/src/services/mysqlCompat.ts:222-230 | From UTC, a target that is a named zone becomes toTimeZone, and one that is neither zone nor offset leaves the call alone |
| `CompatBuilders.ConvertTzShifts` | packages/server/src/services/mysqlCompat.ts:222-233 | From UTC, an offset becomes its minutes added when ahead, subtracted when behind, and nothing when zero |
| `CompatBuilders.OffsetsAre` | packages/server/src/services/mysqlCompat.ts:161-165 | An offset is its hours, in one digit or two, times 60 plus its minutes, negative with a minus |
| `CompatBuilders.JsonExtractUnquotes` | packages/server/src/services/mysqlCompat.ts:307-320 | JSON_UNQUOTE of a well-formed JSON_EXTRACT with two arguments becomes JSON_VALUE of them, trimmed, in their order |
| `LiteralsKept.PiecesAreWholeIff` | packages/server/src/services/mysqlCompat.ts:172-184 | On a text with whole placeholders, no gap, call or replacement of a call pass cuts one exactly when no replacement does: where calls start and end never does |
| `LiteralsKept.PassKeepsLiterals` | packages/server/src/services/mysqlCompat.ts:172-184 | A pass whose replacements in this text cut no placeholder changes the query, read with its literals in place, inside the words and calls it replaces and nowhere else |
| `LiteralsKept.LiteralsComeThrough` | packages/server/src/services/mysqlCompat.ts:168-323 | For any passes over a text without U+0001: each one up to which no pass cuts a placeholder of the text it gets changes the query, read with its literals in place, inside the words and calls it replaces and nowhere else |
| `CompatLiterals.LiteralsComeThroughIff` | packages/server/src/services/mysqlCompat.ts:168-323 | Literals untouchable, for the twelve passes as they are and any text without U+0001: every pass changes the query, read with its literals in place, inside the words and calls it replaces and nowhere else, if and only if no TIMESTAMPDIFF call that is replaced has a literal in its unit |
| `CompatLiterals.OtherPassesWhole` | packages/server/src/services/mysqlCompat.ts:186-320 | The eleven other passes, with their builders as they are, cut no placeholder of any text |
| `CompatLiterals.UnitsPlainIff` | packages/server/src/services/mysqlCompat.ts:276-287 | The TIMESTAMPDIFF pass cuts no placeholder of a text exactly when no three-argument call it touches has a literal in its unit |
| `CompatLiterals.TimestampDiffKeepsIff` | packages/server/src/services/mysqlCompat.ts:276-287 | The builder for TIMESTAMPDIFF keeps the placeholders of its arguments whole exactly when its unit brings none along: lower-casing the unit cuts one |
| `CompatLiterals.QuotedUnitIsLost` | packages/server/src/services/mysqlCompat.ts:168-323 | TIMESTAMPDIFF('DAY',a,b) through all twelve passes: the literal is never put back, the result has the cut placeholder in its place |
| `SdkClient.DucklingClient.constructor` | packages/sdk/src/index.ts:84-106 | A new client has no socket, no request and no timer |
| `SdkClient.DucklingClient.Connect` | packages/sdk/src/index.ts:112-116 | Renews the retry budget, then connects |
| `SdkClient.DucklingClient.InnerConnect` | packages/sdk/src/index.ts:122-256 | Does nothing when connected or connecting; otherwise replaces a stale socket, clears the reconnect timer and opens a socket with its deadline armed; where making it throws, neither socket nor deadline is left |
| `SdkClient.DucklingClient.TeardownSocket` | packages/sdk/src/index.ts:325-353 | Tears a socket down once: requests and the connect promise are rejected, flags cleared, a retry scheduled when asked |
| `SdkClient.DucklingClient.RejectPendingRequests` | packages/sdk/src/index.ts:317-323 | Settles every pending request once and leaves none |
| `SdkClient.DucklingClient.ScheduleReconnect` | packages/sdk/src/index.ts:281-315 | Arms the timer within the budget, announces exhaustion once beyond it, does nothing when closed, disabled or already armed |
| `SdkClient.DucklingClient.OnReconnectTimer` | packages/sdk/src/index.ts:308-314 | A firing timer starts one retry without renewing the budget |
| `SdkClient.DucklingClient.OnOpen` | packages/sdk/src/index.ts:168-176 | An opened current socket sends its authentication request |
| `SdkClient.DucklingClient.OnAuthSettled` | packages/sdk/src/index.ts:174-207 | Success of the current socket resolves `connect` and renews the retries; a refusal or a send that threw tears down for good; a timeout or a closed socket tears down with a retry |
| `SdkClient.DucklingClient.OnMessage` | packages/sdk/src/index.ts:209-214 | A response settles its request if it is pending, and only from the current socket; with what is said by `OutcomeIsFirst` |
| `SdkClient.DucklingClient.OnError` | packages/sdk/src/index.ts:216-230 | An error of the current socket tears it down and retries |
| `SdkClient.DucklingClient.OnClosed` | packages/sdk/src/index.ts:232-252 | A close of the current socket tears it down and retries unless its code is 1008 or 1011 |
| `SdkClient.DucklingClient.OnDeadline` | packages/sdk/src/index.ts:157-166 | A connection timeout tears its own socket down with a retry |
| `SdkClient.DucklingClient.OnPingFailed` | packages/sdk/src/index.ts:541-555 | A failed ping tears down whichever socket is current |
| `SdkClient.DucklingClient.Close` | packages/sdk/src/index.ts:571-589 | Stops pinging and retrying and tears the socket down |
| `SdkClient.DucklingClient.SendRequest` | packages/sdk/src/index.ts:601-639 | A request becomes pending only if the socket is open and the send went through; otherwise it is settled at once |
| `SdkClient.DucklingClient.OnRequestTimeout` | packages/sdk/src/index.ts:608-618 | A timeout settles its request and forgets it |
| `SdkClient.MessageIdsDiffer` | packages/sdk/src/index.ts:693-695 | Message ids never repeat, whatever the clock says |
| `SdkConnection.InvAlways` | packages/sdk/src/index.ts:71-353 | Every run keeps the connection invariant: one live socket, accounted requests, excluded phases, bounded retries |
| `SdkConnection.SettledExactlyOnce` | packages/sdk/src/index.ts:317-323 | In every run a request is pending, or has been settled exactly once by a response, a timeout, a failed send or a teardown |
| `SdkConnection.OutcomeIsFirst` | packages/sdk/src/index.ts:601-690 | In every run a request is settled with what the first event says that settles it: a response of the then current socket with its own success flag, its timeout, the loss of the socket, or what kept it from being sent |
| `SdkConnection.AuthenticatedWasWelcomed` | packages/sdk/src/index.ts:174-183 | In every run an authenticated client has a current socket on which its authentication request was answered with success |
| `SdkConnection.OneLiveSocket` | packages/sdk/src/index.ts:325-334 | In every run a socket is not torn down exactly when it is the current one |
| `SdkConnection.RetriesAreBounded` | packages/sdk/src/index.ts:281-315 | In every run the retries since the budget was renewed stay within it, and exhaustion is announced at most once per `connect` |
| `SdkConnection.RetriesAreCounted` | packages/sdk/src/index.ts:281-315 | In every run, by its events alone: the reconnect timer has fired at most `maxReconnectAttempts` times since `connect` or the last accepted handshake, and unless closed by hand exactly as many attempts are used up, with one more while the timer is armed |
| `SdkConnection.CloseIsFinal` | packages/sdk/src/index.ts:571-589 | After `close` and until the next `connect`, whatever arrives late, nothing is pending and no timer, ping or socket is left |
| `SdkConnection.HandshakeDecides` | packages/sdk/src/index.ts:174-207 | A settled handshake ends the attempt: accepted, it is connected with a fresh retry budget; otherwise it is retried exactly when it timed out or found the socket closed, reconnecting is on and a retry is left |
| `SdkConnection.GivesUpIff` | packages/sdk/src/index.ts:112-353 | Exactly which events leave a client that was not closed without socket, attempt and retry: a socket that cannot be made, a refused handshake, and a loss that forbids a retry or finds none left |
| `SdkConnection.NeverQuietIff` | packages/sdk/src/index.ts:112-353 | Over any run the client is at work or closed all along exactly when none of those events comes |
| `CdcPoller.Poller.constructor` | packages/server/src/services/cdcCompatibilityService.ts:36-62 | A poller starts with no snapshots and zero counters |
| `CdcPoller.Poller.SyncTable` | packages/server/src/services/cdcCompatibilityService.ts:188-228 | Chooses full, incremental or no sync by what changed, and counts inserts, deletes and updates from the snapshots, see `SyncChosen` and `TableCounts` |
| `CdcPoller.Poller.SyncTables` | packages/server/src/services/cdcCompatibilityService.ts:185-228 | Goes through the tables until one fails; the counts are the sums over all of them |
| `CdcPoller.Poller.RunCycle` | packages/server/src/services/cdcCompatibilityService.ts:147-250 | Commits counters and snapshots as a whole or not at all, and counts an error unless the cycle and its checkpoint both succeed |
| `CdcPoller.TableCounts` | packages/server/src/services/cdcCompatibilityService.ts:188-228 | Of a table a later cycle counts all rows when it is new, the difference as inserts or as deletes but never both, and updates, its sync's records, when the count is the same and both tokens are known and differ |
| `CdcPoller.FirstCounts` | packages/server/src/services/cdcCompatibilityService.ts:188-205 | The first cycle counts as inserts the rows of the tables it had to bring over, and nothing else |
| `CdcPoller.SyncChosen` | packages/server/src/services/cdcCompatibilityService.ts:188-228 | A cycle changes nothing when it cannot read everything or a sync that it needs fails: a full one of a table that is new, or shrank, or at first is not there yet, an incremental one of any other later |
| `CdcPoller.CycleCommits` | packages/server/src/services/cdcCompatibilityService.ts:147-250 | When all those succeed the cycle commits: the position moves on and the snapshots are those of the tables now |
| `CdcPoller.IdleCycle` | packages/server/src/services/cdcCompatibilityService.ts:188-240 | A later cycle in which every table keeps its count and its token changes none of the four counters |
| `CdcPoller.UpdateCycle` | packages/server/src/services/cdcCompatibilityService.ts:221-240 | One in which only one table's token moved, at the same count, adds exactly the records of its sync to updates and events |
| `CdcPoller.CycleConserves` | packages/server/src/services/cdcCompatibilityService.ts:180-240 | One cycle, failed or not, keeps inserts minus deletes equal to the rows now plus those of dropped tables minus the baseline |
| `CdcPoller.ConservedAlways` | packages/server/src/services/cdcCompatibilityService.ts:147-250 | Over any mix of failing and succeeding cycles the counters account for every row, and events are inserts plus updates plus deletes |
| `CdcPoller.BalanceIff` | packages/server/src/services/cdcCompatibilityService.ts:147-250 | Inserts minus deletes are the rows now minus the baseline exactly when no committed cycle finds a table gone that had rows |
| `ApiKeyIndex.DatabaseConfigManager.constructor` | packages/server/src/database/databaseConfig.ts:171-185 | A manager without databases has an index in step with them |
| `ApiKeyIndex.DatabaseConfigManager.RebuildApiKeyIndex` | packages/server/src/database/databaseConfig.ts:322-330 | The rebuilt index has exactly the hashes of the records, each with a database and key id it belongs to |
| `ApiKeyIndex.DatabaseConfigManager.SaveConfig` | packages/server/src/database/databaseConfig.ts:302-319 | The index is rebuilt only after the file was written; a failed save leaves it as it was |
| `ApiKeyIndex.DatabaseConfigManager.LookupApiKey` | packages/server/src/database/databaseConfig.ts:339-355 | Answers what the index and records say, and an index in step stays in step, also through the usage flush |
| `ApiKeyIndex.DatabaseConfigManager.CreateApiKey` | packages/server/src/database/databaseConfig.ts:362-382 | Adds an enabled record with the fresh id and hash to a known database |
| `ApiKeyIndex.DatabaseConfigManager.UpdateApiKey` | packages/server/src/database/databaseConfig.ts:385-399 | Changes the first record with that id in place, never its id or hash; what its later lookups answer is said by `EditDecides` |
| `ApiKeyIndex.DatabaseConfigManager.DeleteApiKey` | packages/server/src/database/databaseConfig.ts:402-411 | Removes exactly the records with that id |
| `ApiKeyIndex.DatabaseConfigManager.AddDatabase` | packages/server/src/database/databaseConfig.ts:434-459 | Adds a database under a name that was not in use, with any records its configuration brings along; the bookkeeping `Valid`, under which lookups are proved sound (`LookupIff`), is kept exactly if those were made for that name |
| `ApiKeyIndex.DatabaseConfigManager.UpdateDatabase` | packages/server/src/database/databaseConfig.ts:466-490 | Replaces the records of a known database by any records, and the index with them; the bookkeeping `Valid`, under which lookups are proved sound (`LookupIff`), is kept exactly if those were made for that database |
| `ApiKeyIndex.DatabaseConfigManager.DeleteDatabase` | packages/server/src/database/databaseConfig.ts:492-498 | Removes a database with its records |
| `ApiKeyIndex.DatabaseConfigManager.GenerateId` | packages/server/src/database/databaseConfig.ts:500-509 | Ends with the first candidate name not in use, after at most as many tries as there are databases |
| `ApiKeyIndex.LookupIff` | packages/server/src/database/databaseConfig.ts:339-346 | With any index, stale or not, a lookup finds exactly the usable record with that hash, if the index knows the hash: never an absent, disabled or expired one |
| `ApiKeyIndex.LookupIsScan` | packages/server/src/database/databaseConfig.ts:339-346 | With the index in step, a lookup finds exactly what a linear scan for an enabled, unexpired record with that hash finds |
| `ApiKeyIndex.LookupIsUsable` | packages/server/src/database/databaseConfig.ts:339-346 | What a lookup answers is a stored record with that hash that is enabled and expires, if at all, later than now |
| `ApiKeyIndex.EditDecides` | packages/server/src/database/databaseConfig.ts:385-399 | After an edit a key that the index knows is found exactly when the edit enables it, or leaves it enabled, and its expiry, as edited or as it was, is none or lies ahead |
| `ApiKeyIndex.UnsavedKeyIsMissed` | packages/server/src/database/databaseConfig.ts:362-382 | A key whose save failed is there for a scan but not found by a lookup |

## Left out

- SyncRefinement.FullSyncIsRun: tables without a timestamp column, which are dumped every time and have no watermark. Here and in `IncrementalSyncIsRun` a tombstone is lost during the sync only when its key is back or deleted again, not also when it is not in the view.
- SqlSafety.AcceptedIsOneStatement: MySQL's own lexing. The text is read as the code reads it, where `--` starts a comment also without a blank behind it and `/*! */` is one like any other; MySQL reads these differently, so one statement for the code need not be one for MySQL.
- OFFSET pagination of tables without a primary key, and its sort-memory retry, whose rewritten LIMIT does not match a query ending in OFFSET; the view without deduplication of tables without any key.
- Updates that change a primary key, null timestamps, and rows with equal timestamps written behind an incremental cursor: the code does not promise convergence there.
- Value conversion, type mapping, time zones, hashing, random ids and the text of SQL statements.
- Binlog decoding, checkpoints, reconnection and GTID sets of the tailer; it is best-effort by its own account.
- The schema read between taking the table lock and the `try` of `syncSingleTable`, which keeps the lock when it fails: in the model, a `BeginSync` that no `EndSync` follows.
- Inserts into ClickHouse that fail during a sync, as an outcome of its methods: there the sync just ends early, which is its dump or stream cut short before that page; as `Abort`, `Replication` has them at any point.
- Schema fingerprints: whether the schema changed is an input of a sync.
- Sync logs, progress events, bootstrap for PeerDB, the replication coordinator and mode detection.
- The response headers of the rate limiter, path classification, client identification and request costs: plain functions of a request. Stream slots are a simpler form of query slots.
- The governor's timeout: a query that times out is one that completes with `TimedOut`, while the abandoned work may go on in the database.
- Lower-casing and matching letters beyond ASCII in the rewriting builders. `detectUnsupported` is not modelled.
- JavaScript's regular-expression engine: call heads, words and literals are found by scanners with the same matches.
- Partial effects of a poller cycle that fails midway: tables synced before the failure are synced again, which `ProjectionView.RereadIsUnobservable` makes harmless.
- `lastUsedAt`, names and other descriptive fields of key records, and the sharing of record objects between callers and the manager: records are values here.
- Loading and migrating the configuration file; the normalising of a database name before `generateId`: its base is an input.
- The SDK's result types, batching and pagination helpers, logging, and the error events of a connection timeout that fires after its socket was torn down.
- HTTP routes, the dashboard, backups, log buffers, worker pools and the command line: I/O or simple bookkeeping.
