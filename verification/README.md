# dex-ingest-sol: verified models

A Dafny model of the ingestion and query paths of dex-ingest-sol: Solana events arrive from Kafka, are written to
a table store by per-partition workers, and are read back through caches. The model proves what the parts promise
each other, over every run, interleaving, crash or input. `dafny verify dfyconfig.toml` checks all of it.

| files | what they model |
|---|---|
| `BalanceModel`, `BalanceWriter`, `BalanceSchedule`, `Retry` | one `InsertBalances` call: deduplication, the realtime and the historical mode, chunk statements, its two goroutines with retries |
| `FlushModel`, `IngestWorker` | the worker's event loop: channel, queue, slot watermark, flush, offset commit |
| `CrashReplay`, `LastWriterWins`, `Ingestion` | whole runs: crashes and replays, when "the newest event wins" holds, what a reader sees |
| `ParallelMap` | dispatcher, workers, two channels, wait group |
| `LockCache`, `LockCacheAnswers` | one cache shard with entry locks, second-granular expiry and a concurrent cleaner: what its answers are worth, and that every call gets one |
| `TransferQuery`, `PoolEventsQuery`, `AccountsQuery`, `TopHolders` | the query services: merge and paging, cache keys, cache split, ranking |
| `PoolFilter`, `PoolWriter`, `EventWriter`, `Chunking` | the LRU filter, the in-place fold, work allocation and statement chunking |
| `EventId`, `Formatting`, `Wrappers` | event-id packing, number formatting, stock result types |

Objects whose methods update fields are classes here too (`BalanceTable`, `WorkerContext`, `PoolCache`, `Pool`,
`QueryService`). Goroutines are transition systems over the shared state; their results hold for every schedule.
SQL, Kafka and clocks are parameters or nondeterministic steps: the balance table is a map by primary key, a
partition is an ordered log with a committed offset.

## What the code does not promise

These came out of the proofs. Each is stated by the named member.

- Deletes leave no tombstone, so a late historical record can bring a deleted row back. "The newest event wins" holds
  over a run exactly when no flush does that (`LastWriterWins.RunIsLastWriter`, `LastWriterWins.ResurrectionExists`).
- The stored `last_event_id` of a row can fall across a single flush, if the flush's realtime call deletes the row
  and its historical call re-creates it with a smaller id, and in no other way (`LastWriterWins.DecreaseExactly`).
  It never falls within one `InsertBalances` call (`LastWriterWins.RealtimeNeverDecreases`,
  `LastWriterWins.HistoricalNeverDecreases`).
- `ParallelMap` with fewer than one worker and at least two inputs returns zero values
  (`ParallelMap.Run`, `ParallelMap.NoWorkerNoResult`).
- Paging through a wallet's transfers works if and only if none of them has id 0 or 2^64-1: the merge drops the
  second, and the first makes the paging endless (`TransferQuery.PagingWorksExactly`). `event_id` is a BIGINT read into
  a uint64, so 2^64-1 cannot come from the table.
- Two event queries can share a cache key wrongly if and only if one pool address is the other followed by the key text
  of some event types, which needs a colon (`PoolEventsQuery.PoolsCollide`, `PoolEventsQuery.SharedKeyIsSameQuestion`).
- The pool writer runs five goroutines, one more than its limit, exactly when the pools with a creation time are some
  but fewer than one in eight and the others are more than 300 (`PoolWriter.InsertPools`; `PoolWriter.OneTooMany` for
  any limits).
- A top-holders answer is the true ranking on every table of n accounts exactly when all n are fetched
  (`TopHolders.RightForSize`).
- `LockCache.Do` runs the caller's function twice exactly when the first run finds the answer, because line 135 returns
  early on an error only (`LockCache.HitRunsTwice`, `LockCache.DoubleRunOccurs`). It refuses with "not ready" exactly
  when the entry expires between its two checks, or was never filled and the clock stood in its first second
  (`LockCache.NotReadyExactly`, `LockCache.RefusalOccurs`).
- The comment at `internal/pkg/db/db_retry.go:13` lists one delay of 5 s; the code sleeps 5 s twice
  (`Retry.TotalDelayGrows` follows the code).

## Model

| member | source | states |
|---|---|---|
| BalanceModel.LatestIsNewest | internal/ingest/handler/balance_model_writer.go:29-37 | the deduplication keeps, for exactly the accounts that occur, a record with the greatest event id of its account |
| BalanceModel.LatestOfConcatenation | internal/ingest/handler/balance_model_writer.go:29-37 | deduplicating two lists together is deduplicating each and keeping the newer survivor, the earlier one on a tie |
| BalanceModel.FirstOfNewestSurvives | internal/ingest/handler/balance_model_writer.go:29-37 | of several records of an account with the greatest id the first one survives |
| BalanceModel.RealtimeOverwrites | internal/ingest/handler/balance_model_writer.go:90-107 | a realtime call stores an account's newest record whatever id was stored, and deletes the row if it prints "0" |
| BalanceModel.HistoricalIsGuarded | internal/ingest/handler/balance_model_writer.go:279-296 | a historical call leaves a row with a greater id, deletes one with an id no greater, stores over one with a smaller id or none |
| BalanceModel.OthersStay | internal/ingest/handler/balance_model_writer.go:23-81 | accounts without a record keep their rows |
| BalanceWriter.BalanceTable.WriteRealtime | internal/ingest/handler/balance_model_writer.go:123-222 | the chunked statements together do what one statement with all rows would do |
| BalanceWriter.BalanceTable.Filter | internal/ingest/handler/balance_model_writer.go:225-297 | exactly the records pass that the stored ids allow, whatever the chunking of the SELECTs |
| BalanceWriter.BalanceTable.WriteSide | internal/ingest/handler/balance_model_writer.go:83-222 | each account of one side gets its new row, with the historical guard if asked for; no other row changes |
| BalanceWriter.BalanceTable.InsertBalances | internal/ingest/handler/balance_model_writer.go:23-81 | the table becomes a single override by each account's newest record |
| BalanceSchedule.NextInv | internal/ingest/handler/balance_model_writer.go:49-76 | every step of either goroutine keeps the invariant that ties rows, progress and goal together |
| BalanceSchedule.AnyPrefixIsBetween | internal/ingest/handler/balance_model_writer.go:49-76 | after any part of any schedule, failed attempts included, every row is its old one or its final one |
| BalanceSchedule.EveryScheduleEndsAlike | internal/ingest/handler/balance_model_writer.go:49-80 | confluence: every finished schedule, map order and retry pattern leaves the same single override |
| BalanceSchedule.NeverStuck | internal/ingest/handler/balance_model_writer.go:49-76 | a goroutine that has not finished always has a step forward |
| Retry.RetryWithBackoff | internal/pkg/db/db_retry.go:14-46 | it succeeds if and only if some attempt within the limit succeeds after nothing but retried failures and with the context alive; otherwise it says why it stopped; the time slept |
| Retry.TotalDelayGrows | internal/pkg/db/db_retry.go:48-63 | the total delay after n failures, for all n from six on |
| Retry.FirstDelays | internal/pkg/db/db_retry.go:48-63 | the total delay after each of the first six failures |
| IngestWorker.WorkerContext.HandleMessage | internal/ingest/worker.go:140-145 | one message moves from the channel to the queue, as a batch if it has one |
| IngestWorker.WorkerContext.DrainMessages | internal/ingest/worker.go:129-138 | it takes as many messages as asked for or as there are |
| IngestWorker.WorkerContext.FlushBalanceBatches | internal/ingest/worker.go:346-396 | realtime batches are written first and blindly, the rest after them and guarded: at watermark 0 those of the gRPC stream, later those of greater slots decide their accounts' rows, and without such no stored id falls; without any balance nothing is written and nothing is to be committed |
| IngestWorker.WorkerContext.FlushBatches | internal/ingest/worker.go:246-263 | the table, the commit and the greatest slot after a flush, for either router |
| IngestWorker.WorkerContext.FlushIfNeeded | internal/ingest/worker.go:147-173 | the oldest batches, at most the limit, are flushed; the queue keeps the others in order, also on every hundredth flush; the watermark only rises |
| IngestWorker.WorkerContext.OnMessage | internal/ingest/worker.go:102-121 | a message turn takes and flushes exactly what the state calls for, and keeps the worker's invariant |
| IngestWorker.WorkerContext.OnTick | internal/ingest/worker.go:122-126 | a tick flushes the oldest batches, up to the limit, of a queue that has waited longer than the interval, changes nothing otherwise, and keeps the invariant |
| IngestWorker.WorkerContext.Run | internal/ingest/worker.go:92-127 | for any sequence of turns and arrivals the loop ends in the state its turns define, with the invariant |
| IngestWorker.MessageTurnMeans | internal/ingest/worker.go:102-121 | a message turn takes one message, or with it enough to fill a flush if so many wait, and flushes exactly when the threshold is reached |
| IngestWorker.RunTakesTurns | internal/ingest/worker.go:92-127 | in any run each turn does its work: a message turn takes the first waiting message, a tick flushes exactly what is overdue |
| IngestWorker.CommitsMeans | internal/ingest/worker.go:398-409 | a flush commits the offset of its last batch whenever the broker is willing and, for balances, there was one to write |
| IngestWorker.RunKeepsInv | internal/ingest/worker.go:92-173 | over any run, what was flushed followed by the queue is all batches built, in order; the watermark and the rows are those of the flushes; commits increase and are safe; no message is lost |
| IngestWorker.CommittedMeansHandedOver | internal/ingest/worker.go:398-409 | over any run, whenever an offset is committed, every batch at or before it has been handed to the writers |
| IngestWorker.RunKeepsDiscipline | internal/ingest/worker.go:96-173 | for any positive limits, every loop head has fewer than MaxBlockHold batches queued and no flush exceeds MaxBatchFlush or is empty |
| IngestWorker.ThresholdFlushLeaves | internal/ingest/worker.go:105-120 | how many batches a flush at the threshold leaves, for any two limits |
| IngestWorker.FlushEmptiesQueue | internal/ingest/worker.go:105-173 | when MaxBlockHold is at most MaxBatchFlush every flush empties the queue |
| FlushModel.MaxSlotBounds | internal/ingest/worker.go:256-262 | the slot a flush returns is the greatest of its batches |
| FlushModel.LiveFlushOverwrites | internal/ingest/worker.go:411-416 | batches of the gRPC stream before there is a watermark, and of later slots afterwards, decide the rows of their accounts whatever was stored |
| FlushModel.BackfillNeverLowers | internal/ingest/worker.go:411-416 | a flush of other batches lowers no stored id |
| FlushModel.BackfillIsGuarded | internal/ingest/worker.go:387-393 | it leaves newer rows alone, and does to older ones what its newest record says |
| FlushModel.BuildBatchMeans | internal/ingest/worker.go:195-244 | exactly a message that decodes and holds events becomes a batch, with its slot, offset and source, and the balances for the balance router only |
| FlushModel.BuiltFromConcat | internal/ingest/worker.go:195-244 | batches of consecutive stretches of messages are the batches of the whole |
| CrashReplay.CrashKeepsInv | internal/ingest/worker.go:147-173 | a crash in the middle of a flush, with any mixture of old and new rows and a restart from the last committed offset with watermark 0, keeps the replay invariant |
| CrashReplay.ReplayConverges | internal/ingest/worker.go:346-416 | whatever the flush sizes, failed or skipped commits and crashes, a run that reaches the end of a gRPC log leaves the table of a crash-free run |
| CrashReplay.CommittedIsFlushed | internal/ingest/worker.go:395-409 | in every reachable state all batches before the committed offset have been flushed, and the queue is exactly the rest of what was taken |
| LastWriterWins.RealtimeCall | internal/ingest/handler/balance_model_writer.go:123-222 | a realtime call with newer ids keeps "the newest record of every account decides" |
| LastWriterWins.HistoricalCall | internal/ingest/handler/balance_model_writer.go:110-121 | a historical call keeps it if and only if it resurrects no row deleted by a newer zero |
| LastWriterWins.RunIsLastWriter | internal/ingest/worker.go:346-416 | over a whole run from an empty table, each row is the newest record after every flush if and only if no flush resurrects a row |
| LastWriterWins.LastWriterMeans | internal/ingest/handler/balance_model_writer.go:39-46 | the property in terms of the history alone: the row is the record with the greatest id, absent if it is a zero |
| LastWriterWins.RealtimeNeverDecreases | internal/ingest/worker.go:379-385 | even without the proviso the realtime call lowers the stored id of no row that stays |
| LastWriterWins.HistoricalNeverDecreases | internal/ingest/handler/balance_model_writer.go:279-296 | neither does the historical call |
| LastWriterWins.DecreaseExactly | internal/ingest/worker.go:379-393 | over any run a flush lowers a stored id if and only if its realtime records delete the row and its historical ones re-create it with a smaller id |
| LastWriterWins.ResurrectionExists | internal/ingest/handler/balance_model_writer.go:279-296 | a concrete run in which a deleted row comes back with its older balance and a lower id |
| Ingestion.WorkerIsLastWriter | internal/ingest/worker.go:92-173 | the equivalence for the worker loop itself, over any turns and arrivals |
| Ingestion.ReaderSeesNewest | internal/query/balance/query_by_accounts.go:87-97 | what a reader then gets: the newest record with its exact amount and decoded token, or nothing if it was zero |
| Ingestion.ReplayIsLastWriter | internal/ingest/worker.go:346-416 | newest wins across crashes: a run from an empty table that reaches the end of a gRPC log leaves each account's newest record |
| Ingestion.TurnIsSteps | internal/ingest/worker.go:102-126 | between crashes a message turn is a take and perhaps a flush of the crash machine, and a tick is a flush or nothing |
| Ingestion.WorkerRunIsReplayRun | internal/ingest/worker.go:92-173 | for any turns, limits and arrivals the loop's run is a run of the crash machine |
| Ingestion.IncarnationMirrors | internal/ingest/worker.go:60-92 | each restarted worker begins where the machine says |
| Ingestion.RestartAndFlush | internal/ingest/worker.go:411-416 | a worker just constructed on a table with rows: backfill batches lower no stored id, gRPC batches overwrite |
| Ingestion.CrashIsTorn | internal/ingest/handler/balance_model_writer.go:49-76 | a crash at any point of any schedule leaves only rows that the replay result covers |
| Ingestion.FlushUnderAnySchedule | internal/ingest/worker.go:379-393 | a flush whose two calls finish under any schedules leaves the rows the worker model computes |
| ParallelMap.StepConserves | internal/pkg/utils/parallel.go:53-92 | each step keeps every index in exactly one of unsent, held by a worker, in the result channel, collected |
| ParallelMap.ExactlyOnePlace | internal/pkg/utils/parallel.go:53-92 | the same for every state of every run |
| ParallelMap.SendNeverBlocks | internal/pkg/utils/parallel.go:46-66 | a computed result can always be sent at once, on a channel still open |
| ParallelMap.NoSendOnClosed | internal/pkg/utils/parallel.go:62-86 | a closed channel has no sender left |
| ParallelMap.SomeStep | internal/pkg/utils/parallel.go:53-92 | no reachable state before the return is a deadlock |
| ParallelMap.StepIsProgress | internal/pkg/utils/parallel.go:53-92 | every step lowers the measure by one |
| ParallelMap.RunLength | internal/pkg/utils/parallel.go:53-94 | with a worker every complete run of N inputs on W workers has exactly 4N + W + 3 steps; without one, and with inputs, two |
| ParallelMap.ReturnedIsRight | internal/pkg/utils/parallel.go:53-94 | every finished run has fn of the i-th input at position i |
| ParallelMap.ReturnedIsMap | internal/pkg/utils/parallel.go:20-95 | it is the sequential map when fn ignores its context |
| ParallelMap.NoWorkerNoResult | internal/pkg/utils/parallel.go:38-68 | without a worker nothing is ever computed |
| ParallelMap.Run | internal/pkg/utils/parallel.go:20-95 | the whole function under any scheduler, special cases and worker counts included; a run on N inputs has exactly 4N + min(workers, N) + 3 steps, so that many workers |
| LockCache.UnexpiredIsRecent | internal/pkg/db/db_lockcache.go:37-44 | an unexpired stamp is less than its time to live plus one second old, wrap-around of the stored seconds included |
| LockCache.ExpiresExactly | internal/pkg/db/db_lockcache.go:37-44 | the exact moment an entry expires: whole seconds, cut to 32 bits |
| LockCache.EntryStepInv | internal/pkg/db/db_lockcache.go:95-156 | every step of a caller on an entry keeps the invariant of locks, fills and threads |
| LockCache.EveryAnswerIsJustified | internal/pkg/db/db_lockcache.go:65-197 | under every interleaving of Do, DoRead and cleanup, a cached answer was stored by a fill of the same key recently enough, a fresh one was looked up during the call, and "not ready" needs a second between the two checks |
| LockCache.HitRunsTwice | internal/pkg/db/db_lockcache.go:131-145 | an answer of Do comes after two runs of fn if and only if the first, in ready mode, found it; how often fn ran for every other answer |
| LockCache.NotReadyExactly | internal/pkg/db/db_lockcache.go:131-140 | in every reachable state the run in ready mode is refused if and only if the entry has expired since the first check, or was never filled |
| LockCache.RefusalOccurs | internal/pkg/db/db_lockcache.go:131-140 | a run in which a call is refused although its first check passed |
| LockCache.DoubleRunOccurs | internal/pkg/db/db_lockcache.go:131-145 | a run in which a hit runs fn twice |
| LockCache.WritersExclude | internal/pkg/db/db_lockcache.go:78-145 | an entry's writer excludes other writers and readers of that entry |
| LockCache.SomeHolderCanMove | internal/pkg/db/db_lockcache.go:78-145 | a thread waiting for an entry's lock waits for one that can move |
| LockCache.AgreesWithDirectLookup | internal/pkg/db/db_lockcache.go:65-197 | on an unchanging database every answer is what a direct lookup gives |
| LockCacheAnswers.EveryDoIsAnswered | internal/pkg/db/db_lockcache.go:95-145 | over any interleaving, a call of Do whose queries do not fail ends with exactly one answer, of its key unless it is refused; one that stores a row ends with that row |
| LockCacheAnswers.MissAnswersLookup | internal/query/chainevent/query_by_pool.go:119-163 | a read-through that finds nothing usable under the write lock asks the database at that moment, and that is its one answer |
| LockCacheAnswers.FirstCheckDecides | internal/pkg/db/db_lockcache.go:131-140 | a read-through runs fn under the read lock if and only if the entry is unexpired at the first check |
| LockCacheAnswers.UsableIsHit | internal/pkg/db/db_lockcache.go:143-145 | a read-through that finds the entry filled and unexpired under the write lock answers with it and asks nothing |
| LockCacheAnswers.FillIsStored | internal/query/chainevent/query_by_pool.go:157-162 | what was queried is stored in the entry with its expiry, and in no other |
| LockCacheAnswers.FilledIsRead | internal/pkg/db/db_lockcache.go:65-84 | a DoRead that finds its entry filled and unexpired ends with exactly one answer, a hit of its key, even if the entry is refilled or deleted meanwhile |
| LockCacheAnswers.AbsentIsNotRead | internal/pkg/db/db_lockcache.go:74-76 | a DoRead that finds no entry or an expired one is over at once, without running fn |
| LockCacheAnswers.CallTakesFewSteps | internal/pkg/db/db_lockcache.go:95-145 | over any interleaving a call makes at most fifteen steps of its own |
| LockCacheAnswers.InUseCounts | internal/pkg/db/db_lockcache.go:78-129 | over any interleaving, creations and deletions included, an entry's counter is the number of callers inside it |
| LockCacheAnswers.DeletedWasExpired | internal/pkg/db/db_lockcache.go:168-197 | over any interleaving a key leaves the table only while the shard is at least half full, and only after a sweep saw its entry unused and expired |
| LockCacheAnswers.ColdReadAnswers | internal/pkg/db/db_lockcache.go:95-145 | a run in which the first read-through of a key asks the database and answers |
| LockCacheAnswers.PeekHits | internal/pkg/db/db_lockcache.go:65-84 | a run in which a DoRead is a hit |
| TransferQuery.TopIsUnique | internal/query/chainevent/query_transfer_event.go:126-132 | the ordered and limited result of a query is determined by its set of matching ids |
| TransferQuery.Merge | internal/query/chainevent/query_transfer_event.go:181-211 | the merge is the greatest ids of both lists without repetition, short of id 2^64-1, and never meets a missing event |
| TransferQuery.TopOfTruncated | internal/query/chainevent/query_transfer_event.go:63-88 | the top of two truncated lists is the top of the two untruncated sets |
| TransferQuery.MergedPage | internal/query/chainevent/query_transfer_event.go:63-88 | the merged page is that top if and only if 2^64-1 is no matching id |
| TransferQuery.Query | internal/query/chainevent/query_transfer_event.go:25-93 | what every request gets: the errors; transfers from, to or either way of the wallet, below the cursor, descending; a matching one is missing only from a full page of greater ids, or if it is 2^64-1 in a merged page; the true top exactly without that id |
| TransferQuery.Limit | internal/query/chainevent/query_transfer_event.go:43-49 | the page size for every requested limit: 20 by default, at most 1000 |
| TransferQuery.PageThrough | internal/query/chainevent/query_transfer_event.go:43-88 | paging by the last id returned ends, and shows every transfer of the wallet exactly once in descending order |
| TransferQuery.PagingWorksExactly | internal/query/chainevent/query_transfer_event.go:43-88 | for every table and wallet, paging ends and shows each transfer exactly once in descending order if and only if none has id 0 or 2^64-1 |
| TransferQuery.IdZeroNeverEnds | internal/query/chainevent/query_transfer_event.go:51-54 | with an id 0, and none of 2^64-1, no finite paging exists, whatever the cursor |
| TransferQuery.MaxIdIsDropped | internal/query/chainevent/query_transfer_event.go:181-211 | no page of any paging holds id 2^64-1 |
| PoolEventsQuery.Build | internal/query/chainevent/query_by_pool.go:40-102 | what the loops build for lists of any length, in the request's fields: the pool and the requested or default types as parameters, the cursor as the last one if and only if there is a nonzero one, limit 10 by default and at most 1000, as many placeholders as parameters, and the key |
| PoolEventsQuery.CursorsDiffer | internal/query/chainevent/query_by_pool.go:82-87 | a request with a nonzero cursor differs from the same request without it, and with any other cursor, in key and parameters |
| PoolEventsQuery.SqlFits | internal/query/chainevent/query_by_pool.go:71-100 | the text holds a placeholder for each parameter, ends with the cursor's condition if and only if there is a cursor, and with the descending order and the limit |
| PoolEventsQuery.SameKeyIsSameStem | internal/query/chainevent/query_by_pool.go:56-102 | for any pools, two keys are equal if and only if limit, cursor and the text of pool and event types are |
| PoolEventsQuery.SharedKeyIsSameQuestion | internal/query/chainevent/query_by_pool.go:56-102 | for any two requests, a shared key means the same parameters, limit and SQL unless one has event types in its pool that the other has in its list, and then it never does |
| PoolEventsQuery.PoolsCollide | internal/query/chainevent/query_by_pool.go:56-102 | some requests for two pools share a key wrongly if and only if one pool is the other followed by the text of some event types |
| PoolEventsQuery.PlainPoolsNeverCollide | internal/query/chainevent/query_by_pool.go:56-102 | pools without a colon never do |
| PoolEventsQuery.ColonCollides | internal/query/chainevent/query_by_pool.go:56-102 | two requests with a colon in the pool share a key but not their parameters |
| PoolFilter.BuildKeyInjective | internal/ingest/handler/pool_cache.go:58-63 | keys are equal exactly for equal pools and account keys |
| PoolFilter.RecentMeansFewSince | internal/ingest/handler/pool_cache.go:33-47 | a key is among the n most recent exactly when fewer than n distinct keys were checked since its last check |
| PoolFilter.LruStep | internal/ingest/handler/pool_cache.go:40-46 | move-to-front and eviction keep the list equal to the recency order of the whole history, cut off |
| PoolFilter.PoolCache.CalcAccountKey | internal/ingest/handler/pool_cache.go:50-56 | the shared buffer holds exactly the two addresses when it is hashed |
| PoolFilter.PoolCache.CheckAndInsert | internal/ingest/handler/pool_cache.go:33-47 | it reports a key as existing if and only if fewer than 50000 other distinct keys were checked since |
| PoolFilter.PoolCache.BuildPoolModels | internal/ingest/handler/pool_model_builder.go:10-72 | the models emitted for any list of events and any history are those of the fold, and so is the new history |
| PoolFilter.EmittedExactly | internal/ingest/handler/pool_model_builder.go:10-72 | the fold emits, in order, a model for exactly the trade and liquidity events whose key is not among the 50000 most recent, with the event's pool, exchange, account key and time, and a creation time only if it creates the pool |
| PoolFilter.SinceExactly | internal/ingest/handler/pool_cache.go:33-47 | the keys checked since a key are exactly those after its last check |
| PoolFilter.EmittedAgainMeansManyBetween | internal/ingest/handler/pool_model_builder.go:10-34 | a key counts as unknown again only after at least 50000 other distinct keys in between |
| PoolWriter.KeyIsTuple | internal/ingest/handler/pool_model_writer.go:197 | the key strings are equal if and only if the four fields are, for pools and token accounts without a bar |
| PoolWriter.BarCollides | internal/ingest/handler/pool_model_writer.go:197 | the condition is needed: with a bar, which base58 text never has, two different tuples share a key |
| PoolWriter.LeastIsLeast | internal/ingest/handler/pool_model_writer.go:204-224 | the merged creation time is the least nonzero one of the records that agree with the first, 0 if there is none |
| PoolWriter.LeastOfAgreeing | internal/ingest/handler/pool_model_writer.go:204-224 | the same in the records' own fields: agreeing means the same exchange, token and quote token |
| PoolWriter.FoldDuplicate | internal/ingest/handler/pool_model_writer.go:204-224 | a duplicate changes at most the creation time of the first record of its key, and only if they agree |
| PoolWriter.DedupAndSplitPools | internal/ingest/handler/pool_model_writer.go:187-239 | one record per key survives: the first, with the least time, stamped, in the list its time calls for; nothing else is touched |
| PoolWriter.AllocateBatchSize | internal/ingest/handler/pool_model_writer.go:145-185 | for all counts and worker limits the workers are shared out in proportion to the counts, to the nearest with halves up, but with one for each nonempty list, and the batch size is the least one of at least the minimum that fits that share; no division by zero |
| PoolWriter.SharesAreProportional | internal/ingest/handler/pool_model_writer.go:151-167 | the shares: nearest to proportional, halves up, with both corrections |
| PoolWriter.SharesTotal | internal/ingest/handler/pool_model_writer.go:151-167 | the shares add up to the workers, or to one more exactly when the first list rounds to no worker; no nonempty list goes without |
| PoolWriter.GoroutinesAreMin | internal/ingest/handler/pool_model_writer.go:39-62 | a list gets a goroutine for every minimum batch it fills or begins, but no more than its share |
| PoolWriter.OneTooMany | internal/ingest/handler/pool_model_writer.go:145-185 | for all counts and limits at most one goroutine more than the limit runs, and exactly when the first list rounds to no worker and the other needs all of them |
| PoolWriter.DispatchPools | internal/ingest/handler/pool_model_writer.go:39-65 | for any limits every pool is in exactly one statement of at most 1000 rows, and the exact number of goroutines of each list and of both |
| PoolWriter.InsertPools | internal/ingest/handler/pool_model_writer.go:28-69 | the survivors of the whole input, each in exactly one statement of the right kind; at most five goroutines, and five if and only if 0 < 8w < w + o and o > 300 for w survivors with and o without a creation time |
| PoolWriter.FifthGoroutine | internal/ingest/handler/pool_model_writer.go:151-183 | an input that runs five goroutines |
| Chunking.Split | internal/ingest/handler/chain_event_writer.go:75-80 | the chunk loop: every item in exactly one nonempty chunk, in order, the exact number of chunks and the items of each |
| Chunking.Dispatch | internal/ingest/handler/chain_event_writer.go:42-80 | the nested chunking: the same for the goroutines' shares and for the statements inside them |
| EventWriter.InsertEvents | internal/ingest/handler/chain_event_writer.go:24-62 | every event in exactly one statement of at most 1000; a goroutine for every hundred events but no more than six, and which events each gets |
| AccountsQuery.TokenRoundTrip | internal/pkg/utils/token_mapper.go:22-67 | decoding undoes encoding for every mint but the native one, which comes back as SOL |
| AccountsQuery.QueryService.DoRead | internal/query/balance/query_by_accounts.go:50-56 | an unexpired answer is used and is what the table says; otherwise there is none |
| AccountsQuery.QueryService.QueryBalancesByAccounts | internal/query/balance/query_by_accounts.go:15-113 | one result per position in request order, equal to a direct lookup, for requests with repetitions and any row order, while other callers change the cache; every position is asked of the cache, and the rows of exactly the others are cached once; more than 2000 accounts are refused, and a database fault is reported if and only if it is reached |
| AccountsQuery.QueryService.ReadRows | internal/query/balance/query_by_accounts.go:86-110 | every missing account that has a row is found and cached exactly once, and what was cached before a failure still agrees |
| AccountsQuery.MakeResult | internal/query/balance/query_by_accounts.go:115-124 | one result per position, with nothing for an account not found |
| TopHolders.KeyInjective | internal/query/balance/query_top_holders.go:54-62 | only equal tokens with equal limits share a cache key, though the key carries the fetch limit |
| TopHolders.LimitOf | internal/query/balance/query_top_holders.go:46-52 | the limit for every requested one: 100 by default, at most 1000 |
| TopHolders.FetchesTenthMore | internal/query/balance/query_top_holders.go:54 | a tenth more accounts are fetched, rounded down |
| TopHolders.AddUp | internal/query/balance/query_top_holders.go:88-108 | totals by owner modulo 2^64, for exactly the owners that occur |
| TopHolders.Sorted | internal/query/balance/query_top_holders.go:114-122 | every owner once, in descending order, ties in any order |
| TopHolders.Fill | internal/query/balance/query_top_holders.go:46-131 | distinct owners in descending order, at most the limit with its default and cap, none credited with more than it has; the true ranking of the fetched accounts if totals fit in 64 bits |
| TopHolders.RightForSize | internal/query/balance/query_top_holders.go:54-127 | on tables of n accounts every answer is the true ranking if and only if n is at most the fetch limit |
| EventId.PackUnpack | cli/query_event_by_id.go:28-31 | packing what was unpacked gives every uint64 back |
| EventId.UnpackPack | cli/build_event_id.go:36 | unpacking what was packed gives the fields back if and only if they are in range |
| EventId.PackIsSum | cli/build_event_id.go:36 | for all fields in range the shifts and ors put slot, transaction, instruction and inner index at bits 32, 16, 8 and 0 |
| EventId.OrderIsLexicographic | cli/build_event_id.go:36 | ids are ordered as their fields are lexicographically |
| EventId.CastKeepsOrder | internal/ingest/handler/balance_model_builder.go:28 | the signed cast keeps the order of two ids if and only if their slots are on the same side of 2^31 |
| EventId.CastCarriesSlot | internal/ingest/handler/balance_model_builder.go:28 | the stored id carries its slot in the top bits if and only if the slot is below 2^31 |
| Formatting.AmountRoundTrip | internal/pkg/utils/strconv.go:6-13 | a printed amount parses back to itself if and only if it is a uint64 |

## Left out

- The Kafka client, the SQL driver, gRPC, Redis, Nacos, logging, monitoring, configuration and generated protobuf code: plumbing. Error codes and messages are reduced to the kinds of error.
- Writer failure and shutdown: a writer error is logged and the offset committed anyway, so the balance results are for runs without writer errors apart from crashes. A closed channel and a done context in the worker loop are not modelled.
- Several workers on one balance table: the router sends an account to one partition, and one worker is modelled with the table to itself. The event writers hold no state of the worker model; they are modelled on their own.
- The payload columns of event and pool rows, and the text of the SQL column lists.
- `LockCache` is modelled as one shard and on values: a transition system, not a class with locks, since other goroutines act between any two steps. Hashing a key to a shard and panics inside the callback are left out. No capacity bound is claimed: the code has none.
- `AccountsQuery.QueryService.DoRead`: acts in one step, as does `Store`; the steps inside them are those of `LockCache`.
- `ParallelMap` and the goroutines of `InsertBalances` are likewise transition systems on values; the memory model is taken to be sequentially consistent.
- `Retry.RetryWithBackoff`: what an attempt returns and when the context is done are parameters; shouldRetry, which nothing in the retry loop calls, is left out.
- Floating point: the proportional share of workers is exact with halves rounded up, and the fetch limit is 11 * limit / 10, which the source's product with 1.1 yields for every limit from 1 to 1000.
- Base58, xxhash and the event-id hash: addresses are 32-byte values or plain strings, hashes are parameters. Addresses of another length, at which the encoder panics, are not modelled.
- `TopHolders.Fill`: models a cache miss; trimming the token text, the empty-token error and the database errors of the query are left out, and balances in the table are uint64 values, as the ingest path stores them.
- `TransferQuery.PageThrough`: on a table that does not change during the paging, and for the ids for which `TransferQuery.PagingWorksExactly` says that paging works.
- `AccountsQuery.QueryService.QueryBalancesByAccounts`: on a balance table that does not change during the call.
- `PoolFilter.PoolCache.CheckAndInsert`: the library's LRU list is modelled by its documented behaviour, a list with the most recent key first.
- `CrashReplay.ReplayConverges`: an offset is taken to be committed before the log's first message. The consumer starts a group without a committed offset at the log's end (`internal/pkg/mq/kafka_consumer.go:57`), so messages from before its first commit can be lost to a crash.
- `TransferQuery.Query`: the source trims the wallet before it rejects an empty one, so a blank wallet is an error there; trimming is not modelled.
- `EventWriter.InsertEvents` and `PoolWriter.InsertPools`: say which statements are sent if none fails for good; a failing one ends its goroutine's remaining statements and is the call's error.
- Negative MaxBlockHold or MaxBatchFlush in the worker's configuration.
- QueryPoolsByAddresses, QueryBalancesByOwner, the holder count, event lookup by id or user, the token writer, the per-event field copying of the builders, and the cmd/rpc migration, which gives no completeness guarantee to state.
