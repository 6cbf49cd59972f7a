# Deneva's concurrency control, modelled and proved in Dafny

Deneva is a distributed OLTP testbed. What makes it hard to get right is the set of per-row managers that decide, request by request, whether a transaction reads, waits, aborts or writes. Each manager takes the row latch for a whole call, so a call is one atomic step, and the interesting claims are about every sequence of calls that the rest of the system may make. This project models those managers and four stand-alone pieces of the system, and proves such claims for all runs.

Each manager comes in two layers. A `...Spec` module gives every entry point as a function on a value that holds the row's fields. The theorems are about runs of those functions. A class with the source's fields (`RowMvcc.RowManager`, `RowTs.RowManager`, `RowLock.LockManager`, `TimeTables.TimeTable`, `MaatManager.RowManager`, `OccSpec.ActiveSet`, `IndexBtree.IndexBtree`, `Statistics.StatsArr`) has the source's loops and in-place updates, and the contract of each method ties the new fields to that function. Singly and doubly linked lists are sequences, head first.

| files | source | main results |
|---|---|---|
| `MvccSpec`, `MvccStability`, `MvccReplies`, `MvccRecycling`, `MvccProgress`, `RowMvcc` | `Row_mvcc` | reads stay right for ever; every reply is prescribed by the ones before; recycling cannot be noticed; no cycle of waits |
| `TsSpec`, `TsOrder`, `TsReplies`, `RowTs` | `Row_ts` | serial order; every reply is prescribed by the ones before; the write buffer is never used |
| `LockSpec`, `LockLog`, `WaitDie`, `Calvin`, `CalvinDispatch`, `RowLock` | `Row_lock`, `CalvinLockThread`, `acquire_locks` | owners are those who were told so; deadlock freedom, determinism, dispatch exactly once and always |
| `MaatSpec`, `MaatValidation`, `MaatChoice`, `MaatOrder`, `MaatStore`, `MaatInversion`, `TimeTables`, `MaatManager` | `Maat`, `TimeTable`, `Row_maat` | when validation succeeds and what it guarantees; how commit timestamps are ordered; rows hold what was committed |
| `LockFreeQueue`, `LockFreeDelivery`, `LockFreeValues`, `LockFreeSolo` | `LockfreeQueue` | first in, first out, values included, under every interleaving |
| `OccSpec`, `OccParallel` | `OptCC` | validated writers are separate, and who passes, under every interleaving |
| `BTreeSpec`, `BTreeInsert`, `BTreeFill`, `BTreeAsWritten`, `IndexBtree` | `index_btree` | insertion refines an ordered multimap in a tree that stays half full; exactly which insertions never return |
| `Sorting`, `StatsArr` | `StatsArr` | sorted permutation, percentiles have the right rank |

`Types`, `History` and `Queues` hold what several of these share.

Most theorems about runs say what must not happen. To say also what must, several managers come with a record of what they were asked and what they replied, and with theorems that determine the next reply from that record alone (`LockLog`, `MvccReplies`, `TsReplies`); MaaT's rows are compared with a plain store (`MaatStore`), the queue with the arguments of its callers (`LockFreeValues`, `LockFreeSolo`).

## What a run may do

The runs quantified over are those the callers can produce; each restriction is a predicate (`Admissible`, `Enabled`, `Allowed`).

- Timestamps are positive, smaller than the largest 64-bit value, and belong to one transaction; `Row_lock` asserts the last point itself (concurrency_control/row_lock.cpp:107).
- Under multi-version and basic timestamp ordering, a transaction prewrites a row once, then may read it, then writes or cancels, and does neither while its own read is buffered (storage/row.cpp:252-264).
- The threshold of `get_min_ts` is not above any pending or later request of the row (system/manager.cpp:71-80).
- `TS_TWR` is off (config.h:123), so the Thomas write rule is not part of the model.
- For MaaT, validation, the choice of the commit timestamp and the row commits of one transaction are one step, as with the one worker thread of config.h:9, and a transaction touches a row once. An id may be used again after its transaction has ended.
- Calvin has one lock thread, which asks for the rows of one transaction after the other; a transaction mentions a row once (system/txn.cpp:778-788 removes duplicates).
- In the lock-free queue, each CAS, load and store is one step, any number of threads take part, and a node is not used again.

## Where the code and its comments differ

The model follows the code.

- concurrency_control/row_lock.h:51 says that the head of the waiter list is the oldest transaction. The insertion loop and the debug assertion (concurrency_control/row_lock.cpp:134, 310) keep timestamps descending, so the head is the youngest.
- The comment at concurrency_control/row_lock.cpp:94-97 lets younger transactions wait. The loop below it lets a transaction wait only if it is older than every owner.
- In `Row_ts::update_buffer` the request called "young" is the one with the smallest timestamp (concurrency_control/row_ts.cpp:310-313).

## Properties that fail, and exactly when

- MaaT's validation adds two to a 64-bit lower bound without a check. `MaatValidation.ValidationWrapsAtTheTop` is an input for which it accepts an empty interval. `MaatValidation.ValidateKeepsIntervalIff` says when: over all tables and everything a transaction may have gathered, the intervals that `validate` accepts at a given lower bound are non-empty if and only if that bound is not one below the largest 64-bit value. `ValidateMeans` promises its separation for every other bound. Each attempt to commit moves timestamps by at most two, so `ReadWriteOrder` holds of every run whose attempts cannot take them to the top of the range.
- MaaT applies writes in the order of the commit calls, not of the commit timestamps. `MaatInversion.LastWriteIsNotLatest` is a run after which a row holds a write of timestamp 1 although another write of it has timestamp 3. `MaatOrder.WriteWriteOrderIff` says for any two writes of a row, in every run, when the one applied later has the greater timestamp: if and only if it was announced after the earlier one was committed, or the earlier one's transaction had found it announced before.
- The loop that makes room in a B+-tree parent (storage/index_btree.cpp:511) counts down with an unsigned variable and does not end when the insertion index is zero. `BTreeAsWritten` has insertion with that loop as it is. `BTreeAsWritten.FifthDescendingKeyHangs` is an input: in an empty tree of order 3, inserting 30, 20, 10 and 5 returns and inserting 1 does not. `BTreeAsWritten.InsertReturnsIff` says exactly which insertions into which trees do not return, by something that can be looked up before the call: the leaf of the key is full and lacks it, and the climb from that leaf through full parents stops at a node that is the first child of its parent. `IndexBtree.IndexInsert` makes room as the loop is meant to, reports whether the source's code returns, and then ends in the state the source's code leaves.

## Model

| member | source | states |
|---|---|---|
| `MvccStability.ReadsAreStable` | concurrency_control/row_mvcc.cpp:198-349 | after any run, every answer ever given names the greatest write below its reader among all writes of the run, later ones included, with its contents, or the initial row if there is none |
| `MvccStability.VersionsAreRetained` | concurrency_control/row_mvcc.cpp:265-319 | recycling neither frees the version nor overwrites the base row that was handed to a reader not below the thresholds used |
| `MvccStability.RereadIsRepeatable` | concurrency_control/row_mvcc.cpp:265-273 | looking up again at any later time gives the same answer, or the reader's own write |
| `MvccStability.LookupSeesLatest` | concurrency_control/row_mvcc.cpp:265-271 | the first version at or below the reader is the latest write of the whole log, although part of the log is recycled |
| `MvccStability.NoConflictSeals` | concurrency_control/row_mvcc.cpp:206-240 | a read that `conflict` lets through has no pending prewrite between its version and itself |
| `MvccStability.PrewriteStaysOutside` | concurrency_control/row_mvcc.cpp:218-240 | a prewrite that `conflict` lets through lies between no answer and its reader |
| `MvccStability.RunKeepsInv` | concurrency_control/row_mvcc.cpp:242-334 | order of the histories, log minus a recycled tail, live pending requests, sealed answers and a pending older prewrite for every buffered read, in every reachable state |
| `MvccReplies.RepliesAreExact` | concurrency_control/row_mvcc.cpp:251-299 | after any run, from the past requests and replies alone: a read is answered at once if and only if no accepted and unfinished prewrite is below it without a write of the run between, waits otherwise while the queue has room, and gets the latest write; a prewrite is accepted if and only if it would come between no answered read and its version and the queue has room; a write or a cancel answers exactly the waiting reads with no unfinished prewrite below them |
| `MvccReplies.QueuesAreThoseTold` | concurrency_control/row_mvcc.cpp:274-299 | in every reachable state the prewrite queue holds exactly the transactions whose prewrite was accepted and that have neither written nor cancelled since, the read queue those told to wait and not answered since |
| `MvccRecycling.SameDecision` | concurrency_control/row_mvcc.cpp:251-299 | one request gets the same return code and answers on a row and on its recycled form, and they stay related |
| `MvccRecycling.RecyclingIsInvisible` | concurrency_control/row_mvcc.cpp:42-73 | for every run, a row that recycles and one that never does reply alike to every request |
| `MvccRecycling.OldHistoryIsGone` | concurrency_control/row_mvcc.cpp:303-322 | after a request of any run that found a history too long, at most one version and one past read are below the threshold; the base row is always the newest recycled write, or the initial row |
| `MvccProgress.WakesExactlyTheUnblocked` | concurrency_control/row_mvcc.cpp:336-363 | a buffered read is answered by the call exactly if no older prewrite is left, and stays buffered exactly if one is |
| `MvccProgress.NoWaitCycle` | concurrency_control/row_mvcc.cpp:206-217 | readers waiting for writers over any number of rows form no cycle, because a read is only ever held up by older prewrites; the result about runs is the next row |
| `MvccProgress.SomeWriterCanRun` | concurrency_control/row_mvcc.cpp:285-299 | in every reachable state of many rows, if a read waits then some writer that holds a read up waits nowhere |
| `History.LatestIsGreatest` | concurrency_control/row_mvcc.cpp:266-268 | the scan of a descending history stops at the greatest entry at or below the timestamp |
| `History.InsertKeepsStrict` | concurrency_control/row_mvcc.cpp:173-196 | inserting a new timestamp keeps a history strictly descending |
| `History.Keep` | concurrency_control/row_mvcc.cpp:50-69 | where recycling cuts a history, exactly one kept entry lies below the threshold |
| `RowMvcc.InsertHistory` | concurrency_control/row_mvcc.cpp:173-196 | the list walk inserts at the specified place |
| `RowMvcc.ClearHistory` | concurrency_control/row_mvcc.cpp:42-73 | the walk from the tail keeps the specified prefix and returns the newest removed row |
| `RowMvcc.FindVersion` | concurrency_control/row_mvcc.cpp:266-271 | the version scan is `Latest`, the base row if there is none |
| `RowMvcc.RowManager.ReadConflicts` | concurrency_control/row_mvcc.cpp:206-240 | comparing only the youngest older prewrite decides whether any pending prewrite conflicts with the read |
| `RowMvcc.RowManager.PrewriteConflicts` | concurrency_control/row_mvcc.cpp:218-240 | comparing only the oldest younger read decides whether any past read conflicts with the prewrite |
| `RowMvcc.RowManager.AnyVersionBetween` | concurrency_control/row_mvcc.cpp:233-239 | the final scan finds a version strictly between if and only if there is one |
| `RowMvcc.RowManager.DebufferPrewrite` | concurrency_control/row_mvcc.cpp:124-141 | the caller's prewrite and no other leaves the queue |
| `RowMvcc.RowManager.DebufferReads` | concurrency_control/row_mvcc.cpp:142-170 | the reads not above the least prewrite come out in the specified order, the others stay |
| `RowMvcc.RowManager.UpdateBuffer` | concurrency_control/row_mvcc.cpp:336-363 | the loop gives the answers and the histories of the specification |
| `RowMvcc.RowManager.AnswerAll` | concurrency_control/row_mvcc.cpp:340-361 | every ready reader is handed its version, in order, and recorded in the read history |
| `RowMvcc.RowManager.RecycleHistory` | concurrency_control/row_mvcc.cpp:303-322 | the guards and both cuts, base row included, are the specified recycling |
| `RowMvcc.RowManager.Access` | concurrency_control/row_mvcc.cpp:242-334 | return code, answers and every field after a call are those of the specification the theorems are about |
| `TsOrder.SerialOrder` | concurrency_control/row_ts.cpp:167-294 | after any run writes have strictly increasing timestamps, the row holds the last, and every read got the greatest write below it of the whole run |
| `TsOrder.MinimaExactAndNoWriteBuffered` | concurrency_control/row_ts.cpp:64-90 | in every reachable state the cached minima are the true ones, buffered reads are above `min_pts` and no write is buffered |
| `TsOrder.WriterIsOldest` | concurrency_control/row_ts.cpp:224-235 | when a transaction writes, its prewrite is the oldest pending one and every buffered read is younger, so neither buffering branch is taken |
| `TsOrder.UpdateBufferIsOnePass` | concurrency_control/row_ts.cpp:268-322 | the cascading loop then makes one effective pass, serves exactly the unblocked reads and restores the minima |
| `TsOrder.WriterNeverRefused` | concurrency_control/row_ts.cpp:209-248 | a write is applied at once and a transaction that prewrote is not refused its read |
| `TsReplies.RepliesAreExact` | concurrency_control/row_ts.cpp:176-253 | after any run, from the log and the past replies alone: a read is refused if and only if a write above it was applied, else waits if and only if an accepted and unfinished prewrite is below it, else gets the latest write; a prewrite is accepted if and only if no answered read and no write is above it; a write or a cancel answers exactly the waiting reads with no unfinished prewrite below them |
| `TsReplies.QueuesAreThoseTold` | concurrency_control/row_ts.cpp:64-90 | in every reachable state the prewrite queue holds exactly the accepted, unfinished prewrites and the read queue the unanswered reads |
| `RowTs.TakeReadyWrites` | concurrency_control/row_ts.cpp:127-144 | the walk splits the write queue at the bound |
| `TsSpec.OldestIsLeast` | concurrency_control/row_ts.cpp:303-315 | the request chosen for replay is one of them and none has a smaller timestamp |
| `RowTs.DropPrewrites` | concurrency_control/row_ts.cpp:303-315 | every replayed write's prewrite is dropped and the one with the smallest timestamp is chosen |
| `RowTs.ReplayAppliesOldest` | concurrency_control/row_ts.cpp:300-320 | one replay takes out exactly the buffered writes that are due, with their prewrites, and applies the one with the smallest timestamp alone |
| `RowTs.RowManager.ReadOut` | concurrency_control/row_ts.cpp:280-292 | each ready read gets the row and `rts` rises to the greatest of them |
| `RowTs.RowManager.ReplayWriteQueue` | concurrency_control/row_ts.cpp:300-320 | the second half of a pass, with every buffered write still backed by its own prewrite |
| `RowTs.RowManager.Pass` | concurrency_control/row_ts.cpp:270-322 | one round of the loop: what it answers and leaves, and whether another follows, which has fewer writes to replay |
| `RowTs.RowManager.UpdateBuffer` | concurrency_control/row_ts.cpp:268-323 | the loop computes the recursive specification, answers in order |
| `RowTs.RowManager.AccessWrite` | concurrency_control/row_ts.cpp:209-248 | both buffering branches, each with the row it buffers, and the direct write |
| `RowTs.RowManager.Access` | concurrency_control/row_ts.cpp:167-266 | return code, answers and every field after a call are those of the specification |
| `Queues.Unlink` | concurrency_control/row_ts.cpp:112-126 | the walk removes the first entry of the transaction and nothing else |
| `Queues.LeastOf` | concurrency_control/row_ts.cpp:148-165 | the walk returns the least timestamp, the maximum for an empty queue |
| `Queues.TakeReady` | concurrency_control/row_ts.cpp:127-144 | the walk returns the entries up to the bound in reverse and leaves the others in order |
| `LockSpec.LockGetIsSafe` | concurrency_control/row_lock.cpp:66-197 | in both modes owners stay compatible and match the lock type, an unowned row is unlocked, and the first waiter conflicts with the owners |
| `LockSpec.LockReleaseIsSafe` | concurrency_control/row_lock.cpp:261-357 | the same is kept by a release and the promotions it causes, so no waiter is stranded |
| `LockLog.HoldersAreCompatible` | concurrency_control/row_lock.cpp:374-381 | any two transactions that hold a row at the same time, by what they were told, share it, and none holds it twice |
| `WaitDie.HoldersAreThoseTold` | concurrency_control/row_lock.cpp:177-192 | after any run the owners of a row are exactly those granted it by a return code or by a release and not released since, the waiters those told to wait and not let in since; whoever waits has to |
| `WaitDie.AnswersFollowLog` | concurrency_control/row_lock.cpp:69-192 | the next request of any run is granted if and only if nobody who holds the row is in its way and no younger transaction waits there; otherwise it waits if and only if it is older than all who hold the row, and dies if not |
| `WaitDie.NoDeadlock` | concurrency_control/row_lock.cpp:69-146 | no run over any number of rows reaches a cycle of waits |
| `WaitDie.RowsStaySafe` | concurrency_control/row_lock.cpp:317-357 | in every reachable state every row is safe and its waiters descend below every owner's timestamp |
| `WaitDie.SomeOwnerCanRun` | concurrency_control/row_lock.cpp:317-357 | whenever a transaction waits, some owner of a contended row waits nowhere |
| `Calvin.ArrivalsAscend` | system/calvin_thread.cpp:48-96 | every row is asked for in strictly increasing scheduling order |
| `Calvin.GrantsFollowSchedule` | concurrency_control/row_lock.cpp:152-170 | for every interleaving of requests and releases, grants followed by waiters are a prefix of the row's order in the schedule |
| `Calvin.HoldersAreThoseTold` | concurrency_control/row_lock.cpp:152-192 | after any run owners and waiters of a row are exactly those that return codes and grants say, and any two owners share |
| `Calvin.AnswersFollowLog` | concurrency_control/row_lock.cpp:69-81 | the next lock of the schedule is granted at once if and only if nobody waits for the row and all can share it |
| `Calvin.NoDependencyCycle` | concurrency_control/row_lock.cpp:78-81 | conflict edges and wait edges over all rows together form no cycle |
| `Calvin.SomeOwnerCanRun` | concurrency_control/row_lock.cpp:317-357 | whenever a row has a waiter, some owner of a contended row holds all its locks |
| `CalvinDispatch.StartedOnceWithAllLocks` | benchmarks/ycsb_txn.cpp:49-88 | for every interleaving of the counter handshake, a transaction is started at most once and then holds every lock |
| `CalvinDispatch.StartedWhenQuiet` | system/calvin_thread.cpp:82-90 | when all parties are done and every lock is held it has been started |
| `CalvinDispatch.EndsStarted` | benchmarks/ycsb_txn.cpp:49-88 | no interleaving takes more than 7n + 4 steps for n locks, and one that cannot go on has started the transaction once |
| `CalvinDispatch.FreeLocksStartAtOnce` | system/calvin_thread.cpp:82-90 | where every lock is free the lock thread alone starts the transaction |
| `CalvinDispatch.NotReadyWhenPopped` | concurrency_control/row_lock.cpp:339-348 | the source's assertion that a promoted waiter is not marked ready holds, and its counter is positive |
| `RowLock.LockManager.MayWait` | concurrency_control/row_lock.cpp:100-118 | the scan of the owners answers whether the transaction is older than all of them |
| `RowLock.LockManager.InsertWaiter` | concurrency_control/row_lock.cpp:133-143 | the walk inserts in descending timestamp order |
| `RowLock.LockManager.Acquire` | concurrency_control/row_lock.cpp:66-197 | result, lists, counters and lock type are those of the specification in both modes |
| `RowLock.LockManager.RemoveOwner` | concurrency_control/row_lock.cpp:261-287 | the transaction's entry and no other is unlinked, and an empty row becomes unlocked |
| `RowLock.LockManager.PromoteWaiters` | concurrency_control/row_lock.cpp:317-357 | the loop lets in exactly the leading waiters that fit one after the other, in order |
| `RowLock.LockManager.Release` | concurrency_control/row_lock.cpp:261-357 | the release and the promotion loop give the specified state and list of granted waiters |
| `MaatValidation.ValidateMeans` | concurrency_control/maat.cpp:40-164 | success leaves a non-empty interval above the captured timestamps and separates it from every captured reader and writer, unless the lower bound chosen is the one that wraps; failure changes nobody else; no interval is widened either way |
| `MaatValidation.ValidateStaysWithin` | concurrency_control/maat.cpp:112-164 | one validation raises the greatest finite bound of the table by at most one |
| `MaatValidation.ValidateKeepsIntervalIff` | concurrency_control/maat.cpp:112-164 | for a lower bound chosen by `validate`: every interval accepted at it is non-empty if and only if it is not one below the maximum |
| `MaatValidation.ValidationWrapsAtTheTop` | concurrency_control/maat.cpp:140-159 | an input at the top of the range that is validated with an empty interval |
| `MaatValidation.PushAfterMeans` | concurrency_control/row_maat.cpp:256-266 | forward validation of a read makes unseen writers that did not start above the commit timestamp start right after it, and changes nothing else |
| `MaatValidation.PullBeforeMeans` | concurrency_control/row_maat.cpp:283-305 | forward validation of a write makes unseen transactions that did not end below the bound end right before it, and changes nothing else |
| `MaatChoice.ValidateSucceedsIff` | concurrency_control/maat.cpp:40-116 | validation succeeds if and only if the transaction's interval holds two timestamps, one below the other, that clear the captured timestamps and every captured transaction that is settled |
| `MaatChoice.OthersMoveNoFurther` | concurrency_control/maat.cpp:127-157 | a successful validation ends a running captured reader just below its interval and starts a running captured writer just above it, only where they were in the way, and leaves every other entry alone |
| `MaatChoice.LowerEndIsChosen` | concurrency_control/maat.cpp:121-126 | running captured readers are left alone where they fit below the interval, and the lower end is raised no further |
| `MaatChoice.UpperEndIsChosen` | concurrency_control/maat.cpp:137-146 | running captured writers are left alone where they leave room, and the upper end comes down no further |
| `MaatOrder.TouchGathers` | concurrency_control/row_maat.cpp:99-164 | exactly whom and which timestamps a transaction captures when it reads or prewrites a row, and that the row lists it |
| `MaatOrder.ReadWriteOrder` | concurrency_control/row_maat.cpp:248-307 | after any run with fewer than about 2^63 attempts to commit, a committed read has the smaller timestamp of a read and a write of a row if and only if it read before the write was applied, and they never share one |
| `MaatOrder.WriteWriteOrderIff` | concurrency_control/row_maat.cpp:277-305 | after any such run, of two writes of a row the one applied later has the greater timestamp if and only if it was announced after the earlier was committed or the earlier had found it announced before; they never share one |
| `MaatOrder.RowTimestampsAreGreatest` | concurrency_control/row_maat.cpp:250-280 | the two timestamps of a row are the greatest of its committed reads and writes |
| `MaatInversion.LastWriteIsNotLatest` | concurrency_control/row_maat.cpp:277-292 | a run after which a row holds a write whose timestamp is not the greatest |
| `MaatStore.RowsHoldCommittedBuffers` | concurrency_control/row_maat.cpp:276-282 | after any run every row holds the buffer of the last transaction that was told it committed and had touched the row to write it, or its initial contents |
| `TimeTables.TimeTable.Find` | concurrency_control/maat.cpp:206-215 | the bucket walk finds the entry of the key if and only if there is one |
| `TimeTables.TimeTable.Init` | concurrency_control/maat.cpp:217-230 | a key that is absent gets the full interval and state RUNNING, a present one is left alone, and all other keys keep their entries |
| `TimeTables.TimeTable.Release` | concurrency_control/maat.cpp:232-244 | the key's entry and no other is removed |
| `TimeTables.TimeTable.GetLower` | concurrency_control/maat.cpp:246-258 | the lower bound of the key, zero when absent |
| `TimeTables.TimeTable.GetUpper` | concurrency_control/maat.cpp:260-273 | the upper bound of the key, the maximum when absent |
| `TimeTables.TimeTable.GetState` | concurrency_control/maat.cpp:299-311 | the state of the key, ABORTED when absent |
| `TimeTables.TimeTable.PutLower` | concurrency_control/maat.cpp:275-285 | only the key's lower bound changes, nothing when absent |
| `TimeTables.TimeTable.PutUpper` | concurrency_control/maat.cpp:287-297 | only the key's upper bound changes, nothing when absent |
| `TimeTables.TimeTable.PutState` | concurrency_control/maat.cpp:313-323 | only the key's state changes, nothing when absent |
| `MaatManager.Validate` | concurrency_control/maat.cpp:29-174 | the seven loops give the return code and the table of the specification |
| `MaatManager.FindBound` | concurrency_control/maat.cpp:176-190 | return code, table and commit timestamp of the specification |
| `MaatManager.RowManager.Read` | concurrency_control/row_maat.cpp:99-125 | the sets and timestamps gathered and the row's soft lock are those of the specification |
| `MaatManager.RowManager.Prewrite` | concurrency_control/row_maat.cpp:127-164 | the same for a prewrite |
| `MaatManager.RowManager.Abort` | concurrency_control/row_maat.cpp:167-187 | only the soft lock of the access type is dropped |
| `MaatManager.RowManager.Commit` | concurrency_control/row_maat.cpp:248-307 | row and table after both forward-validation loops are those of the specification |
| `LockFreeQueue.RemovedIsPrefixOfEnqueued` | system/lock_free_queue.cpp:20-68 | for any threads and interleaving, the nodes removed are a prefix of the nodes enqueued, each once |
| `LockFreeQueue.AdvanceRemovesOldest` | system/lock_free_queue.cpp:42-68 | a successful move of `_tail` removes the oldest node and leaves `_tail` at the next one |
| `LockFreeQueue.ClearRemovesSole` | system/lock_free_queue.cpp:42-68 | a successful clearing of `_head` removes the only node |
| `LockFreeQueue.PointersAreSound` | system/lock_free_queue.cpp:20-68 | in every reachable state no thread is about to follow a pointer to an unallocated node |
| `LockFreeDelivery.DeliveredAtMostOnce` | system/lock_free_queue.cpp:42-68 | no node is handed out twice and only removed ones are |
| `LockFreeDelivery.ReachableWhenQuiet` | system/lock_free_queue.cpp:20-39 | once no enqueuer is between its swap and its store, `_tail` is at the oldest node and the links lead through the rest in order |
| `LockFreeValues.ValuesRemovedArePrefix` | system/lock_free_queue.cpp:20-68 | for every interleaving, the values removed are a prefix of the arguments enqueued, in the order of the swaps, and each value a caller is handed is the argument enqueued at the place of the node removed |
| `LockFreeSolo.SoloDequeueTakesOldest` | system/lock_free_queue.cpp:42-68 | from any reachable state with nobody between a swap and its store, a dequeue left alone hands out the oldest value still queued, or changes nothing if and only if there is none |
| `LockFreeSolo.SoloEnqueueAppends` | system/lock_free_queue.cpp:20-39 | from any reachable state, an enqueue left alone appends a node with its argument |
| `OccParallel.PassedAreSeparate` | concurrency_control/occ.cpp:139-201 | for every interleaving, a transaction on the list that passed writes and reads nothing that any transaction below it writes, and the counter is the list's length |
| `OccParallel.PassedWriterIsListed` | concurrency_control/occ.cpp:256-295 | a writer that passed is still on the list, so `central_finish` never takes the branch that asserts an abort |
| `OccParallel.VerdictIff` | concurrency_control/occ.cpp:139-208 | for every interleaving, a transaction the history scan does not reject passes if and only if both its sets are apart from every write set on the list when it entered, and has its verdict after one test for each |
| `OccSpec.TestValid` | concurrency_control/occ.cpp:321-329 | the double loop answers whether the two sets share no row |
| `OccSpec.RowsOfPartition` | concurrency_control/occ.cpp:308-317 | reads and writes partition the accesses, each in the set of its kind |
| `OccSpec.GetRwSet` | concurrency_control/occ.cpp:298-319 | the loop returns that partition in access order |
| `OccSpec.ActiveSet.Enter` | concurrency_control/occ.cpp:139-160 | the copy is the list before, and a writer is pushed on top |
| `OccSpec.ActiveSet.Leave` | concurrency_control/occ.cpp:222-236 | the transaction's entry is unlinked if it is there, with the counter, and the result says whether it was |
| `OccSpec.ActiveSet.Finish` | concurrency_control/occ.cpp:250-296 | a writer leaves the list; if it committed, the counter goes up and its write set enters the history under the new number, and the history carries the numbers from there down |
| `OccSpec.CheckActive` | concurrency_control/occ.cpp:187-201 | true exactly if every copied entry is apart from both sets |
| `BTreeSpec.OneHolder` | storage/index_btree.cpp:346-380 | at each height one node is responsible for a key |
| `BTreeSpec.StoredInHolder` | storage/index_btree.cpp:112-119 | a key is stored anywhere if and only if it is in the leaf the search ends in |
| `BTreeSpec.LeavesAreEquallyDeep` | storage/index_btree.cpp:529-552 | all leaves are equally many parent links from the root |
| `BTreeSpec.NextInNeighbour` | storage/index_btree.cpp:71-75 | the first key of the next leaf is the least stored key above this leaf |
| `BTreeSpec.NoneAfterLast` | storage/index_btree.cpp:76-77 | without a next leaf no stored key is larger |
| `BTreeInsert.LeafCut` | storage/index_btree.cpp:453-487 | cutting a leaf keeps order, ranges, parent links and the leaf chain, with one split under way |
| `BTreeInsert.SlotOfLeft` | storage/index_btree.cpp:506-508 | the index found for the separator is the position of the node that was split |
| `BTreeInsert.ChildAdded` | storage/index_btree.cpp:509-519 | entering the right half behind the left one completes the tree again |
| `BTreeInsert.InnerCut` | storage/index_btree.cpp:597-638 | cutting an inner node around its middle key and reparenting the moved children leaves a tree with one split under way, a level up |
| `BTreeInsert.RootRaised` | storage/index_btree.cpp:529-552 | a new root over the two halves completes the tree, one level higher |
| `BTreeFill.LeafSplitFills` | storage/index_btree.cpp:453-487 | cutting an overfull leaf in the middle leaves both halves, and every other node but the root, at least half full |
| `BTreeFill.InnerSplitFills` | storage/index_btree.cpp:597-638 | the same for an inner node |
| `BTreeFill.RaisedFills` | storage/index_btree.cpp:529-552 | the same when the root has been split and a new one is put above the halves |
| `BTreeInsert.ShiftLoopEndsIff` | storage/index_btree.cpp:511-514 | the loop on a 32-bit counter ends if and only if the insertion index is positive |
| `BTreeInsert.SeparatorIsFirstIff` | storage/index_btree.cpp:506-511 | while a split is under way, the insertion index is zero exactly if the split node is the first child |
| `BTreeAsWritten.EnterReturnsIff` | storage/index_btree.cpp:494-646 | `insert_into_parent` with its loop as written does not return if and only if the climb from the split node through full parents stops at a first child |
| `BTreeAsWritten.InsertReturnsIff` | storage/index_btree.cpp:127-175 | in every tree, `index_insert` as written does not return if and only if the key's leaf is full and lacks it and that climb, looked up before the call, stops at a first child |
| `BTreeAsWritten.FifthDescendingKeyHangs` | storage/index_btree.cpp:506-518 | from the empty tree of order 3, inserting 30, 20, 10 and 5 returns and inserting 1 does not |
| `BTreeSpec.Cut` | storage/index_btree.cpp:655-660 | half, rounded up |
| `IndexBtree.LeafHasKey` | storage/index_btree.cpp:648-653 | an index of the key, or -1 exactly if it is absent |
| `IndexBtree.ShiftIn` | storage/index_btree.cpp:409-414 | the downward shift inserts the entry and moves the rest up |
| `IndexBtree.ShiftPair` | storage/index_btree.cpp:511-517 | on the source's counter, keys and children are shifted and the new ones written, for every index but the first |
| `IndexBtree.SpreadIn` | storage/index_btree.cpp:580-595 | the copy with a gap into the scratch arrays inserts the entry |
| `IndexBtree.IndexBtree.constructor` | storage/index_btree.cpp:21-36 | an empty leaf as root: an empty, valid tree |
| `IndexBtree.IndexBtree.FindLeaf` | storage/index_btree.cpp:325-395 | the descent ends in the leaf responsible for the key |
| `IndexBtree.IndexBtree.IndexRead` | storage/index_btree.cpp:101-125 | finds the items of a key if and only if it was inserted, and sets the cursor |
| `IndexBtree.IndexBtree.IndexNext` | storage/index_btree.cpp:65-86 | moves to the next larger stored key and returns its items, or ends exactly if there is none; asking for the same key returns nothing |
| `IndexBtree.IndexBtree.ScanFrom` | storage/index_btree.cpp:65-86 | reading a key and advancing to the end gives exactly the stored keys from it on, ascending, each once, with their items |
| `IndexBtree.IndexBtree.IndexInsert` | storage/index_btree.cpp:127-175 | the contents gain the item in front of the key's other items and change nowhere else; the tree stays ordered, balanced, linked and within its order; reports exactly whether the source's code returns, and then the tree is the one that code leaves |
| `IndexBtree.IndexBtree.InsertIntoLeaf` | storage/index_btree.cpp:397-418 | the same for a key that fits or exists |
| `IndexBtree.IndexBtree.SplitLeafInsert` | storage/index_btree.cpp:420-492 | the same for a full leaf |
| `IndexBtree.IndexBtree.InsertIntoParent` | storage/index_btree.cpp:494-527 | from a tree with a split under way to a complete tree with the same contents, at whatever height the splits stop, and to the outcome of the source's code whenever that returns |
| `IndexBtree.IndexBtree.ShiftIntoParent` | storage/index_btree.cpp:506-519 | a parent with room takes the right half behind the left one, and it is reported whether the source's loop ends |
| `IndexBtree.IndexBtree.InsertIntoNewRoot` | storage/index_btree.cpp:529-552 | the same when the split node was the root |
| `IndexBtree.IndexBtree.SplitInnerInsert` | storage/index_btree.cpp:554-646 | the same when the parent is full |
| `IndexBtree.IndexBtree.Adopt` | storage/index_btree.cpp:635-638 | the moved children and only they point to the new parent |
| `Statistics.Scan` | statistics/stats_array.cpp:34-37 | both scans stay inside the range and stop at elements on the wrong side |
| `Statistics.Partition` | statistics/stats_array.cpp:33-45 | a permutation of the range, split at the pivot but for at most one element that both sides will sort |
| `Statistics.Quicksort` | statistics/stats_array.cpp:27-52 | terminates with the range sorted, a permutation of what it was, and the rest untouched |
| `Sorting.BothSorted` | statistics/stats_array.cpp:47-50 | sorting the left and then the right range sorts the whole even when they share an element |
| `Statistics.PercentileHasRank` | statistics/stats_array.cpp:132-134 | the entry read is a sample if and only if p is below 100, and then has at most p*cnt/100 samples below it and more than that at or below it |
| `Statistics.StatsArr.constructor` | statistics/stats_array.cpp:54-64 | size + 1 zeros and no sample |
| `Statistics.StatsArr.Clear` | statistics/stats_array.cpp:66-68 | no sample is left; bins are not reset |
| `Statistics.StatsArr.Resize` | statistics/stats_array.cpp:70-77 | twice the capacity, the old contents first, zeros after |
| `Statistics.StatsArr.Insert` | statistics/stats_array.cpp:79-97 | the samples gain one at the end across any resize; or one bin, the last for large values, grows by one |
| `Statistics.StatsArr.Append` | statistics/stats_array.cpp:99-103 | the other array's entries in use follow one's own samples, or are counted in the bins, whatever the two kinds |
| `Statistics.StatsArr.GetPercentile` | statistics/stats_array.cpp:132-134 | the entry at that index, which is a sample if and only if the percentile is below 100 |
| `Statistics.StatsArr.SortedPercentile` | statistics/stats.cpp:407-433 | sorting and reading gives the sample of that rank among everything inserted |

## Left out

- Serializability across rows and nodes: the claims are per row, or about waits over many rows.
- The TPCC branch of `Row_maat`, `read_and_prewrite` and MaaT over several nodes.
- MaatOrder.ReadWriteOrder: assumes at most (2^64 - 3) / 2 attempts to commit in the run; beyond that the 64-bit bounds may wrap, as `ValidationWrapsAtTheTop` shows.
- OptCC's history scan: it compares counter values with timestamps; in `OccParallel` it may reject a transaction before its first test and promises nothing. `per_row_validate` is left out too.
- NO_WAIT, TWOPL_LITE, Calvin's reconnaissance transactions, and the waiter-removal code behind `assert(false)` in `lock_release`.
- `owners` of `Row_lock` as a hash table of lists: one list stands for it, since only membership and count matter.
- LockFreeQueue.RemovedIsPrefixOfEnqueued: is about nodes, `LockFreeValues.ValuesRemovedArePrefix` about their values; nodes are never reused, so freeing a removed node while another thread still holds its address is not covered.
- LockFreeSolo.SoloDequeueTakesOldest: an "empty" answer given while an enqueue is between its swap and its store is not excluded, and the source gives one.
- Statistics.StatsArr.Insert: counters are unbounded and the mutex is not modelled; concurrent inserts are serial.
- IndexBtree.IndexBtree.InsertIntoParent: where the source's loop does not end it makes room as intended and says so in its result; the read one past the keys of a full parent at storage/index_btree.cpp:507 is not modelled.
- BTreeInsert.ChildAdded: is about the intended shift, which is also the source's wherever its loop ends.
- RowTs.DropPrewrites: when every write to be replayed has the largest 64-bit timestamp the source follows a null pointer; the model replays none.
- IndexBtree.IndexBtree.IndexRead: a missing key, on which the source stops the program, is `None`.
- B+-tree nodes are records in a pool, and key and pointer arrays are sequences; latching, partitions and page-address assertions are left out. The tree order is any number from 3; the repository uses 16.
- How `get_min_ts` computes its threshold, and how timestamps are made.
- Clocks, statistics counters, memory pools, the `restart_txn` work queue beyond the fact that a transaction is restarted.
- The `framework/` layer, transport, messages, logging, parser, workload generators, and the transaction bodies of TPCC and PPS.
