# Verified models of FreeToken's state-keeping components

Dafny models of the parts of FreeToken that keep state across many calls, with proofs about every run of them.
`dafny verify dfyconfig.toml` checks the whole project.

**Hybrid radix prefix cache** (`RadixTree`, `RadixSteps`, `RadixLookup`, `RadixLocks`, `RadixEvict`, `RadixCounters`,
`HybridRadixCache`). The cache is a class over heap nodes with parent and child links, two reference counts and four
counters, updated in place. Its specification is two maps: token prefix to KV indices (one entry per page) and token
prefix to snapshot slot. A value copy of the tree carries the invariant; each method says what happens to the two maps
and to the multiset of locks. Assumptions: only matched nodes are locked, before anything else happens, and locks pair
up; timestamps only order nodes, and an eviction does not change them. Pages are keyed by page-aligned prefixes: at a
finer grain two siblings that share part of a page would compete for the same key.

**Serve supervisor** (`ServeManager`, `ServeSafety`, `ServeRuns`, `ServeCourse`, `ServeLimits`, `AccountingOutbox`). A
state machine whose steps are what one thread does between two operations on a shared lock: client transactions under
the lifecycle lock, one monitor per child, restart threads, and an environment that decides exits, preparations, outbox
writes and signals. Identities are distinct, and waiting for a child returns only after its exit. A daemon may start
with a re-adopted child, watched or not, and with a stop receipt an earlier daemon left for it. The outbox is a class
over its files. What the code does not keep is shown by runs that reach the unwanted state, each beside the exact
condition.

**FTW checkpoints** (`FtwFormat`, `FtwWriter`, `FtwReader`, `FtwTransfer`, `FtwRoundTrip`, `FtwNames`, `FtwBanks`,
`FtwSink`). The writer is a class that rolls shard files; its specification is one byte stream that does not depend on
the shard limit. The reader fills an array by any interleaving of positional reads that may come back short; the
memory-mapped path is the schedule in which each read completes at once. Shard limits are positive multiples of 4096 and
chunks positive multiples of 4096; a limit of 0 passes the writer's assertion but its write loop never ends.

**DSV4 paged pool and the sliding-window pool** (`Dsv4CostModel`, `Dsv4Window`, `Dsv4PagedPool`, `HybridSwaPool`,
`DecodeAddressing`). Byte-exact sizing with its solver, the page-granular window allocator, its slot-granular sibling,
and the index arithmetic of a decode step. The window ratio is an exact fraction, rounded half to even.

**Logs** (`LineAssembler`, `LogRing`, `LogStream`). The line assembler and the ring are classes; the client stream is a
state machine over appends, queue callbacks and generator steps. Pushes arrive in sequence order. Taking a record from
the queue and reading the drop counters are separate steps: on Python before 3.12, which the package supports, the
timeout wrapper awaits the queue in a task of its own, so callbacks can run between the two.

**Memory budget** (`CacheBudget`). The split between expert slots and pages, with its feasibility condition.

Where the code and its comments disagree, the model follows the code:

- `free_swa` of the sliding-window pool is described as idempotent; it is, but -1 in its input overwrites the entry that
  makes lookups at -1 safe, and a repeated held slot is returned twice (`HybridSwaPool.FreeIff`).
- The log stream is described as free of gaps and duplicates; its gap frames can be wrong (`LogStream.TearingRun`).
- A refused crash receipt is meant to suppress restarts; an explicit start in between lifts that
  (`ServeLimits.LatchUndone`).
- A crash receipt is meant to be left out once a stop receipt is durable; durable identities are kept in memory only, so
  a receipt an earlier daemon left does not count (`ServeRuns.CrashAfterStopIff`).
- Allocation in the paged pool checks that rows are ascending, not that they begin at a page (`Dsv4Window.AllocIff`).
- A child whose start failed after the spawn is kept but never watched, and one whose crash receipt meets an error that
  is not the outbox's own loses its monitor; either stays current for good (`ServeLimits.UnwatchedForever`).
- Locking is described as counting every node from the matched one to the root; the root itself is not counted (`RadixLocks.RefsOrdered`).

## Model

| member | source | states |
|---|---|---|
| HybridRadixCache.HybridRadixCache.constructor | python/freetoken/kvcache/hybrid_radix_cache.py:56-73 | a fresh cache is the root alone and an empty map: no pages, no snapshots, no locks, all four counters 0 |
| RadixTree.RadixTreeNode.SplitAt | python/freetoken/kvcache/radix_cache.py:87-106 | the new parent takes the first tokens, values and the reference count; the old node keeps its end, snapshot and snapshot locks |
| HybridRadixCache.HybridRadixCache.Walk | python/freetoken/kvcache/hybrid_radix_cache.py:275-291 | the walk, splits included, leaves the page map and the snapshot map as they were and stops where no stored page continues the input; exactly the nodes on the path get the new timestamp |
| HybridRadixCache.HybridRadixCache.MatchPrefix | python/freetoken/kvcache/hybrid_radix_cache.py:76-88 | returns the longest prefix of the input that has a live snapshot, that snapshot, and exactly the indices the page map stores for it; the two maps do not change, and exactly the path walked is stamped |
| HybridRadixCache.HybridRadixCache.Resume | python/freetoken/kvcache/hybrid_radix_cache.py:80-88 | the same answer read off the node where the walk stopped |
| HybridRadixCache.HybridRadixCache.DeepestLive | python/freetoken/kvcache/hybrid_radix_cache.py:81-87 | the deepest node at or above the walk's end that carries a live snapshot |
| HybridRadixCache.HybridRadixCache.CollectKv | python/freetoken/kvcache/hybrid_radix_cache.py:246-253 | the concatenated edges are the stored indices of every position of the node's prefix |
| HybridRadixCache.HybridRadixCache.PathLen | python/freetoken/kvcache/hybrid_radix_cache.py:239-244 | the edge lengths up to the root add up to the length of the prefix |
| HybridRadixCache.HybridRadixCache.Insert | python/freetoken/kvcache/hybrid_radix_cache.py:90-112 | adds exactly the missing pages (first writer wins), attaches the donated slot exactly when the boundary has none, and returns the length that was already stored; the path walked is stamped with the time of the walk, a grafted leaf with that of its creation |
| HybridRadixCache.HybridRadixCache.IncLock | python/freetoken/kvcache/hybrid_radix_cache.py:115-130 | locking a matched node records one more lock and keeps the maps, the counters and the lock discipline |
| HybridRadixCache.HybridRadixCache.DecLock | python/freetoken/kvcache/hybrid_radix_cache.py:132-145 | unlocking removes that lock and nothing else |
| HybridRadixCache.HybridRadixCache.EvictFull | python/freetoken/kvcache/hybrid_radix_cache.py:148-166 | frees at least what was asked when that much is evictable, else everything evictable, and starts no eviction once enough is free; victims are the least recently used free leaves in turn; every index and slot handed out leaves the maps exactly once |
| HybridRadixCache.HybridRadixCache.EvictMamba | python/freetoken/kvcache/hybrid_radix_cache.py:168-189 | frees exactly min(num, evictable) slots, least recently used first; every index and slot handed out leaves the maps exactly once |
| HybridRadixCache.HybridRadixCache.Cascade | python/freetoken/kvcache/hybrid_radix_cache.py:225-237 | reclaims the snapshot-less leaves an eviction exposes, up to the first ancestor that must stay |
| HybridRadixCache.HybridRadixCache.AllNodes | python/freetoken/kvcache/hybrid_radix_cache.py:255-273 | the explicit-stack walk visits every node of the tree |
| RadixSteps.SplitKeepsMaps | python/freetoken/kvcache/radix_cache.py:87-106 | splitting an edge changes neither the page map nor the snapshot map |
| RadixSteps.AddPages | python/freetoken/kvcache/hybrid_radix_cache.py:99-104 | grafting a leaf adds exactly its own pages |
| RadixSteps.UnlinkMaps | python/freetoken/kvcache/hybrid_radix_cache.py:220-223 | unlinking a leaf removes exactly its own pages |
| RadixSteps.UnlinkBag | python/freetoken/kvcache/hybrid_radix_cache.py:160-166 | the indices of an unlinked edge are exactly those that leave the page map, counted with multiplicity |
| RadixLookup.StoppedPages | python/freetoken/kvcache/hybrid_radix_cache.py:275-291 | where the walk stops is the longest prefix of the input whose pages are stored |
| RadixLookup.LongestSnapshot | python/freetoken/kvcache/hybrid_radix_cache.py:81-88 | no snapshot lies on a longer prefix of the input than the one found by climbing |
| RadixLookup.NoSnapshot | python/freetoken/kvcache/hybrid_radix_cache.py:88 | reaching the root means that no prefix of the input has a snapshot |
| RadixLocks.RefsOrdered | python/freetoken/kvcache/hybrid_radix_cache.py:115-130 | in every reachable tree a node's reference count is at least its snapshot lock count, and at most its parent's, unless the parent is the root: the root's count stays 1, and there the order holds exactly while at most one lock lies at or below the node |
| HybridRadixCache.TwoReaders | python/freetoken/kvcache/hybrid_radix_cache.py:115-130 | two locks on one node just below the root: its count is 2, the root's 1 |
| RadixLocks.LeafHasSnapshot | python/freetoken/kvcache/hybrid_radix_cache.py:225-237 | every leaf but the root is a boundary of the snapshot map |
| RadixLocks.LockedLeafIsLive | python/freetoken/kvcache/hybrid_radix_cache.py:225-231 | also while a cascade has yet to look at one node, a locked leaf carries a live snapshot and its two counts are equal |
| RadixLocks.NothingFree | python/freetoken/kvcache/hybrid_radix_cache.py:148-166 | when no free leaf is left, the evictable token counter is 0 |
| RadixLocks.TakenInv | python/freetoken/kvcache/hybrid_radix_cache.py:115-130 | taking a lock keeps the invariant of the whole tree |
| RadixLocks.ReleasedInv | python/freetoken/kvcache/hybrid_radix_cache.py:132-145 | releasing a lock keeps the invariant of the whole tree |
| RadixEvict.LockedKept | python/freetoken/kvcache/hybrid_radix_cache.py:151-157 | an eviction leaves every locked node, with its snapshot and its pages |
| RadixEvict.PageLeadsToSnapshot | python/freetoken/kvcache/hybrid_radix_cache.py:225-237 | every stored page lies on a prefix of some snapshot, so no page is unreachable for a later match |
| RadixEvict.EvictStep | python/freetoken/kvcache/hybrid_radix_cache.py:160-165 | one eviction with its cascade: the invariant holds again, what was handed out left the maps, and only the victim and the exposed ancestor change among the free leaves |
| RadixEvict.LeafRun | python/freetoken/kvcache/hybrid_radix_cache.py:148-166 | over a whole run of evictions: conservation, and those evicted are no younger than those left |
| RadixEvict.SnapRun | python/freetoken/kvcache/hybrid_radix_cache.py:168-189 | the same for snapshot evictions, one slot a victim |
| RadixCounters.EvictableMeans | python/freetoken/kvcache/hybrid_radix_cache.py:103-145 | the evictable token counter is the number of stored tokens on no locked prefix |
| RadixCounters.EvictableSnapsMean | python/freetoken/kvcache/hybrid_radix_cache.py:109-145 | the evictable snapshot counter is the number of snapshots that are not locked |
| ServeSafety.StepInv | python/freetoken/daemon/serve_manager.py:258-414 | every step of every thread keeps the supervisor's invariant |
| ServeRuns.ReachableInv | python/freetoken/daemon/serve_manager.py:258-414 | so it holds in every state reached by any interleaving |
| ServeRuns.SignalAfterReceipt | python/freetoken/daemon/serve_manager.py:364-396 | a SIGTERM or SIGKILL goes only to a child for which an earlier step of the run has persisted a stop receipt, also if an earlier daemon had left one; that receipt is on disk then unless a client has acknowledged it since |
| ServeRuns.WrittenIff | python/freetoken/daemon/serve_manager.py:514-549 | for every run and receipt: it counts as written exactly when it did before or the run has written it, and then it is on disk unless it has been acknowledged since; nothing else gets on disk |
| ServeRuns.NoReceiptNoSignal | python/freetoken/daemon/serve_manager.py:449-514 | as long as preparing or persisting fails, nobody is signalled |
| ServeRuns.FailedStopKeepsChild | python/freetoken/daemon/serve_manager.py:366-402 | after a failed stop nothing is being stopped, a failed shutdown has reopened admission, and the child is current, and found by the next stop, exactly as long as its monitor has not given the slot up |
| ServeRuns.SlotAccounted | python/freetoken/daemon/serve_manager.py:766-800 | a current child's slot is cleared only by its own monitor, after its exit, and when the run has put a receipt for it on disk, or after an earlier step of the run at which its crash receipt was refused; then restarts are latched off exactly if no explicit start came after everything that latches |
| ServeRuns.LatchLasts | python/freetoken/daemon/serve_manager.py:773-786 | after a refused receipt the stop intent stands at the end of any run exactly unless an explicit start was admitted after the last step that latches it |
| ServeRuns.IntentFollows | python/freetoken/daemon/serve_manager.py:268-298 | for every run: the stop intent stands exactly when it stood before or was latched, and no explicit start came last |
| ServeLimits.LatchUndone | python/freetoken/daemon/serve_manager.py:282-283 | that condition is needed: an explicit start between latch and clearing lets an unaccounted child be replaced by an automatic restart |
| ServeRuns.NoCrashReceiptAfterStop | python/freetoken/daemon/serve_manager.py:526-528 | once a stop's receipt is written, no crash receipt is written for the same child any more, unless the stop receipt was there when the daemon started and the daemon has not made one durable itself |
| ServeRuns.CrashAfterStopIff | python/freetoken/daemon/serve_manager.py:516-549 | for every run from the moment a monitor takes the guard, with a stop receipt of its child written: a crash receipt joins it exactly when the stop receipt was there when the daemon started, the set of durable identities does not hold the child, and the outbox accepts |
| ServeLimits.CrashReceiptAfterInherited | python/freetoken/daemon/serve_manager.py:208 | that condition is needed: the set of durable identities starts empty, so a re-adopted child can end up with a crash receipt beside the stop receipt an earlier daemon left on disk |
| ServeLimits.StopReceiptAfterCrash | python/freetoken/daemon/serve_manager.py:449-464 | the other order is possible: a stop receipt may follow the crash receipt of the same child |
| ServeLimits.BothReceiptsIff | python/freetoken/daemon/serve_manager.py:449-464 | for every run: a stop that takes the guard and persists leaves its child with both receipts exactly when the crash receipt was written before it took the guard; some receipt was written by then exactly when the set of durable identities holds the child or a stop receipt was there when the daemon started |
| ServeRuns.OneChildAtMost | python/freetoken/daemon/serve_manager.py:264-325 | at most one child has not exited |
| ServeRuns.FlagsBelongToTransaction | python/freetoken/daemon/serve_manager.py:285-325 | the stopping and starting flags are up only inside a stop and a start; the wait for a spawn in flight is never entered |
| ServeRuns.StopReturnsClean | python/freetoken/daemon/serve_manager.py:383-402 | for every run: a stop that waited returns only when its child is reaped and none is current; the state file is then non-empty exactly when it still records that child and the run has failed to remove it, which is swallowed |
| ServeLimits.StopReturnsBeforeClear | python/freetoken/daemon/serve_manager.py:360-361 | a stop that found no child can return while the file still records the dead one |
| ServeLimits.NothingToStopIff | python/freetoken/daemon/serve_manager.py:360-361 | for every run: when a stop found no child, the file is non-empty exactly while the recorded child's own monitor has yet to clear it or has failed to; unless it has failed, that monitor's next step can clear it |
| ServeRuns.NoResurrection | python/freetoken/daemon/serve_manager.py:268-298 | after a stop latched its intent nothing is spawned until an explicit start |
| ServeCourse.OnlyClientsRestart | python/freetoken/daemon/serve_manager.py:268-298 | over every run after a requested stop: nothing is spawned unless a client calls start or switch, however many restarts are queued |
| ServeRuns.StoppedNotRestarted | python/freetoken/daemon/serve_manager.py:770-815 | a child whose exit is noticed while a stop is under way or requested is never restarted automatically |
| ServeRuns.ShutdownIsFinal | python/freetoken/daemon/serve_manager.py:331-348 | for every run: from the successful return of a shutdown call on, nothing is ever spawned or current again |
| ServeCourse.RestartQueuedIff | python/freetoken/daemon/serve_manager.py:766-815 | for every run from the moment a child's exit is noticed to its monitor's decision: a restart is queued exactly when the daemon restarts at all, no stop was under way or requested then, and none is requested at the decision |
| ServeCourse.RestartsBounded | python/freetoken/daemon/serve_manager.py:811-837 | over every run, restarts attempted and still queued are no more than the decisions of monitors, and without auto-restart there are none |
| ServeCourse.AdmitSpawnsIff | python/freetoken/daemon/serve_manager.py:264-298 | in every reachable state: an admitted start goes on to spawn exactly when no child is current, no shutdown is latched, and, for a restart, no stop is requested |
| ServeCourse.SwitchSpawnsIff | python/freetoken/daemon/serve_manager.py:404-414 | for every run: a switch call whose stop has succeeded goes on to spawn exactly when no shutdown is latched |
| ServeCourse.ForcedNotRefused | python/freetoken/daemon/serve_manager.py:466-514 | over every run from a forced call to the next call: no stop fails because its receipt could not be prepared |
| ServeCourse.RefusableIff | python/freetoken/daemon/serve_manager.py:484-505 | in every reachable state: a stop preparing its receipt can fail at it exactly when it is not forced |
| ServeCourse.ReapedNotSignalled | python/freetoken/daemon/serve_manager.py:383-396 | over every run: a reaped child is never signalled, but for a signal already decided on |
| ServeCourse.GivesUpAfterKill | python/freetoken/daemon/serve_manager.py:385-393 | over every run: a stop gives up waiting for its child only after both signals have been sent to it |
| ServeRuns.RecordSurvives | python/freetoken/daemon/serve_manager.py:795-800 | over any run in which it stays current, a recorded child keeps its record exactly if no monitor clears the file in it |
| ServeRuns.RecordLossIff | python/freetoken/daemon/serve_manager.py:795-800 | in every reachable state: a recorded current child can lose its record while staying current exactly when some earlier child's monitor stands before clearing the file |
| ServeLimits.RecordErased | python/freetoken/daemon/serve_manager.py:799-800 | a client start that overlaps a reap can lose its record: that condition is reachable |
| ServeLimits.StrandedIff | python/freetoken/daemon/serve_manager.py:299-325 | a start leaves its child current and unwatched exactly when recording it or starting its monitor fails |
| ServeLimits.UnwatchedForever | python/freetoken/daemon/serve_manager.py:321-323 | a child whose recording or watching failed at start or at re-adoption, or whose monitor died, stays current for good, no stop of it returns, and nothing else is ever spawned |
| ServeLimits.StoppableIff | python/freetoken/daemon/serve_manager.py:350-402 | in every reachable state with no transaction running: some run ends with a stop of the current child that waited for it and succeeds, exactly when the child is watched |
| ServeLimits.MonitorDies | python/freetoken/daemon/serve_manager.py:774-786 | a monitor can die: an outbox error is caught, any other error of persisting a crash receipt is not |
| ServeManager.DoStop | python/freetoken/daemon/serve_manager.py:331-402 | entering and leaving a stop touches no child, no receipt, no state file, and never clears the stop intent |
| ServeManager.DoMonitor | python/freetoken/daemon/serve_manager.py:758-815 | a monitor never moves the client's transaction, and writes no books outside its crash receipt |
| AccountingOutbox.AccountingOutbox.Persist | python/freetoken/daemon/accounting.py:62-94 | what is returned is what the file under the id holds; a new receipt is stored as given, an existing one is left as it is; no other file is touched and a failure changes nothing |
| AccountingOutbox.AccountingOutbox.Pending | python/freetoken/daemon/accounting.py:96-107 | lists exactly the stored receipts, oldest first and ties by id, or fails if one cannot be read |
| AccountingOutbox.StrLessIff | python/freetoken/daemon/accounting.py:107 | ids are compared character by character, a proper prefix first |
| AccountingOutbox.AccountingOutbox.Ack | python/freetoken/daemon/accounting.py:109-123 | on success the receipt is gone, and the answer says whether it was before; no other file is touched and a failure changes nothing |
| AccountingOutbox.StoredUntilAcked | python/freetoken/daemon/accounting.py:62-123 | over any run a stored receipt survives unchanged until it is acknowledged |
| AccountingOutbox.RetryReturnsStored | python/freetoken/daemon/accounting.py:65-75 | after a successful persist, a retry under the same id returns the stored document whatever it carries |
| AccountingOutbox.SortedUnique | python/freetoken/daemon/accounting.py:107 | creation order with ties by id determines the listing |
| FtwFormat.AlignUpFormula | python/freetoken/checkpoint/ftw.py:86-87 | rounding up by counting blocks is the usual formula |
| FtwFormat.LaidAt | python/freetoken/checkpoint/ftw.py:155-171 | in the stream every tensor starts at a block and is followed by zeros up to a block, whatever the shard limit |
| FtwWriter.FTWWriter.Roll | python/freetoken/checkpoint/ftw.py:130-138 | closing a shard and opening the next keeps what is stored |
| FtwWriter.FTWWriter.WriteRaw | python/freetoken/checkpoint/ftw.py:140-153 | appends the data to the stream whatever the shard boundaries; data that fits causes no new cut, and a cut comes only after a full shard |
| FtwWriter.FTWWriter.Place | python/freetoken/checkpoint/ftw.py:159-165 | a tensor no larger than a shard is never split, and a shard is ended early only if such a tensor does not fit in what is left of it |
| FtwWriter.FTWWriter.Pad | python/freetoken/checkpoint/ftw.py:168-171 | padding never crosses a shard |
| FtwWriter.FTWWriter.AddTensor | python/freetoken/checkpoint/ftw.py:155-171 | the index entry says where the stream holds the tensor; earlier entries stay right |
| FtwWriter.FTWWriter.Finalize | python/freetoken/checkpoint/ftw.py:173-187 | the index and the files hold exactly the tensors: aligned shards of legal size tile the stream, and each but the last is full or ends before a tensor that fits in a shard and would not have fitted in this one |
| FtwRoundTrip.Layout | python/freetoken/checkpoint/ftw.py:155-171 | entries are in order and apart, padding included, and a tensor that fits a shard lies in one |
| FtwReader.Pieces | python/freetoken/checkpoint/ftw.py:282-300 | the loop computes the split of a range at shard boundaries |
| FtwReader.ReadableIff | python/freetoken/checkpoint/ftw.py:282-300 | for any index with its shards in order, a range can be read exactly when every byte lies in some shard |
| FtwReader.PiecesIff | python/freetoken/checkpoint/ftw.py:288-300 | over a gapless index a range can be read exactly when it does not pass the end, and the gap error never occurs |
| FtwReader.PiecesOk | python/freetoken/checkpoint/ftw.py:282-300 | pieces are aligned, stay inside their files, hold the stream's bytes and tile the destination, rounding included |
| FtwTransfer.PlanJobs | python/freetoken/checkpoint/ftw.py:306-310 | so do the chunked jobs, and none is larger than the chunk |
| FtwTransfer.RunJobs | python/freetoken/checkpoint/ftw.py:68-83 | any interleaving of the jobs' positional reads, each returning any number of bytes, fills the same bytes |
| FtwTransfer.ReadInto | python/freetoken/checkpoint/ftw.py:302-331 | a range inside the stream is read exactly, with its padding and nothing beyond; a range past the end is an error that writes nothing |
| FtwRoundTrip.ReadTensor | python/freetoken/checkpoint/ftw.py:302-331 | reading an index entry back gives the tensor |
| FtwRoundTrip.RoundTrip | python/freetoken/checkpoint/ftw.py:108-331 | for every list of tensors, legal shard limit and chunk size, writing and reading back is the identity |
| FtwNames.NameParses | python/freetoken/checkpoint/ftw.py:59-65 | printing and parsing an entry name gives bank and layer back exactly below layer 100000; beyond, the name does not parse |
| FtwNames.ParsedWasPrinted | python/freetoken/checkpoint/ftw.py:59 | whatever parses was printed, up to one final line break |
| FtwBanks.LoadWindow | python/freetoken/checkpoint/ftw.py:490-498 | a layer cut out of its aligned enclosing window is the layer |
| FtwBanks.HeadPadWhole | python/freetoken/checkpoint/ftw.py:491-497 | the head offset in the window is a whole number of elements |
| FtwBanks.LoadFlat | python/freetoken/checkpoint/ftw.py:479-498 | a flat bank is carved into equal layers whose concatenation it is, exactly when the row counts divide |
| FtwSink.ConvertSink.Accept | python/freetoken/checkpoint/convert.py:131-152 | each layer is written once, one entry per bank; a repeated layer writes nothing |
| FtwSink.GroupLayers | python/freetoken/checkpoint/ftw.py:442-469 | splits the entries by name: whole banks in file order, layers grouped by the bank and layer their names say, scale vectors in neither; refuses exactly when one bank comes both ways |
| FtwSink.LoadLayered | python/freetoken/checkpoint/ftw.py:500-513 | a bank loads exactly when its layers are 0 to n - 1, each with its own bytes |
| FtwSink.StreamedBanks | python/freetoken/checkpoint/convert.py:106-152 | whatever order layers complete in, every bank is read back layer by layer |
| FtwSink.FlatBank | python/freetoken/checkpoint/ftw.py:461-498 | a bank whose name is read as a whole bank, written as one region, yields the same layers |
| Dsv4CostModel.RoundsToNearest | python/freetoken/kvcache/dsv4_cost_model.py:173 | the rounding is to nearest with ties to even |
| Dsv4CostModel.DSV4PoolSizes | python/freetoken/kvcache/dsv4_cost_model.py:158-207 | the window never exceeds the history and just covers its rounded share, or what was asked for; each layer has the whole blocks that fit, one state ring a window page, and an indexer exactly at ratio 4 |
| Dsv4CostModel.DSV4PoolBytes | python/freetoken/kvcache/dsv4_cost_model.py:210-228 | the byte loop computes the byte formula |
| Dsv4CostModel.AllocBuffers | python/freetoken/kvcache/dsv4_paged_pool.py:194-270 | the buffers the pool allocates take exactly the bytes the cost model charges |
| Dsv4CostModel.BytesMono | python/freetoken/kvcache/dsv4_cost_model.py:247-249 | bytes grow with the page count through rounding, page ceiling and window capping |
| Dsv4CostModel.DemandedIff | python/freetoken/kvcache/dsv4_cost_model.py:247-249 | for every page count there is exactly one pool the solver may give: the window covers the floor and the rounded share of the history, unless the history is less, with no page more than one of the two needs; the tiers follow from it |
| Dsv4CostModel.SolveNumPages | python/freetoken/kvcache/dsv4_cost_model.py:231-267 | terminates with the largest page count, at least two and at least the window floor, whose demanded pool fits in exact bytes; the pool returned is the demanded one; refuses exactly when no demanded pool fits |
| Dsv4PagedPool.FreeListAllocator.Alloc | python/freetoken/kvcache/dsv4_paged_pool.py:62-75 | takes the last units; too many or a negative number is an error that changes nothing |
| Dsv4PagedPool.PagedPool.constructor | python/freetoken/kvcache/dsv4_paged_pool.py:461-477 | initially every window page but the dummy is free, and only the last full page is bound, to the dummy |
| Dsv4PagedPool.PagedPool.AllocSwa | python/freetoken/kvcache/dsv4_paged_pool.py:489-507 | each listed location is bound to the window page of its row, at its place in the row, and nothing else changes, wherever the row begins; a list that is not whole rows, a location that does not follow from the first of its row, and too few pages are errors that change nothing |
| Dsv4PagedPool.PagedPool.FreeSwa | python/freetoken/kvcache/dsv4_paged_pool.py:509-532 | unbinds exactly the pages of the listed locations and returns the window pages behind them; accepts exactly when each of these pages is listed as often as it has locations, and else changes nothing; -1 is skipped |
| Dsv4PagedPool.ListedWholeIff | python/freetoken/kvcache/dsv4_paged_pool.py:519-525 | in a list without repetitions that count means exactly that the page is listed whole |
| Dsv4PagedPool.PagedPool.TranslateFullToWindow | python/freetoken/kvcache/dsv4_paged_pool.py:277-279 | -1 gathers -1; a bound location keeps its offset in the page |
| Dsv4Window.AllocIff | python/freetoken/kvcache/dsv4_paged_pool.py:489-507 | binding rows keeps the partition of the pool exactly when each begins at a page of the pool and the pages are distinct and unbound |
| Dsv4Window.AllocStray | python/freetoken/kvcache/dsv4_paged_pool.py:489-507 | a row that passes the assertions but is no page takes a window page that is then neither free nor bound |
| Dsv4Window.FreeIff | python/freetoken/kvcache/dsv4_paged_pool.py:509-532 | freeing keeps it exactly when the dummy page is not among the pages |
| Dsv4Window.FreeTwice | python/freetoken/kvcache/dsv4_paged_pool.py:513-514 | freeing again changes nothing |
| Dsv4Window.FreeUnbound | python/freetoken/kvcache/dsv4_paged_pool.py:513-514 | freeing unbound pages changes nothing |
| Dsv4Window.FreeUndoesAlloc | python/freetoken/kvcache/dsv4_paged_pool.py:489-532 | freeing what was just bound restores the mapping and the set of free pages |
| HybridSwaPool.HybridSWAPool.constructor | python/freetoken/kvcache/hybrid_swa_pool.py:140-157 | initially nothing is held, slots 1 and up are free, and the last entry is -1 |
| HybridSwaPool.HybridSWAPool.AllocSwa | python/freetoken/kvcache/hybrid_swa_pool.py:159-172 | one slot per listed full slot, first free first; running out changes nothing |
| HybridSwaPool.PutAt | python/freetoken/kvcache/hybrid_swa_pool.py:172 | a full slot holds what its last listing took, others what they held |
| HybridSwaPool.HybridSWAPool.FreeSwa | python/freetoken/kvcache/hybrid_swa_pool.py:174-186 | returns the held slots and zeroes the entries |
| HybridSwaPool.HybridSWAPool.TranslateLocFromFullToSwa | python/freetoken/kvcache/hybrid_swa_pool.py:132-136 | -1 gives -1; a slot given is never a free one |
| HybridSwaPool.AllocIff | python/freetoken/kvcache/hybrid_swa_pool.py:159-172 | allocation keeps the partition exactly when the full slots are distinct, hold nothing and are not the last entry |
| HybridSwaPool.FreeIff | python/freetoken/kvcache/hybrid_swa_pool.py:174-186 | freeing keeps it exactly when no held full slot is listed twice and -1 is not listed: -1 overwrites the last entry, and a duplicate is returned twice |
| HybridSwaPool.FreeSentinel | python/freetoken/kvcache/hybrid_swa_pool.py:174-186 | on a fresh pool, freeing -1 loses the partition |
| HybridSwaPool.FreeRepeated | python/freetoken/kvcache/hybrid_swa_pool.py:174-186 | on a pool that has handed out one slot, listing its full slot twice loses the partition |
| HybridSwaPool.FreeVacant | python/freetoken/kvcache/hybrid_swa_pool.py:174-186 | freeing full slots that hold nothing changes nothing |
| DecodeAddressing.RingExact | python/freetoken/attention/dsv4_sparse.py:117-121 | each of the last min(win, pos + 1) positions is shown by exactly one ring slot |
| DecodeAddressing.RingSound | python/freetoken/attention/dsv4_sparse.py:117-121 | and a ring slot shows nothing else |
| DecodeAddressing.RingMask | python/freetoken/attention/dsv4_sparse.py:119-124 | the two masks agree |
| DecodeAddressing.StateInBlock | python/freetoken/kvcache/dsv4_paged_pool.py:539-542 | a slot's state row lies in the block of its page |
| DecodeAddressing.StateRowIff | python/freetoken/kvcache/dsv4_paged_pool.py:537-542 | two slots share a state row exactly when they are in the same page and congruent modulo the ring; a slot with its position's place in the page has the row of the position modulo the ring |
| DecodeAddressing.BlocksDisjoint | python/freetoken/attention/dsv4_compress.py:74-82 | blocks of different window pages are disjoint |
| DecodeAddressing.BlockInsideIff | python/freetoken/attention/dsv4_compress.py:79-82 | a block stays inside the ring, off the scratch row, exactly when its slot is a slot of the pool |
| DecodeAddressing.RowConstantInBlock | python/freetoken/attention/dsv4_compress.py:46-50 | all positions of a block share one compressed row |
| DecodeAddressing.SameRowIff | python/freetoken/kvcache/dsv4_paged_pool.py:281-283 | two positions share a row exactly when they are in the same block of the same full page |
| DecodeAddressing.RowBelowScratch | python/freetoken/attention/dsv4_compress.py:52-65 | rows of positions lie below the scratch rows |
| DecodeAddressing.DecodeRowsDistinct | python/freetoken/attention/dsv4_compress.py:52-65 | two batch rows store to the same place exactly when both complete the same block of the same page |
| LineAssembler.LineAssembler.Feed | python/freetoken/daemon/logfmt.py:37-65 | the loop computes the character-by-character reading of its input from its state |
| LineAssembler.LineAssembler.Flush | python/freetoken/daemon/logfmt.py:67-76 | emits what trails and returns to the initial state |
| LineAssembler.FeedChunks | python/freetoken/daemon/logfmt.py:28-76 | any split of a text into chunks, fed and flushed, gives the events of the whole text |
| LineAssembler.LinesGiveEvents | python/freetoken/daemon/logfmt.py:37-76 | a line drawn in stretches, each overwritten after carriage returns, gives one redraw event for each stretch but the last and a line event for the last; what trails at the end gives a redraw, a line or nothing |
| LineAssembler.Lined | python/freetoken/daemon/logfmt.py:37-76 | every text is a sequence of such lines and what trails |
| LineAssembler.NothingLost | python/freetoken/daemon/logfmt.py:37-65 | the emitted texts and the rest are the input without CR and LF, and there is one finished line per LF |
| LineAssembler.WholeTexts | python/freetoken/daemon/logfmt.py:37-76 | with the flush, the emitted texts are exactly the input without CR and LF |
| LineAssembler.ReturnsBeforeNewline | python/freetoken/daemon/logfmt.py:41-57 | carriage returns before a newline change nothing, in any state |
| LogRing.LogRing.Append | python/freetoken/daemon/logring.py:30-44 | numbers records consecutively and keeps the last ones |
| LogRing.LogRing.Since | python/freetoken/daemon/logring.py:46-51 | returns exactly the kept records from the cursor on, and the all-time count |
| LogStream.OpenOn | python/freetoken/daemon/app.py:420-435 | subscribing before the snapshot: backlog and pending callbacks overlap but leave no gap |
| LogStream.StepInv | python/freetoken/daemon/app.py:404-455 | every step keeps the stream's invariant |
| LogStream.StreamExactIff | python/freetoken/daemon/app.py:380-458 | every number from the client's cursor to the last one sent is sent or announced lost once, in order, with honest counts, exactly when no record was dropped while another was held |
| LogStream.SentUnlessLost | python/freetoken/daemon/app.py:404-456 | for every run without tearing and every number up to the last one sent: it was sent as a record exactly when the ring still had it and the full queue did not push it out, and lies in a gap frame otherwise |
| LogStream.TearingRun | python/freetoken/daemon/app.py:439-451 | for a queue of any size, 1000 in the program: a schedule that drops a record while another is held, and sends a wrong gap |
| CacheBudget.SucceedsIff | python/freetoken/engine/cache_budget.py:48-95 | planning succeeds exactly when the slot floor and the reserve fit and the greedy slot count leaves two pages |
| CacheBudget.PlanIsBest | python/freetoken/engine/cache_budget.py:48-95 | a plan is within budget and bounds, no feasible plan has more slots, nor as many slots and more pages, less than a page is left over, and overlap stays on whenever the caps leave room for its two layers of experts |
| CacheBudget.PlanIff | python/freetoken/engine/cache_budget.py:70-95 | for every request with positive costs: the best feasible geometry is the plan if it has two pages, and is refused for want of pages if not; the other refusals mean exactly that no geometry is feasible |

## Left out

- ServeManager.DoStart: the supervisor is modelled on values, one step at a time, because the interleaving is the point; blocking, fairness and the text of answers are not modelled, and a start of the same model is not told apart from a conflicting one (neither changes the state).
- ServeSafety.StepInv: receipt contents, the last observed totals and the parsing of engine snapshots are left abstract; a receipt is an identity and a kind. A start-up that finds a stale record and cannot remove it is not modelled: the file then records a child nobody knows.
- HybridRadixCache.HybridRadixCache.EvictFull: the heap is a set whose oldest element is taken each time, with timestamps read once at the start; ties are broken arbitrarily.
- HybridRadixCache.HybridRadixCache.MatchPrefix: that the chunk size of the recurrence is a multiple of the page size is not needed by any result and not modelled; tensors are sequences.
- FtwWriter.FTWWriter.AddTensor: dtype, shape and kind of an entry are carried along unread and are not modelled; so are temporary index files and file-name formatting (files are numbered).
- FtwReader.Pieces: sorting the shard list at load is left out, since the writer's list is already in order.
- FtwTransfer.RunJobs: direct-I/O probing, memory maps and file-handle caching are not modelled; any positive read length is allowed, also unaligned ones.
- FtwSink.StreamedBanks: dense weights and the flat scale vectors that share the file are not modelled; bank names are non-empty and free of line breaks, and digits are ASCII.
- Dsv4CostModel.SolveNumPages: floating-point rounding of the ratio times the page count is replaced by exact arithmetic.
- Dsv4PagedPool.PagedPool.AllocSwa: locations are entries of the mapping; negative ones, which would wrap to its end, are not modelled.
- Dsv4PagedPool.PagedPool.FreeSwa: a page listed half but twice passes the source's count and the model's; that the listing covers the page is the caller's duty.
- DecodeAddressing.DecodeRowsDistinct: the writes at window-page boundaries, kernels and captured graphs are not modelled, only their index arithmetic.
- LogStream.StreamExactIff: the stream is modelled on values, one step at a time, because the interleaving of callbacks is the point; heartbeats, disconnects and the text of records are not modelled; a record is its sequence number.
- LineAssembler.LineAssembler.Feed: stripping of terminal escape sequences is one regular expression and is left out.
- CacheBudget.SucceedsIff: the floating-point share of the baseline that yields the budget is an input here.
- `unbind_window_pages`, in-place rebuilds, `dsv4_auto_cost_model`, `dsv4_kv_unit_bytes` and `dsv4_window_unit_bytes`: no exact claim beyond one reading.
- HTTP routes, command lines, spawning, `/proc` helpers, metrics and `daemon/checkpoint.py`: plumbing, or a smaller copy of the supervisor's pattern.
