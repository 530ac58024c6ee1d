# zsim: protocols and schedulers, verified

A Dafny model of the parts of the zsim architecture simulator that are small protocols or
schedulers full of assertions, with proofs that the assertions hold and that the protocols do
what they are for. `dafny verify dfyconfig.toml` checks everything.

- **MESI coherence** (`Mesi`, `Coherence`, `CoherenceInvariant`, `CoherenceSteps`,
  `CoherenceGrants`, `CoherenceInvalidations`, `CoherenceTheorems`, over the trees of
  `CacheTree`). One line in a tree of caches of any depth and fan-out, any number of requests in
  flight, memory above the root. A cache may have several parent banks, but sends one line
  always to the same one, so for one line the hierarchy is a tree. One step runs from one lock
  operation to the next: a request waits between levels with the child's bottom lock released,
  invalidations come down hand over hand, evictions start at any time. Every `assert` and
  `panic` of the controllers is a possible outcome `Panic` of a step; that none is ever reached
  is a theorem. The core of a terminal cache plays the part of the top lock, which terminal
  caches do not have: one access at a time. `CoherenceData` lays versions of the data over it:
  who would have which version if every grant, writeback and store moved data.
  `CoherenceProgress` measures the work left. `CoherenceLoad` follows a load nothing else gets
  in the way of. `CoherenceAtomic` compares the many steps of a request with one update by
  `TopController`. `TopController` is the directory entry with its sharer bits, counter and flag
  updated in place, including the loop that invalidates the children.
- **Locks of the hierarchy** (`HierarchyLocks`). The same lock operations without the data, for
  all lines and any number of threads at once, with the filter locks. Over all lines the caches
  and their parent banks form a graph without cycles.
- **Filter cache** (`FilterCache`). The lock-free filter in front of an L1, with invalidations
  arriving while a replace has given the filter lock up.
- **ZArray** (`ZWalk`, `ZCache`). The zcache array: lookup, breadth-first walk, moves.
- **DDR controller** (`DdrClock`, `ActWindow`, `DdrTiming`, `DdrTimingProof`, `BankQueue`,
  `IntrusiveList`, `RequestPool`, `DdrSchedule`, `DdrController`, `DdrUnsorted`). A log of all
  commands is kept beside the timing fields, and the timing rules are statements about any two
  commands of the log. `DdrController` is the object with its fields and events; `DdrSchedule`
  has its arrivals, ticks and refreshes on values, and what follows for whole runs.
- **Phase barrier** (`Barrier`, `BarrierHistory`). The object keeps a history of joins, wakeups,
  syncs, leaves and phase ends beside its fields; the laws of a barrier are statements about it.
- **Futex mutex** (`FutexMutex`), **reader-writer mutex** (`RwMutex`), **lookahead partitioner**
  (`Lookahead`).

Where a promise of the source does not hold, the model follows the code:

- `futex_haswaiters` is described as true only with a waiter in the kernel. It is true before the
  waiter makes its system call (`FutexMutex.FlagBeforeSleep`). For an owner that got the lock by
  the compare-and-swap while nobody uses the timed lock it means that another thread has queued
  by exchanging 2 in; for an owner that got it by an exchange it is always set
  (`FutexMutex.HasWaitersMeans`, with `FutexMutex.HasWaitersCanBeStale` and
  `FutexMutex.ExchangeLeavesFlag` for the two ways in which nobody is there). What the flag says
  in all cases is in `FutexMutex.FlagSinceAcquired`.
- A thread that leaves the barrier while it waits, before it was ever woken, keeps a stale index
  and can fail the assertion in `join` (`Barrier.StaleLeave`); `Barrier.Barrier.Leave` says
  exactly when the barrier stays consistent.
- The filter cache misses an invalidation sent on behalf of another process, as a FIXME in it
  says; `FilterCache.FilterCache.Invalidate` says exactly when that breaks its promise, and
  `FilterCache.ForeignInvalidation` is a sequence of calls that does. A cleared
  filter matches line 0 (`FilterCache.LineZeroMatches`).
- The lookahead partitioner gives every partition its minimum and pays for it once, so that it
  hands out more buckets than there are unless the minimum is 0, or there is one partition and
  enough for its minimum (`Lookahead.TotalIsBucketsIff`, and `Lookahead.Overcommits` for a call).
- The activation window is left unsorted by an activation earlier than its second-oldest entry
  (`ActWindow.SortedIff`). The controller makes such a schedule when reads go before a deferred
  write that came first (`DdrUnsorted.WindowLeftUnsorted`). The window holds the latest
  activations of every history without one (`ActWindow.LatestOfHistory`). The limit of four
  activations per tFAW holds all the same, in whatever order activations are recorded
  (`DdrTimingProof.FourActivationWindow`).
- tRRD is only kept between activations of one bank, not of one rank: two requests that are both
  ready activate two banks in the same cycle (`DdrTimingProof.RankRrdNotKept`). A request keeps
  it exactly if its activation is that far from the entries of the rank's window, as long as none
  of these is much later (`DdrTimingProof.RankRrdIff`).

## Model

| member | source | states |
|---|---|---|
| `Mesi.MemoryAccess` | src/mem_ctrls.cpp:31-45 | whatever memory answers is a state the request may be granted with, and a read is answered exclusively exactly if it may be |
| `CoherenceSteps.RaceHandled` | src/coherence_ctrls.h:247-274 | for every state an invalidation can leave a waiting child in, the race check reaches no panic; it skips exactly the writebacks of lines already gone, and otherwise continues with a request that fits the child's state |
| `CoherenceSteps.LockBottomStep` | src/coherence_ctrls.h:306-325 | taking the bottom lock and checking for a race keeps the invariant of the tree |
| `CoherenceSteps.AllocateStep` | src/cache.cpp:69-79 | installing the line, after a victim may have been written back with the lock released, keeps the invariant |
| `CoherenceSteps.BottomFine` | src/coherence_ctrls.cpp:87-151 | the bottom controller's assertions on an access hold, inclusion holds for writebacks, a hit never lowers the state and a miss is a request the race check can handle |
| `CoherenceSteps.EvictDownStep` | src/coherence_ctrls.h:340-345 | starting to invalidate the children of a victim keeps the invariant |
| `CoherenceGrants.PutStep` | src/coherence_ctrls.cpp:266-279 | a writeback that reaches the top controller comes from a sharer, a dirty one from the exclusive sharer, and removing it keeps the invariant |
| `CoherenceGrants.GrantExclusiveStep` | src/coherence_ctrls.cpp:280-287 | giving the line in E to the only child keeps the invariant |
| `CoherenceGrants.GetDownStep` | src/coherence_ctrls.cpp:288-320 | a read or write that has to go down to other children finds the permissions the source asserts, and keeps the invariant with the requester taken out of the sharers |
| `CoherenceInvalidations.EnterStep` | src/cache.cpp:127-136 | an invalidation finds the line in the child it is sent to, and keeps the invariant |
| `CoherenceInvalidations.LeaveStep` | src/coherence_ctrls.cpp:162-186 | when an invalidation leaves a cache the assertions of both controllers hold, the writeback flag is passed up and the invariant is kept |
| `CoherenceInvalidations.EndLoopFine` | src/coherence_ctrls.cpp:233-245 | after the last child the number of invalidations sent is the number of sharers, and the entry is empty or no longer exclusive |
| `CoherenceInvalidations.AbsorbFine` | src/coherence_ctrls.cpp:153-160 | a writeback pulled up from below only meets a line held in E or M, and leaves it dirty |
| `CoherenceInvalidations.GrantStep` | src/coherence_ctrls.cpp:289-323 | granting S or M after the other copies are downgraded or gone keeps the invariant, with the source's assertions |
| `CoherenceInvalidations.EndStep` | src/coherence_ctrls.h:382-391 | the child of a finished access is still waiting, in a state its request may come back with |
| `CoherenceTheorems.StepKeepsInv` | src/coherence_ctrls.h:277-403 | no enabled step of any kind panics, and every one keeps the invariant |
| `CoherenceTheorems.RunKeepsInv` | src/coherence_ctrls.h:277-491 | the invariant holds in every state of every run of every tree |
| `CoherenceTheorems.NoAssertionFails` | src/coherence_ctrls.h:327-338 | in every run no controller assertion, lost-inclusion panic, race panic or missing-line assertion fires |
| `CoherenceTheorems.EvictionEnds` | src/coherence_ctrls.cpp:56-85 | an eviction that is over has left no line, no permission and no sharers |
| `CoherenceTheorems.PermissionsShrink` | src/coherence_ctrls.cpp:261-332 | a cache below another never has more permission than it |
| `CoherenceTheorems.SingleWriterInv` | src/coherence_ctrls.cpp:213-332 | of two caches, neither above the other, one in E or M forces the other to I |
| `CoherenceTheorems.SingleWriter` | src/coherence_ctrls.cpp:87-151 | single writer, many readers among terminal caches, in every state of every run |
| `CoherenceTheorems.AccessHasPermission` | src/coherence_ctrls.h:465-472 | a core's load completes on a valid line; its store completes in M with every cache off its own path in I |
| `CoherenceTheorems.DirtyNeverLost` | src/coherence_ctrls.cpp:56-85 | a store that has not reached memory is in M in a cache on the path from its writer to memory, or on its way up there as a writeback flag |
| `CoherenceTheorems.ExactDirectory` | src/coherence_ctrls.h:180-200 | outside an update the sharer bits are exactly the children with a copy, the counter their number, exclusive exactly if a child is in E or M, and no child exceeds its parent |
| `CoherenceTheorems.RequesterSpared` | src/coherence_ctrls.cpp:305-320 | a request never has its own child invalidated |
| `CoherenceTheorems.NeverStuck` | src/coherence_ctrls.h:306-403 | while an access is under way some step of an access under way is enabled |
| `CoherenceData.StepKeepsData` | src/coherence_ctrls.cpp:56-332 | every step, with the data it would move, keeps every valid copy at the latest version unless a dirty one is below it, and memory unless a copy anywhere is dirty |
| `CoherenceData.StoreData` | src/coherence_ctrls.cpp:119-146 | a store makes the new version the latest, and only caches above the writer still have an old one |
| `CoherenceData.PutData` | src/coherence_ctrls.cpp:266-279 | a writeback that ends a copy moves its version up |
| `CoherenceData.LeaveData` | src/coherence_ctrls.cpp:162-186 | an invalidation that reports a writeback carries the latest version up, one that does not loses nothing |
| `CoherenceData.GrantData` | src/coherence_ctrls.cpp:289-323 | after the other copies are downgraded or gone, the version granted is the latest |
| `CoherenceData.EvictData` | src/coherence_ctrls.cpp:56-85 | evicting a line leaves its latest version to the writeback, at the root to memory |
| `CoherenceData.RunKeepsData` | src/coherence_ctrls.h:277-491 | so it is in every state of every run |
| `CoherenceData.LoadSeesLatestStore` | src/coherence_ctrls.h:465-472 | in every run, an access of a core that completes sees the version of the latest store |
| `CoherenceData.LatestIsKept` | src/coherence_ctrls.cpp:56-85 | in every run the latest version is in memory, in a cache in M, or on its way up |
| `CoherenceProgress.StepFalls` | src/coherence_ctrls.h:277-403 | every step that starts no access or eviction strictly lowers the work left, whatever races it meets |
| `CoherenceProgress.AccessesFinish` | src/coherence_ctrls.h:277-491 | no livelock: with nothing new started, a run goes on for at most as many steps as there is work left |
| `CoherenceProgress.NoWorkNoAccess` | src/coherence_ctrls.h:382-403 | with no work left no access and no invalidation is under way |
| `CoherenceLoad.StaysAlone` | src/coherence_ctrls.cpp:261-332 | a load with nothing else under way stays alone: no step invalidates anybody, and caches only get the state it is to end with |
| `CoherenceLoad.LoadTakesExclusive` | src/mem_ctrls.cpp:31-45 | in every run, a load that starts with no copy anywhere and nothing else under way ends with all caches on its path in E, with NOEXCL in S, and no copy elsewhere |
| `TopController.TopEntry.InvalidateSharers` | src/coherence_ctrls.cpp:225-233 | the loop invalidates or downgrades exactly the sharers, counts them all, and reports a writeback exactly if a copy was dirty |
| `TopController.TopEntry.SendInvalidates` | src/coherence_ctrls.cpp:213-247 | the entry stays exact; INV leaves no copy, INVX turns writers into readers and touches nobody else; no assertion fails |
| `TopController.TopEntry.PutBack` | src/coherence_ctrls.cpp:265-280 | the child's copy goes and the entry stays exact |
| `TopController.TopEntry.GrantShared` | src/coherence_ctrls.cpp:281-304 | E exactly if the line has no sharers and may be exclusive, else S after a downgrade; the entry stays exact |
| `TopController.TopEntry.GrantExclusive` | src/coherence_ctrls.cpp:305-326 | M for the child and I for everybody else, exactly if the cache itself is exclusive; the entry stays exact |
| `TopController.TopEntry.ProcessAccess` | src/coherence_ctrls.cpp:261-332 | for every request that fits the child's copy: no assertion fails, the entry stays exact, every child's new copy, and a writeback exactly if a copy elsewhere was dirty |
| `TopController.ExactIsUnique` | src/coherence_ctrls.h:180-200 | the copies determine an exact entry, but for the flag of a line without sharers |
| `CoherenceAtomic.EntryIsExact` | src/coherence_ctrls.h:180-200 | outside an update every entry of the hierarchy is exact in the sense of the top controller |
| `CoherenceAtomic.StaysDown` | src/coherence_ctrls.cpp:213-247 | while an access is waiting for its invalidations, no other step touches it, and a downgrade leaves its entry alone |
| `CoherenceAtomic.RequestIsAtomic` | src/coherence_ctrls.cpp:261-332 | whatever other caches do between its first and its last step, a request ends with the copies that one call of the top controller gives, and an exact entry |
| `CoherenceAtomic.Replay` | src/coherence_ctrls.cpp:261-332 | one call of the top controller on the entry before the request leaves the entry after it |
| `HierarchyLocks.RankRule` | src/coherence_ctrls.h:306-325 | with any number of parent banks, every lock is asked for above every lock held: top locks leaf to root, bottom locks root to leaf, filter locks |
| `HierarchyLocks.StepKeepsOk` | src/coherence_ctrls.cpp:33-42 | a step of a thread, to whichever parent bank it goes, keeps every lock with one holder |
| `HierarchyLocks.MoveGainsNothing` | src/coherence_ctrls.h:382-403 | nothing a thread does without waiting gains it a lock |
| `HierarchyLocks.GrantGainsOne` | src/coherence_ctrls.h:435-491 | being given a lock gains at most that lock, hand over hand |
| `HierarchyLocks.RunKeepsOk` | src/filter_cache.h:128-162 | in every run of any number of threads no lock has two holders |
| `HierarchyLocks.NoWaitCycle` | src/coherence_ctrls.h:306-403 | no set of threads ever waits in a cycle, in any graph of banks |
| `HierarchyLocks.NoDeadlock` | src/coherence_ctrls.h:435-491 | whenever a thread is inside the hierarchy, some such thread can go on |
| `FilterCache.HitChangesNothing` | src/filter_cache.h:102-126 | a filter hit is a hit of the full access path that changes neither a state nor the order of use |
| `FilterCache.FilterCache.constructor` | src/filter_cache.h:65-77 | the cleared filter promises nothing |
| `FilterCache.FilterCache.Lookup` | src/filter_cache.h:102-126 | a match on a line other than 0 means that the full access would hit and change nothing |
| `FilterCache.FilterCache.StartReplace` | src/filter_cache.h:128-134 | giving up the lock and looking the line up makes it the latest of its set if it is there, changes nothing else, and keeps the promises of all other sets |
| `FilterCache.FilterCache.Allocate` | src/cache.cpp:69-79 | replacing any victim of the set keeps the promises of all other sets |
| `FilterCache.FilterCache.FinishReplace` | src/filter_cache.h:136-149 | the entry set at the end promises what the access was granted |
| `FilterCache.FilterCache.Invalidate` | src/filter_cache.h:151-162 | at any time, also during a replace, the promises survive exactly unless another process sends it for a line whose entry promises more than the line now gives |
| `FilterCache.ForeignInvalidation` | src/filter_cache.h:151-162 | a load and an invalidation by another process end with an entry that matches a line the L1 no longer has |
| `FilterCache.FilterCache.ContextSwitch` | src/filter_cache.h:164-168 | every entry is cleared, so the new process inherits no promise |
| `FilterCache.LineZeroMatches` | src/filter_cache.h:47-52 | a cleared filter reports a hit on line 0 although the L1 is empty |
| `ZWalk.EarlierChild` | src/cache_arrays.cpp:127-160 | a candidate whose parent's line occurred earlier has itself an earlier occurrence |
| `ZWalk.ParentIsFirst` | src/cache_arrays.cpp:173-181 | the parent of a first occurrence is a first occurrence |
| `ZWalk.WalksAgree` | src/cache_arrays.cpp:127-160 | two walks for one address agree as far as both go: breadth first, way by way, leaving nothing out |
| `ZWalk.PathIsOk` | src/cache_arrays.cpp:182-193 | the path back from a first occurrence has no repeated position, and each position is a home of the line that moves there |
| `ZWalk.PathLength` | src/cache_arrays.cpp:182-193 | each step back skips at least as many candidates as there are ways |
| `ZWalk.MovedIsPermutation` | src/cache_arrays.cpp:202-211 | after the moves the lookup array is a permutation with a known inverse |
| `ZWalk.MovedOk` | src/cache_arrays.cpp:202-217 | after the moves every line is at a home of its address and no address is there twice |
| `ZCache.ZArray.constructor` | src/cache_arrays.cpp:70-88 | the identity lookup array with no resident address is consistent |
| `ZCache.ZArray.Lookup` | src/cache_arrays.cpp:98-116 | finds exactly the resident addresses, at a line with that address; address 0 panics |
| `ZCache.ZArray.Walk` | src/cache_arrays.cpp:119-171 | terminates, never writes past the buffer, each expansion adds exactly ways - 1 candidates, stops as soon as there is an invalid line or enough candidates and not before |
| `ZCache.ZArray.WalkIsUnique` | src/cache_arrays.cpp:119-165 | only one list of candidates is such a walk |
| `ZCache.ZArray.FillSwaps` | src/cache_arrays.cpp:182-193 | the swap array holds the path to the chosen candidate and is never full |
| `ZCache.FitsSwapArray` | src/cache_arrays.cpp:87-87 | a path to any of the candidates fits the swap array |
| `ZCache.ZArray.Preinsert` | src/cache_arrays.cpp:118-200 | the policy is offered exactly the candidates of the walk, at most as many as configured; its choice is the victim, and the prepared moves are the path back from its first occurrence |
| `ZCache.ZArray.FindLine` | src/cache_arrays.cpp:176-182 | the smallest index with the line |
| `ZCache.ZArray.FreeLineTaken` | src/cache_arrays.cpp:165-171 | a free line among the candidates offered is taken by any policy that prefers free lines |
| `ZCache.ZArray.MoveLines` | src/cache_arrays.cpp:202-210 | the in-place chain of moves shifts the lines by one along the path and touches nothing else |
| `ZCache.ZArray.Postinsert` | src/cache_arrays.cpp:202-217 | the array stays consistent, the new address is at the victim's line, and of the resident addresses exactly the victim's is lost |
| `DdrClock.RoundTrip` | src/ddr_mem.h:253-258 | with the frequencies the constructor accepts, a memory cycle translated to a matching system cycle and back is unchanged, and that system cycle is not 0 |
| `DdrClock.RoundTripNeedsSlowMemory` | src/ddr_mem.h:253-258 | with a faster memory the translation can miss |
| `DdrClock.SysToMemMonotone` | src/ddr_mem.h:250-250 | later system cycles never translate to earlier memory cycles |
| `DdrClock.QueuedCycle` | src/ddr_mem.cpp:336-339 | the later of the matching cycle and now still fires in the wanted memory cycle |
| `DdrClock.DoneIsLater` | src/ddr_mem.cpp:606-607 | a response is never before the tick that issued it |
| `DdrClock.DoneIsNext` | src/ddr_mem.h:251-252 | a response comes in the memory cycle after its burst, one later only if the clocks tick together there |
| `ActWindow.InsertReplacesOldest` | src/ddr_mem.h:59-75 | recording an activation replaces the oldest slot's entry and loses no other, in any order |
| `ActWindow.SortedIff` | src/ddr_mem.h:62-71 | a sorted window stays sorted exactly if the new activation is no earlier than the second-oldest entry |
| `ActWindow.KeepsLatest` | src/ddr_mem.h:59-75 | of a sorted window and the new activation, an earliest one is dropped |
| `ActWindow.LatestOfHistory` | src/ddr_mem.h:59-75 | over any history in which no activation is earlier than the second-oldest entry, the window and what dropped out are all activations, and nothing that dropped out is later than an entry |
| `ActWindow.InWindowOrOlder` | src/ddr_mem.cpp:568-576 | in any order, an activation is in the window or at least tFAW before an entry of it |
| `ActWindow.ApartFromAllIff` | src/ddr_mem.cpp:568-576 | an activation is a given distance from all recorded ones only if it is from the entries of the window, and exactly then unless one of these is much later |
| `ActWindow.InsertChained` | src/ddr_mem.cpp:568-576 | an activation the scheduler's bound allows extends one of as many chains as there are slots, in each of which activations are tFAW apart |
| `ActWindow.WindowSpan` | src/ddr_mem.cpp:568-576 | of more activations than slots, two are tFAW apart |
| `ActWindow.Window.constructor` | src/ddr_mem.h:49-53 | all slots start at 0 |
| `ActWindow.Window.MinActCycle` | src/ddr_mem.h:55-57 | the oldest slot's entry |
| `ActWindow.Window.ShiftLater` | src/ddr_mem.h:65-70 | the loop over the circular buffer stops at an entry that is not later or after a full turn, with the entries shifted so far |
| `ActWindow.Window.AddActivation` | src/ddr_mem.h:59-75 | the in-place loop computes `Insert`, also on a full turn |
| `DdrTiming.InitInv` | src/ddr_mem.cpp:178-187 | the initial fields satisfy the timing invariant |
| `DdrTimingProof.ServeBankFacts` | src/ddr_mem.cpp:551-599 | the cycles and bank fields of one request: bus, write-to-read, precharge, activation and window bounds, and a command later than the bank's last |
| `DdrTimingProof.ReadyGoesAtOnce` | src/ddr_mem.cpp:470-489 | a request the estimate calls ready has arrived and is issued as soon as the bus allows, with no wait for its row |
| `DdrTimingProof.NotReadyWaits` | src/ddr_mem.cpp:470-489 | a request the estimate does not call ready would have to wait for its row, its arrival or the command before it |
| `DdrTimingProof.NothingBeforeArrival` | src/ddr_mem.cpp:559-578 | no precharge, activation or column command for a request is before it arrived |
| `DdrTimingProof.RefreshCycle` | src/ddr_mem.cpp:636-642 | a refresh starts no earlier than now, than any bank's precharge or than its last command |
| `DdrTimingProof.ServeKeepsInv` | src/ddr_mem.cpp:551-599 | serving any request at any cycle keeps the timing invariant |
| `DdrTimingProof.RefreshKeepsInv` | src/ddr_mem.cpp:634-653 | a refresh at any cycle keeps the timing invariant |
| `DdrTimingProof.RunKeepsInv` | src/ddr_mem.cpp:551-653 | the timing invariant holds in every run |
| `DdrTimingProof.TimingHolds` | src/ddr_mem.cpp:470-599 | between any two commands of any run: tBL between bursts, tWTR, tRAS from activation and tRTP or tCL + tBL + tWR from a read or write to the precharge, tRP from it to the activation, tRAS + tRP and tRRD between activations of a bank, no activation before a refresh is done |
| `DdrTimingProof.NoEarlier` | src/ddr_mem.cpp:549-583 | no cycle is lost: in any state, no earlier precharge, activation and column command for the request would obey those rules, the oldest entry of the window and the request's arrival |
| `DdrTimingProof.ColumnsHitOpenRows` | src/ddr_mem.cpp:554-579 | every column command goes to the row its bank's last activation opened, tRCD later, with no refresh in between |
| `DdrTimingProof.BurstsDisjoint` | src/ddr_mem.cpp:581-583 | no cycle of the data bus belongs to two bursts |
| `DdrTimingProof.FourActivationWindow` | src/ddr_mem.cpp:568-576 | any five activations of a rank in any run span at least tFAW |
| `DdrTimingProof.RankRrdIff` | src/ddr_mem.cpp:568-569 | serving a request keeps tRRD within its rank only if its activation is tRRD from every entry of the rank's window, and exactly then unless an entry is more than tFAW - tRRD later |
| `DdrTimingProof.RankRrdNotKept` | src/ddr_mem.cpp:568-568 | two requests, each ready when it is served, activate two banks of a rank in the same cycle, for all timings and all late enough arrivals |
| `BankQueue.EnqueuedOk` | src/ddr_mem.cpp:384-419 | queueing keeps the queue a concatenation of one-row groups with consecutive hit numbers up to the limit |
| `BankQueue.JoinsItsRow` | src/ddr_mem.cpp:384-391 | a request for a row somebody waits for goes right behind the last of them as the next hit, while the row has hits left |
| `BankQueue.GoesLast` | src/ddr_mem.cpp:392-419 | any other goes last; its hits count on if it finds its row open and nobody waiting, else from 0 |
| `BankQueue.CountsOn` | src/ddr_mem.cpp:403-417 | hits on one row are numbered on from the request served last, up to the limit |
| `BankQueue.EnqueuedInOrder` | src/ddr_mem.cpp:384-419 | requests for one row stay in the order they were queued |
| `BankQueue.ServedOk` | src/ddr_mem.cpp:628-629 | taking the head keeps the groups |
| `BankQueue.KeptOpenForAHit` | src/ddr_mem.cpp:586-589 | a successor with a hit number is for the same row |
| `BankQueue.GroupIsShort` | src/ddr_mem.cpp:386-391 | a group never has more than the limit of hits after its first request |
| `BankQueue.SlackBound` | src/ddr_mem.cpp:384-399 | the hits still open to the groups ahead are at most the limit for each |
| `BankQueue.SlackShrinks` | src/ddr_mem.cpp:386-391 | a newcomer that goes ahead uses up exactly one of them |
| `BankQueue.RunKeepsOrder` | src/ddr_mem.cpp:384-419 | groups and row order hold in every run of a queue |
| `BankQueue.RunFillsGroups` | src/ddr_mem.cpp:386-396 | in every run a row starts a new group only when its last one is full |
| `BankQueue.OvertakenPaid` | src/ddr_mem.cpp:384-419 | the newcomers that have overtaken a request and those that still can are never more than the slack it started with |
| `BankQueue.OvertakenBound` | src/ddr_mem.cpp:384-419 | each group ahead of a request lets at most the row-hit limit of newcomers overtake it |
| `IntrusiveList.InList.FirstHasNoPrev` | src/ddr_mem.cpp:322-322 | a node has no predecessor exactly if it is the first of its list |
| `IntrusiveList.InList.PushFront` | src/intrusive_list.h:88-101 | the list is the node followed by the old list, links and owner included |
| `IntrusiveList.InList.PushBack` | src/intrusive_list.h:103-115 | the list is the old list followed by the node |
| `IntrusiveList.InList.InsertAfter` | src/intrusive_list.h:145-151 | the node follows the given one and nothing else moves |
| `IntrusiveList.InList.Remove` | src/intrusive_list.h:136-143 | the node is out and unlinked, the others keep their order |
| `IntrusiveList.InList.PopFront` | src/intrusive_list.h:117-124 | the list loses its head; an empty list stays empty |
| `IntrusiveList.FindLast` | src/ddr_mem.cpp:384-399 | the walk along the links ends at the last request for the row, or at null if there is none |
| `IntrusiveList.LinkRequest` | src/ddr_mem.cpp:384-419 | the request gets the hit number and the place the first-ready rules prescribe, and no other request changes |
| `IntrusiveList.Queue` | src/ddr_mem.cpp:384-419 | the linked list holds the queue the first-ready rules prescribe |
| `RequestPool.AddOk` | src/ddr_mem.cpp:304-319 | queueing keeps every request in both its request queue and its bank's queue |
| `RequestPool.TakeOk` | src/ddr_mem.cpp:627-629 | so does taking the first of a bank out |
| `RequestPool.SomeFirst` | src/ddr_mem.cpp:516-534 | a queue with requests has one that is the first of its bank, so the scan never comes up empty |
| `DdrSchedule.KeptOpenForTheRow` | src/ddr_mem.cpp:589-589 | with closed pages a row is left open only if the next request of the bank is for it |
| `DdrSchedule.NextHits` | src/ddr_mem.cpp:586-599 | the next hit of a row finds it open under both page policies; closed pages close it if no such request waits |
| `DdrSchedule.HitsKeepCounting` | src/ddr_mem.cpp:403-417 | after a request is served, arrivals for its bank are numbered on from it |
| `DdrSchedule.TriedOk` | src/ddr_mem.cpp:491-632 | however a tick ends, the queues stay consistent and lose at most the request it served; the next cycle is later, and there is one exactly if something is queued |
| `DdrSchedule.PutOk` | src/ddr_mem.cpp:345-423 | queueing keeps the queues consistent, adds exactly the request, and makes it the first of its bank if nothing was queued |
| `DdrSchedule.MovedOk` | src/ddr_mem.cpp:432-450 | taking a request from the overflow queue loses none, leaves a tick planned exactly if something is pending, and plans it for now only if the overflow queue has shrunk |
| `DdrSchedule.OldestMoves` | src/ddr_mem.cpp:432-439 | the oldest overflowed request moves, exactly if both queues have room, and arrives only then |
| `DdrSchedule.ArrivedOk` | src/ddr_mem.cpp:296-343 | an arrival adds exactly its request and leaves a tick planned |
| `DdrSchedule.NoneReadyYet` | src/ddr_mem.cpp:536-543 | a tick planned for the earliest estimate finds a ready request, and not before |
| `DdrSchedule.TickFalls` | src/ddr_mem.cpp:426-461 | every tick leaves less work to do: it serves a request, shrinks the overflow queue, or waits for the bus or for the first request to be ready, each at most once |
| `DdrSchedule.ArrivalAdds` | src/ddr_mem.cpp:296-343 | an arrival, which may move the next tick, adds at most six ticks |
| `DdrSchedule.RefreshAdds` | src/ddr_mem.cpp:634-656 | a refresh, which closes all rows, adds at most one |
| `DdrSchedule.TicksPaidFor` | src/ddr_mem.cpp:296-656 | in any run of arrivals, refreshes and ticks: what arrived is served or pending, and the ticks are at most the work at the start, six for every arrival and one for every refresh |
| `DdrSchedule.RestsWhenServed` | src/ddr_mem.cpp:452-460 | the controller stops planning ticks only when every request has been served, once each |
| `DdrSchedule.ReadsGoFirst` | src/ddr_mem.cpp:509-513 | in every run, while a read is queued a deferred write is served exactly if more than 3/4 of the write queue are taken, or the last command was a write and more than 1/4 is |
| `DdrSchedule.DrainGoesOn` | src/ddr_mem.cpp:509-511 | hysteresis: writes that start to drain above 3/4 go on until at most 1/4 is left, with no other request in between |
| `DdrSchedule.TickInTime` | src/ddr_mem.cpp:506-543 | after a tick the next one is no later than any request of the preferred queue could be served |
| `DdrSchedule.ArrivalInTime` | src/ddr_mem.cpp:321-341 | so it is after an arrival |
| `DdrController.Controller.OpenRow` | src/ddr_mem.cpp:557-579 | the bank fields, the window and the logged precharge and activation |
| `DdrController.Controller.Issue` | src/ddr_mem.cpp:581-599 | the bank and bus fields after the column command |
| `DdrController.Controller.Serve` | src/ddr_mem.cpp:549-599 | the fields updated in place are those of the function the timing theorems are about |
| `DdrController.Controller.CommandsObeyTiming` | src/ddr_mem.cpp:470-599 | any two commands the controller has issued obey the timing rules, and column commands hit open rows |
| `DdrController.Controller.ActivationsSpread` | src/ddr_mem.cpp:568-576 | any five activations of a rank the controller has issued span at least tFAW |
| `DdrController.Controller.Refresh` | src/ddr_mem.cpp:634-656 | the two loops compute the refresh of the timing theorems, keep the controller valid and leave queues and plan alone |
| `DdrController.Controller.FindReady` | src/ddr_mem.cpp:516-543 | finds the first ready request in queue order; if none, the earliest estimate of a first-of-bank request, later than now |
| `DdrController.Controller.ServeAndTake` | src/ddr_mem.cpp:545-629 | the request is served and taken out, its answer is the end of its burst in system cycles and no earlier than now, and the controller stays consistent |
| `DdrController.Controller.TrySchedule` | src/ddr_mem.cpp:491-632 | serves the first ready request of the preferred queue exactly if there is one and the bus is near, with its answer no earlier than now; otherwise the next try is when the bus is near or at the earliest estimate; `DdrSchedule.ReadsGoFirst` says which queue that is |
| `DdrController.Controller.Put` | src/ddr_mem.cpp:345-419 | the new queues and bank queues, and whether the request is the first of its bank |
| `DdrController.Controller.MoveOverflow` | src/ddr_mem.cpp:432-450 | one request moves exactly if there is room, and the new plan; the estimate the source computes does not count, only the bus |
| `DdrController.Controller.Tick` | src/ddr_mem.cpp:426-461 | a tick of `DdrSchedule`; the returned system cycle is 0 exactly if nothing is left, else translates to the next memory cycle; a tick in the same memory cycle strictly drains the overflow queue; no request is lost |
| `DdrController.Controller.constructor` | src/ddr_mem.cpp:152-227 | the idle controller with no event is valid |
| `DdrController.Controller.Schedule` | src/ddr_mem.cpp:326-339 | the old event is annulled, an idle or new one is queued for a system cycle that translates to the wanted memory cycle |
| `DdrController.Controller.ScheduleFirst` | src/ddr_mem.cpp:321-341 | the next tick is the earlier of the old one and the first cycle the request can go |
| `DdrController.Controller.Enqueue` | src/ddr_mem.cpp:296-343 | an arrival of `DdrSchedule`: the request is pending, in the overflow queue exactly if a queue is full, and the tick is planned for when it can go if that is sooner; exactly one un-annulled event is queued |
| `DdrController.Controller.Simulate` | src/ddr_mem.cpp:114-131 | an event fires at its own memory cycle and is a tick of `DdrSchedule`, an annulled one changes no queue; afterwards exactly one un-annulled event is queued if requests are pending and none otherwise |
| `DdrController.Controller.Drain` | src/ddr_mem.cpp:114-131 | fired again and again with nothing new arriving, the queued event serves everything within the ticks of the bound |
| `DdrController.Controller.Recycle` | src/ddr_mem.cpp:463-468 | the free list holds exactly the idle events |
| `DdrUnsorted.WindowLeftUnsorted` | src/ddr_mem.cpp:506-576 | four arrivals and five ticks of a controller with DDR3-1333 timings and default settings, a write and three later reads, end with an unsorted window |
| `Barrier.Barrier.constructor` | src/barrier.h:104-119 | all threads offline is a valid barrier |
| `Barrier.Barrier.CheckRunList` | src/barrier.h:256-273 | wakes exactly the waiting threads between the old and the new turn pointer, up to the parallelism limit; the wakeup panic never fires |
| `Barrier.Barrier.Cleanup` | src/barrier.h:211-236 | exactly the threads that left go offline, with the source's assertion on their number; the others keep knowing their place |
| `Barrier.Barrier.Shuffle` | src/barrier.h:239-252 | the list is shuffled as the random numbers say and every index follows |
| `Barrier.EveryOrder` | src/barrier.h:239-252 | every order of the list comes out for some random numbers |
| `Barrier.Barrier.CheckEndPhase` | src/barrier.h:201-254 | the phase ends exactly if all had their turn, nobody runs and not all have left; every 32nd time those that left go offline; the list is shuffled exactly if not all threads can run at once |
| `Barrier.Barrier.TryWakeNext` | src/barrier.h:275-279 | afterwards somebody runs if anybody waits; a phase only ends if nobody was waiting for a turn |
| `Barrier.Barrier.Rejoin` | src/barrier.h:133-148 | a thread that left waits again at or after the turn pointer; the assertion on its index holds |
| `Barrier.Barrier.Enqueue` | src/barrier.h:126-150 | the thread waits on the list at or after the turn pointer, at the end if it was not on it |
| `Barrier.Barrier.Join` | src/barrier.h:124-164 | the list has exactly the threads that are not offline, once each, the counters are right, at most the limit runs, somebody runs if anybody waits, and a join never ends a phase |
| `Barrier.Barrier.Leave` | src/barrier.h:166-178 | somebody still runs if anybody waits; the barrier stays consistent exactly if the thread was running or knew its place |
| `Barrier.Barrier.Sync` | src/barrier.h:181-198 | the barrier stays consistent, live and lawful; unless the phase ends the thread waits and the turn pointer does not go back; from then on it knows its place as long as it is on the list |
| `BarrierHistory.SyncedWaits` | src/barrier.h:181-198 | over whole runs: a thread that has reached the barrier is not woken before the phase ends, unless it left and joined again |
| `BarrierHistory.OneTurnAPhase` | src/barrier.h:256-273 | no thread is woken twice in a phase unless it joined again |
| `BarrierHistory.EverybodyHasATurn` | src/barrier.h:201-209 | no phase ends before every thread inside has been woken in it, since it joined |
| `BarrierHistory.AllHaveArrived` | src/barrier.h:201-209 | no phase ends while a woken thread has neither reached the barrier nor left |
| `Barrier.StaleLeave` | src/barrier.h:166-178 | two joins and a leave before the first wake end in a state in which the assertion of join fails |
| `FutexMutex.StepKeepsInv` | src/locks.h:153-213 | the invariant of word, owners and sleepers survives every atomic step and system call |
| `FutexMutex.MutualExclusion` | src/locks.h:153-213 | at most one thread holds the lock, also during the two-step unlock of another |
| `FutexMutex.NoLostWakeup` | src/locks.h:173-213 | while a thread sleeps the word is 2, or an unlocker has yet to wake, or a woken thread has yet to exchange 2 in |
| `FutexMutex.NobodySleepsForever` | src/locks.h:204-213 | if every thread is idle or asleep, none is asleep and the lock is free |
| `FutexMutex.UnlockWakes` | src/locks.h:204-213 | an unlock with sleepers goes on to wake one, unless one is already on its way |
| `FutexMutex.HasWaitersMeans` | src/locks.h:215-221 | without timed locks, for an owner by compare-and-swap the flag means that another thread has exchanged 2 in and is about to sleep, asleep, or back and still without the lock; for an owner by exchange it is always set |
| `FutexMutex.FlagSinceAcquired` | src/locks.h:153-221 | for an owner by compare-and-swap, timed locks or not, the flag is set exactly if another thread has exchanged 2 in since |
| `FutexMutex.FlagBeforeSleep` | src/locks.h:165-168 | the flag is set although the only waiter has not made its system call yet |
| `FutexMutex.HasWaitersCanBeStale` | src/locks.h:189-202 | with a timed lock: the flag is set although only the owner is left |
| `FutexMutex.ExchangeLeavesFlag` | src/locks.h:165-170 | after an exchange: the flag is set although only the owner is left |
| `RwMutex.StepKeepsInv` | src/mutex.h:111-176 | no step fails, and counter, mutexes and roles stay in step |
| `RwMutex.AtMostOneWaits` | src/mutex.h:160-175 | beside a writer the counter is at most 1, and then a reader waits in `wq` |
| `RwMutex.WriterIsAlone` | src/mutex.h:111-127 | a writer excludes readers and writers |
| `RwMutex.NothingFails` | src/mutex.h:139-176 | no mutex is released while free, and the assertion in downgrade holds |
| `RwMutex.DowngradeIsAtomic` | src/mutex.h:139-176 | from the writer's last step until it reads, nobody else writes |
| `RwMutex.WaitingIsNotForever` | src/mutex.h:111-127 | if a thread waits, a thread inside the lock can go on |
| `RwMutex.ReadersLetIn` | src/mutex.h:111-119 | with nobody else inside but readers, a thread that wants to read gets in by its own steps, and they read on |
| `Lookahead.GetMaxMarginalUtility` | src/lookahead.cpp:38-54 | the maximum of hits per bucket and the smallest number of buckets that has it |
| `Lookahead.PickPartition` | src/lookahead.cpp:81-101 | the best bid of all allowed partitions, of the first partition and the fewest buckets that make it; none exactly if all are forbidden |
| `Lookahead.BestBidIsUnique` | src/lookahead.cpp:81-101 | there is one such bid, so the result is determined |
| `Lookahead.OneBucketIsBest` | src/lookahead.cpp:43-52 | on a convex curve no bid beats the next bucket |
| `Lookahead.GreedyStep` | src/lookahead.cpp:81-107 | on convex curves a step gives one bucket and keeps every last gain at least every next gain |
| `Lookahead.BalancedIsOptimal` | src/lookahead.cpp:68-109 | an allocation whose last gains are at least all next gains is optimal |
| `Lookahead.ComputeBestPartitioning` | src/lookahead.cpp:68-109 | terminates; the result is the minimums and a sequence of grants, each the best bid when it was made, on any curves; the assertion fails exactly if there is something to give and nobody to give it to; the exact total; on convex curves no allocation with the same total and minimums has fewer misses |
| `Lookahead.TotalIsBucketsIff` | src/lookahead.cpp:74-78 | the total is the number of buckets exactly if the minimum is 0, or there is one partition and its minimum is no more than the buckets; otherwise it is larger |
| `Lookahead.Overcommits` | src/lookahead.cpp:68-109 | two partitions with a minimum of one bucket get three out of two |

## Left out

- Coherence: `nonInclusiveHack`, forwarded reads (FWD), prefetches, `PUTX_KEEPEXCL` and network latencies; they weaken inclusion or only add cycles.
- Coherence: `sendInvalidates` visits children in index order; the state machine allows any order, `TopController` keeps the order.
- Coherence: the bottom controller is modelled by functions on one line's state, not as an object; the arrays of other lines do not enter.
- Coherence: data itself; the simulator has none, and `CoherenceData` only says where it would be.
- Coherence: several banks for one line. The bank hash in `getParentId` is any choice by line.
- Coherence: timing records and their stitching in `Cache::access`.
- FilterCache: the availability cycle of an entry, and any cycle count; process masks are a pair of process and virtual line, so that bits do not overlap.
- FilterCache: the victim is any line of the set; the order of use is kept, but least-recently-used selection is not.
- ZCache.ZArray.FreeLineTaken: a free line the last expansion finds beyond the configured number of candidates is not offered, as in the source.
- ZCache: the hash family is any function and the mask is a remainder; the replacement policy returns any candidate. `SetAssocArray` is not part of this model.
- DdrTimingProof.RankRrdIff: the condition is sufficient only if no entry of the window is more than tFAW - tRRD later than the activation; otherwise the window does not tell what dropped out of it.
- DDR: how many cycles the ticks of a run take; their number is bounded.
- DdrSchedule.TickInTime: only while nothing overflows, and until a refresh, which may make a request ready before the planned tick.
- DdrSchedule.ArrivalInTime: not for an arrival that turns the preference to writes that waited already; the source leaves the tick where it was.
- DDR: the controller holds its activation windows and bank queues as the sequences that `ActWindow.Window.AddActivation` and `IntrusiveList.Queue` are proved to compute, not as these objects.
- DDR: 64-bit overflow of cycle counts and of their product with a frequency; times are unbounded.
- DDR: address mapping, configuration, statistics, and the response latencies that are constants; which request a response belongs to is kept.
- DDR: `RequestQueue`'s free list is a bound on the length of the queue. `pop_back` of the intrusive list is not modelled.
- DDR: the simulator's own event queue; an event may fire at any moment, at the cycle it was queued for.
- Barrier: the scheduler callback at the end of a phase, and the futex call a thread sleeps in; waking is the change of state and word. The random numbers of the shuffle are any function with results in range.
- FutexMutex.HasWaitersMeans: promises a queued thread, not one in the kernel, and only to owners by compare-and-swap while nobody uses the timed lock; the description in the source does not hold beyond that.
- FutexMutex: the ticket lock and the spin count; how long a thread spins is arbitrary.
- RwMutex: its two mutexes are taken as mutexes, for which `FutexMutex` is the argument.
- Lookahead.ComputeBestPartitioning: with a minimum above the number of buckets the balance wraps as in the source, but allocations and the loop counter do not; there a minimum of one more than the buckets makes a loop endless.
- Lookahead: doubles are real numbers; the monitor is any miss curve, with misses counted in 64 bits.
- Lookahead: the smoothing and comparison of old and new partitions around the algorithm.
