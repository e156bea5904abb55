# Mesosphere, modelled and proved

A Dafny model of the hardest parts of the Mesosphere kernel and of algorithms around it, with proofs of
what they promise. `dafny verify dfyconfig.toml` checks all of it.

Code that changes things step by step is a class or a method over arrays with the loops of the source, proved
against a specification; the properties of the specification are lemmas.

- **Locks and scheduling.** `LockForest.dfy` states what a forest of lock owners and waiters must satisfy, and
  `LockHandover.dfy` what giving up a lock does to it. `Threads.dfy` has the threads and the scheduler as
  objects, whose fields form such a forest (`Snap`). `LightLock.dfy` adds the tags of the light locks.
  `PriorityQueue.dfy` holds per-core, per-priority FIFOs, `QueueScan.dfy` their scans, `Scheduler.dfy` the
  choice of what every core runs, and `IntrusiveQueue.dfy` the linked lists below the FIFOs.
- **Virtual memory.** `MemoryBlocks.dfy` has the block manager, a partition of the address space that is
  proved against the properties of single addresses. `PageGroup.dfy` has page groups, and `PageTable.dfy` page
  table walks, group mapping and the search for free areas. `MemoryLayout.dfy` has the region trees.
- **Physical memory.** `PageHeap.dfy` is the allocator of blocks of several sizes, proved against the set of
  free addresses, and `MemoryManager.dfy` the pools on top of it. `Alignment.dfy` has the arithmetic.
- **Algorithms.** `Blz.dfy` (decompression in place), `Oaep.dfy` (RSA-OAEP decoding), `Format.dfy` (printing of
  integers) and `StringOps.dfy` (string routines on whole words).

Six findings about the code:

- `KPriorityQueue::ChangeCore` unlinks a migrating thread from the suggested list of the wrong core. The lists
  are right afterwards only if the thread does not migrate (`IntrusiveQueues.ChangeCoreRightIff`).
- `KMemoryBlockManager::Update` steps back from the first block when the range starts inside that block and the
  block has the wanted properties already; it works if and only if that is not so
  (`MemoryBlocks.KMemoryBlockManager.Update`). Mapping and unmapping of groups never run into this
  (`PageTables.NotTrapped`).
- The OAEP scan accepts a data block of zeros without the one that RFC 8017 demands, and differs from the RFC
  on the padding there only (`OaepFormat.SeparatorMissed`).
- `KMemoryBlockManager::CheckState` looks at the counts of the first block only if there is no other
  (`MemoryBlocks.CheckStateExample`). Its answer is exact if that block is counted right.
- `KMemoryManager::AllocatePageGroupImpl` frees, after a failure, only the part of each run in the manager of its
  first page (kern_k_memory_manager.cpp:138-145). Managers of one pool may be neighbours: the application pool is
  split in the middle of the DRAM into two regions that touch (kern_k_memory_layout.cpp:246-260), with a manager
  each (kern_k_memory_manager.cpp:46-86). A run joined across that border loses its other pages, and exactly then
  the pool is not as before (`MemoryManagers.Rollback`, `MemoryManagers.RollbackExample`).
- `KThread::Resume` of one of two requests suspends a thread that kernel code waits for, although `TrySuspend`
  refuses to (kern_k_thread.cpp:361-390); it does so exactly if another allowed request is left
  (`Threads.KThread.Resume`).

## Model

| member | source | states |
|---|---|---|
| LockForests.NoCycle | Atmosphere-libs/libmesosphere/source/kern_k_thread.cpp:454-497 | No thread waits for itself, over however many owners; so the walk of RestorePriority along the owners ends |
| LockForests.EffectivePriority | Atmosphere-libs/libmesosphere/source/kern_k_thread.cpp:454-497 | What the local repair of priorities means for a whole forest: every thread runs at the most urgent base priority among all threads that wait for it, directly or through others, itself included |
| LockForests.PrioritiesDetermined | Atmosphere-libs/libmesosphere/source/kern_k_thread.cpp:454-497 | Base priorities and owner links alone determine every effective priority |
| LockForests.InsertedOrdered | Atmosphere-libs/libmesosphere/source/kern_k_thread.cpp:417-438 | Putting a waiter in front of the first less urgent one keeps a list ordered by priority |
| LockForests.InsertionPointIsFirst | Atmosphere-libs/libmesosphere/source/kern_k_thread.cpp:418-427 | The place is in front of the first less urgent waiter and behind all others, so equals stay first-in, first-out |
| LockForests.AttachKeeps | Atmosphere-libs/libmesosphere/source/kern_k_thread.cpp:417-438 | Adding an unowned waiter that is not above the owner keeps links, order, counts of kernel waiters and absence of cycles; only what the owner inherits may be out of date |
| LockForests.DetachKeeps | Atmosphere-libs/libmesosphere/source/kern_k_thread.cpp:440-452 | Removing a waiter keeps the same, and the owner is not below the removed thread |
| LockForests.RestoreStepKeeps | Atmosphere-libs/libmesosphere/source/kern_k_thread.cpp:454-497 | One round repairs its thread and moves the only possibly outdated priority one owner up; stopping early leaves the whole forest right |
| LockForests.RestoreAllFacts | Atmosphere-libs/libmesosphere/source/kern_k_thread.cpp:454-497 | All rounds together end, restore the invariant of the whole forest, and touch nothing but priorities on the owner chain and the places of requeued waiters |
| Threads.KThread.AddWaiterImpl | Atmosphere-libs/libmesosphere/source/kern_k_thread.cpp:417-438 | Updating the fields of both threads makes the lock forest the one with the waiter attached |
| Threads.KThread.RemoveWaiterImpl | Atmosphere-libs/libmesosphere/source/kern_k_thread.cpp:440-452 | Updating the fields of both threads makes the lock forest the one with the waiter detached |
| Threads.KThread.RestoreRound | Atmosphere-libs/libmesosphere/source/kern_k_thread.cpp:454-497 | One round on the heap is one round on the forest, with the scheduler told of the change: the thread goes behind its new equals, and the running thread stays in front of its own |
| Threads.KThread.RestorePriority | Atmosphere-libs/libmesosphere/source/kern_k_thread.cpp:454-497 | From a forest in which only one thread may be out of date to one in which none is, touching only its owner chain; on a forest that is right already nothing changes. Over all rounds the running thread stays in front of its equals |
| Threads.StaysInFront | Atmosphere-libs/libmesosphere/include/mesosphere/kern_k_priority_queue.hpp:345-358 | Whoever else changes places with its priority, the thread in front of a FIFO stays there; the running one stays in front even when it changes places itself |
| Threads.KThread.AddWaiter | Atmosphere-libs/libmesosphere/source/kern_k_thread.cpp:499-503 | Keeps the invariant of the whole forest and of the scheduler, and changes nothing off the owner chain |
| Threads.KThread.RemoveWaiter | Atmosphere-libs/libmesosphere/source/kern_k_thread.cpp:505-509 | The same for a waiter that leaves |
| LockHandovers.NextOwnerIsOldest | Atmosphere-libs/libmesosphere/source/kern_k_thread.cpp:511-550 | The next owner is the most urgent waiter on the key and the first of those in the list |
| LockHandovers.HandOverKeeps | Atmosphere-libs/libmesosphere/source/kern_k_thread.cpp:518-541 | Moving one more waiter to the next owner keeps the forest except for what the old owner inherits |
| LockHandovers.HandedInOrder | Atmosphere-libs/libmesosphere/source/kern_k_thread.cpp:518-541 | Waiters that are handed over keep their order under the next owner |
| LockHandovers.NextOwnerNotAbove | Atmosphere-libs/libmesosphere/source/kern_k_thread.cpp:511-550 | The next owner does not end up above the old one, so no cycle can arise |
| LockHandovers.WholeRun | Atmosphere-libs/libmesosphere/source/kern_k_thread.cpp:511-550 | From any forest the loop runs through without an abort and hands over exactly the waiters on the key |
| LockHandovers.HandoverFinishes | Atmosphere-libs/libmesosphere/source/kern_k_thread.cpp:543-549 | The last repair leaves the next owner, its effective priority, and the waiters that stayed as they were |
| Threads.KThread.RemoveWaiterByKey | Atmosphere-libs/libmesosphere/source/kern_k_thread.cpp:511-550 | Returns the first waiter on the key and their number, moves exactly the others on that key under it in order, keeps the invariants of forest and scheduler, and keeps the running thread in front of its equals |
| Threads.KThread.SetState | Atmosphere-libs/libmesosphere/source/kern_k_thread.cpp:594-604 | Sets the state, keeps the suspend flags, and keeps the queue exactly the runnable threads; one that can run again goes behind its equals |
| Threads.KThread.RequestSuspend | Atmosphere-libs/libmesosphere/source/kern_k_thread.cpp:349-359 | Records the request; the thread is suspended now unless kernel code waits for it |
| Threads.KThread.Resume | Atmosphere-libs/libmesosphere/source/kern_k_thread.cpp:361-375 | Takes the request back and recomputes the suspend flags; while another request is left this suspends even a thread that kernel code waits for, which RequestSuspend does not do, and exactly then |
| Threads.KThread.TrySuspend | Atmosphere-libs/libmesosphere/source/kern_k_thread.cpp:377-390 | Suspends exactly when no kernel waiter is counted |
| Threads.KThread.Suspend | Atmosphere-libs/libmesosphere/source/kern_k_thread.cpp:392-403 | The raw state gets the flags that are requested and allowed |
| Threads.KThread.Continue | Atmosphere-libs/libmesosphere/source/kern_k_thread.cpp:405-415 | The raw state loses its flags, and the thread is queued again if that makes it runnable |
| Threads.KScheduler.constructor | Atmosphere-libs/libmesosphere/include/mesosphere/kern_k_priority_queue.hpp:296 | Every run starts from empty queues, in which the invariant holds while no thread can run |
| Threads.KScheduler.OnThreadStateChanged | Atmosphere-libs/libmesosphere/source/kern_k_scheduler.cpp:265-286 | After the change a thread is queued exactly when it is runnable and not suspended: once, on its active core, at its priority; it leaves its FIFOs or goes behind those that wait, and all others keep their places |
| Threads.KScheduler.OnThreadPriorityChanged | Atmosphere-libs/libmesosphere/source/kern_k_scheduler.cpp:288-297 | A queued thread leaves its FIFOs and goes behind its new equals, but in front of them on its core if it is the running one; all others keep their places, and a thread that is not queued changes nothing |
| LightLocks.KLightLock.TryLock | Atmosphere-libs/libmesosphere/include/mesosphere/kern_k_light_lock.hpp:30-48 | Takes a free lock, and otherwise marks it contended and keeps its owner |
| LightLocks.KLightLock.LockSlowPath | Atmosphere-libs/libmesosphere/source/kern_k_light_lock.cpp:20-43 | Waits exactly when the lock is still as it was seen; the waiter then sleeps and hangs off the thread in the tag, whose low bit is set, that thread goes on if it was suspended, no other thread changes its state, and every lock keeps naming its waiters' owner |
| LightLocks.KLightLock.LockSlowPathLeave | Atmosphere-libs/libmesosphere/source/kern_k_light_lock.cpp:45-53 | A thread that wakes up still listed is taken off its owner's list and nothing else, and every lock keeps naming its waiters' owner |
| LightLocks.KLightLock.Unlock | Atmosphere-libs/libmesosphere/include/mesosphere/kern_k_light_lock.hpp:50-61 | Whether or not the fast path succeeds the lock is given up, and no lock loses track of its waiters; on the slow path the first waiter can run again, on the fast path nobody's state changes |
| LightLocks.KLightLock.UnlockSlowPath | Atmosphere-libs/libmesosphere/source/kern_k_light_lock.cpp:56-88 | The tag becomes the first waiter, marked contended exactly when there are others, and all others hang off it; that waiter becomes runnable if it was waiting and keeps its suspend flags, the old owner is suspended if that is due, and no other thread changes its state |
| LightLocks.HandedTag | Atmosphere-libs/libmesosphere/source/kern_k_light_lock.cpp:61-80 | After a handover a tag keeps naming the owner of its waiters if it names the next owner and says whether there are more |
| PriorityQueues.KPriorityQueue.ChangePriority | Atmosphere-libs/libmesosphere/include/mesosphere/kern_k_priority_queue.hpp:345-358 | The queues match the placements again after a change of priority; the member is at the end of its new FIFOs, or at the front of the scheduled one if it is running, and the order of the others is kept |
| PriorityQueues.KPriorityQueue.ChangeCore | Atmosphere-libs/libmesosphere/include/mesosphere/kern_k_priority_queue.hpp:389-416 | What the migration of a queued thread should do: the queues match its new core, and exactly two lists per kind change (see Left out for the header) |
| PriorityQueues.KPriorityQueue.MoveToScheduledBack | Atmosphere-libs/libmesosphere/include/mesosphere/kern_k_priority_queue.hpp:340-343 | The thread goes behind its equals, and the new front is returned |
| QueueScans.NextInFlat | Atmosphere-libs/libmesosphere/include/mesosphere/kern_k_priority_queue.hpp:197-208 | Asking for the next member visits a core's members by priority and in FIFO order, each once |
| QueueScans.FlatDistinct | Atmosphere-libs/libmesosphere/include/mesosphere/kern_k_priority_queue.hpp:175-208 | A core's members are distinct and placed there |
| IntrusiveQueues.LinkBackRight | Atmosphere-libs/libmesosphere/include/mesosphere/kern_k_priority_queue.hpp:79-94 | Linking behind the tail appends to the list |
| IntrusiveQueues.LinkFrontRight | Atmosphere-libs/libmesosphere/include/mesosphere/kern_k_priority_queue.hpp:96-111 | Linking in front of the head prepends to the list |
| IntrusiveQueues.UnlinkRight | Atmosphere-libs/libmesosphere/include/mesosphere/kern_k_priority_queue.hpp:113-128 | Unlinking any member takes exactly it out of the list |
| IntrusiveQueues.MoveCoreRight | Atmosphere-libs/libmesosphere/include/mesosphere/kern_k_priority_queue.hpp:389-416 | With the suggested list of the new core the steps of ChangeCore move a thread from core to core |
| IntrusiveQueues.ChangeCoreRightIff | Atmosphere-libs/libmesosphere/include/mesosphere/kern_k_priority_queue.hpp:402-415 | As written, with the suggested list of the old core, they leave all lists right if and only if the two cores are the same |
| IntrusiveQueues.MigrationRefined | Atmosphere-libs/libmesosphere/include/mesosphere/kern_k_priority_queue.hpp:389-416 | For any queue that is linked up right, the repaired steps give the FIFOs that the migration of a queued thread should give, and the steps as written never do |
| IntrusiveQueues.ChangeCoreExample | Atmosphere-libs/libmesosphere/include/mesosphere/kern_k_priority_queue.hpp:402-415 | A thread moved from core 0 to core 1 ends up both scheduled and suggested on core 1 |
| Schedulers.UpdateHighestPriorityThread | Atmosphere-libs/libmesosphere/source/kern_k_scheduler.cpp:85-105 | Sets a core's choice, reports the core exactly when it changed, and stamps no thread but the one that is replaced |
| Schedulers.FewCandidates | Atmosphere-libs/libmesosphere/source/kern_k_scheduler.cpp:168-171 | Candidates are different cores other than the idle one, so the assertion on their number holds |
| Schedulers.FindSuggestion | Atmosphere-libs/libmesosphere/source/kern_k_scheduler.cpp:146-172 | The scan passes exactly the threads that are their own core's top thread, and says what it stopped at |
| Schedulers.FindCandidate | Atmosphere-libs/libmesosphere/source/kern_k_scheduler.cpp:174-190 | Finds the first candidate core with a second thread, or shows that none has one |
| Migrations.MigrationFlats | Atmosphere-libs/libmesosphere/source/kern_k_scheduler.cpp:160-164 | What every core could run after a migration: the idle core the one thread, its old core the others, the rest as before |
| Migrations.MigrationConserves | Atmosphere-libs/libmesosphere/source/kern_k_scheduler.cpp:142-195 | A core that could not be helped cannot be helped after a later migration either |
| Schedulers.HelpIdleCore | Atmosphere-libs/libmesosphere/source/kern_k_scheduler.cpp:143-194 | An idle core gets the first suggested thread that is not the top of its core or, when all are tops, the first that is not alone on its core; it gets none exactly if it is beyond help: all threads suggested for it are alone, or the first one that is not a top is behind an urgent thread; then nothing changed. Nobody is taken from behind an urgent one |
| Schedulers.FirstMovable | Atmosphere-libs/libmesosphere/source/kern_k_scheduler.cpp:146-166 | Any suggested thread after top threads only that is neither its core's top nor behind an urgent one means that the core can be helped |
| Schedulers.HelpedIff | Atmosphere-libs/libmesosphere/source/kern_k_scheduler.cpp:143-194 | There is a thread to be migrated exactly when the core is not beyond help |
| Schedulers.HelperUnique | Atmosphere-libs/libmesosphere/source/kern_k_scheduler.cpp:143-194 | No more than one thread is the one to be migrated |
| Schedulers.RunDetermined | Atmosphere-libs/libmesosphere/source/kern_k_scheduler.cpp:142-195 | The queues before and the cores that are helped determine where the rounds end |
| Migrations.MigrationKeepsAlone | Atmosphere-libs/libmesosphere/source/kern_k_scheduler.cpp:142-195 | A thread that is alone on its core stays so through later migrations, and one that has moved to an idle core is alone there |
| Migrations.MigrationKeepsSuggested | Atmosphere-libs/libmesosphere/source/kern_k_scheduler.cpp:142-195 | No migration takes a thread off the suggestions of any core but the one it goes to |
| Schedulers.StopAccounted | Atmosphere-libs/libmesosphere/source/kern_k_scheduler.cpp:151-166 | The thread that stops a scan and the urgent thread in its way share a core, so neither can have moved earlier in the call |
| Schedulers.MigrateTop | Atmosphere-libs/libmesosphere/source/kern_k_scheduler.cpp:174-190 | When all suggestions are top threads, one whose core has something else to run is migrated; nobody is exactly if all are alone on their cores |
| Schedulers.HelpIdleCores | Atmosphere-libs/libmesosphere/source/kern_k_scheduler.cpp:142-195 | Each idle core gets one round, from the lowest core up; the outcome of every round still holds at the end, later migrations included: a core that was given up still has the thread suggested that stopped its scan, and the urgent thread in its way still runs |
| Schedulers.RoundKeepsUrgentFirst | Atmosphere-libs/libmesosphere/source/kern_k_scheduler.cpp:142-195 | Over all rounds: a thread leaves its core in spite of an urgent one that stays there only if it is at least as urgent |
| Schedulers.FrontFirst | Atmosphere-libs/libmesosphere/include/mesosphere/kern_k_priority_queue.hpp:175-208 | The front of a core's queue is at least as urgent as every thread of that core |
| Schedulers.SomebodyMoved | Atmosphere-libs/libmesosphere/source/kern_k_scheduler.cpp:142-195 | A core that was idle and now runs a thread runs one that has come from another core |
| Schedulers.UpdateHighestPriorityThreadsImpl | Atmosphere-libs/libmesosphere/source/kern_k_scheduler.cpp:107-200 | Each core runs the front of its queue, no thread on two cores, the same threads are queued, every changed core is reported. The idle cores are helped one after the other from the lowest up, each with the one thread that it should get or none, and the queues end where these rounds end. A core is left idle only if every thread suggested for it is alone on its core, or one suggested for it shared its core, before the call, with an urgent thread that runs afterwards. No thread is taken from behind an urgent one, and nobody is migrated exactly when, in the state before the call, no idle core can be helped; the queues are not touched then |
| Schedulers.FindSamePriority | Atmosphere-libs/libmesosphere/source/kern_k_scheduler.cpp:320-350 | Stops at the first suggested thread of that priority that is not its core's top and either can be moved or stands back for a new front that waited longer |
| Schedulers.ScanPicks | Atmosphere-libs/libmesosphere/source/kern_k_scheduler.cpp:320-350 | The scan finds the first movable thread up to which only top threads have run later than the new front; if it finds none there is none |
| Schedulers.LongestWaiting | Atmosphere-libs/libmesosphere/source/kern_k_scheduler.cpp:320-350 | What is pulled in has last run no later than the new front; and the first suggestion that is not its core's top thread is pulled in if it has not and can be moved |
| Schedulers.SameChoice | Atmosphere-libs/libmesosphere/source/kern_k_scheduler.cpp:310-350 | Rotating the queue of a core does not change which thread is picked for it |
| Schedulers.RotateAndPull | Atmosphere-libs/libmesosphere/source/kern_k_scheduler.cpp:310-355 | The front goes to the end of its FIFO; of the threads of that priority suggested for the core the one that is picked joins at the front, and none joins exactly when none is picked; no other core loses what it runs |
| Schedulers.FindMoreUrgent | Atmosphere-libs/libmesosphere/source/kern_k_scheduler.cpp:357-383 | The first movable suggested thread that is more urgent than the best one waiting |
| Schedulers.NoneFound | Atmosphere-libs/libmesosphere/source/kern_k_scheduler.cpp:357-383 | Suggestions come in order of priority, so when the scan gives up no suggested thread that is urgent enough can be moved |
| Schedulers.PullBetter | Atmosphere-libs/libmesosphere/source/kern_k_scheduler.cpp:357-383 | Unless the best thread waiting is more urgent than the rotated priority, brings in the first suggested thread that can be moved, if it is more urgent than the best; none exactly when no such thread can be moved |
| Schedulers.RotateScheduledQueue | Atmosphere-libs/libmesosphere/source/kern_k_scheduler.cpp:310-392 | The scheduler's invariant is kept, the FIFO is the rotated one with at most two threads pulled in, and only those change core: the first suggestion of the priority that can be moved, unless the new front has waited longer, and then the first suggested one that can be moved and is more urgent than the best thread waiting, exactly if there is one. No other core's front changes, and when nobody is pulled in only the one FIFO is rotated |
| BlockPartitions.PartitionsDetermined | Atmosphere-libs/libmesosphere/source/kern_k_memory_block_manager.cpp:150-229 | Two coalesced partitions that agree at every address are the same list of blocks |
| BlockPartitions.SplitKeeps | Atmosphere-libs/libmesosphere/include/mesosphere/kern_k_memory_block.hpp:337-356 | Splitting a block, with the front going to the new one, keeps the partition and the properties of every address |
| BlockPartitions.MergedKeeps | Atmosphere-libs/libmesosphere/include/mesosphere/kern_k_memory_block.hpp:319-325 | So does merging equal neighbours |
| MemoryBlocks.KMemoryBlockManager.constructor | Atmosphere-libs/libmesosphere/source/kern_k_memory_block_manager.cpp:89-105 | One free block covers the address space |
| MemoryBlocks.KMemoryBlockManager.ChangeRange | Atmosphere-libs/libmesosphere/source/kern_k_memory_block_manager.cpp:150-200 | The first loop changes exactly the pages of the range, with at most two new blocks, and leaves unmerged pairs only inside it |
| MemoryBlocks.KMemoryBlockManager.Coalesce | Atmosphere-libs/libmesosphere/source/kern_k_memory_block_manager.cpp:202-228 | The second loop merges all that is left to merge and changes no page |
| MemoryBlocks.KMemoryBlockManager.Update | Atmosphere-libs/libmesosphere/source/kern_k_memory_block_manager.cpp:150-229 | Pages in the range get exactly the new properties, others keep theirs, blocks are conserved and the partition is coalesced again, if and only if the range does not start inside the first block with that block as requested already |
| MemoryBlocks.UpdateTrapExample | Atmosphere-libs/libmesosphere/source/kern_k_memory_block_manager.cpp:203-207 | A concrete update that fails: two free pages, the second freed again |
| MemoryBlocks.UpdateKeepsCounts | Atmosphere-libs/libmesosphere/source/kern_k_memory_block_manager.cpp:312-364 | An update leaves locked and shared blocks counted, so CheckState still passes |
| MemoryBlocks.KMemoryBlockManager.CheckState | Atmosphere-libs/libmesosphere/source/kern_k_memory_block_manager.cpp:312-364 | True exactly when blocks follow each other without gaps, no neighbours are equal, and the blocks it looks at are counted; so exact if the first block is counted |
| MemoryBlocks.CheckStateExample | Atmosphere-libs/libmesosphere/source/kern_k_memory_block_manager.cpp:325-361 | Two blocks of which the first is locked and has no lock counted pass the check |
| MemoryBlocks.LowestCongruent | Atmosphere-libs/libmesosphere/source/kern_k_memory_block_manager.cpp:131-137 | Aligning down, adding the offset and perhaps one step gives the lowest congruent address from a bound on |
| MemoryBlocks.KMemoryBlockManager.FindFreeArea | Atmosphere-libs/libmesosphere/source/kern_k_memory_block_manager.cpp:119-148 | The lowest congruent address whose pages and guard zones fit into a free block and the region; 0 when there is none |
| PageGroups.GroupsDetermined | Atmosphere-libs/libmesosphere/source/kern_k_page_group.cpp:39-61 | Groups built by AddBlock with the same pages are the same runs |
| PageGroups.KPageGroup.GetNumPages | Atmosphere-libs/libmesosphere/source/kern_k_page_group.cpp:29-37 | The number of pages in the flattened group |
| PageGroups.KPageGroup.AddBlock | Atmosphere-libs/libmesosphere/source/kern_k_page_group.cpp:39-61 | Appends exactly those pages, keeps runs maximal, and changes nothing on failure |
| PageGroups.KPageGroup.IsEquivalentTo | Atmosphere-libs/libmesosphere/source/kern_k_page_group.cpp:79-95 | Equivalence is equality of runs and, for groups built by AddBlock, of pages |
| PageTables.KPageTableBase.CheckMemoryState | Atmosphere-libs/libmesosphere/source/kern_k_page_table_base.cpp:388-440 | Succeeds exactly when every address of the range is as expected and they agree in what is not ignored |
| PageTables.KPageTableBase.BeginTraversal | Atmosphere-libs/libmesosphere/source/arch/arm64/kern_k_page_table_impl.cpp:109-165 | A lookup reports a block of some size that shows contiguous memory from the address on |
| PageTables.KPageTableBase.MakePageGroup | Atmosphere-libs/libmesosphere/source/kern_k_page_table_base.cpp:549-599 | The group lists exactly the heap pages mapped at the address; refused only if they are not all mapped to heap, and for no pages exactly if the address is not |
| PageTables.KPageTableBase.CompareRun | Atmosphere-libs/libmesosphere/source/kern_k_page_table_base.cpp:616-676 | One run of the walk is compared with the pages that come next in the group, across the borders of its runs |
| PageTables.KPageTableBase.IsValidPageGroup | Atmosphere-libs/libmesosphere/source/kern_k_page_table_base.cpp:601-688 | True exactly when the group is not empty and its pages are the heap pages mapped at the address, for any block sizes and offsets |
| PageTables.KPageTableBase.MapPageGroupImpl | Atmosphere-libs/libmesosphere/source/kern_k_page_table_base.cpp:517-547 | Maps exactly the pages of the group, or leaves the mapping as it was |
| PageTables.KPageTableBase.MapPageGroup | Atmosphere-libs/libmesosphere/source/kern_k_page_table_base.cpp:959-989 | Fails with the memory error exactly when the range is not free; on failure nothing changes; on success exactly the range changes |
| PageTables.KPageTableBase.UnmapPageGroup | Atmosphere-libs/libmesosphere/source/kern_k_page_table_base.cpp:991-1023 | Fails with the memory error exactly when state or pages do not match; on failure nothing changes; on success the range is unmapped and free |
| PageWalks.UnmapUndoesMap | Atmosphere-libs/libmesosphere/source/kern_k_page_table_base.cpp:959-1023 | Unmapping what was mapped at unmapped addresses gives the old mapping |
| PageTables.MappedPassesChecks | Atmosphere-libs/libmesosphere/source/kern_k_page_table_base.cpp:991-1010 | After a successful map the checks of the unmap hold |
| PageTables.MappableInHeap | Atmosphere-libs/libmesosphere/source/kern_k_page_table_base.cpp:517-533 | What MapPageGroup may map is heap memory, so those checks do apply |
| PageTables.UnmapAfterMap | Atmosphere-libs/libmesosphere/source/kern_k_page_table_base.cpp:959-1023 | Map then unmap restores the very same blocks and the same mapping |
| PageTables.MapThenUnmap | Atmosphere-libs/libmesosphere/source/kern_k_page_table_base.cpp:959-1023 | After a successful map the unmap never fails its checks, and if it has what it needs blocks and mapping are as before the map |
| PageTables.MakeThenCheck | Atmosphere-libs/libmesosphere/source/kern_k_page_table_base.cpp:549-688 | IsValidPageGroup accepts whatever MakePageGroup builds |
| PageTables.NotTrapped | Atmosphere-libs/libmesosphere/source/kern_k_page_table_base.cpp:980-1020 | The updates of map and unmap never meet the step back from the first block |
| PageTables.CandidateBounds | Atmosphere-libs/libmesosphere/source/kern_k_page_table_base.cpp:462-474 | A random candidate is congruent to the offset and stays in the address space |
| PageTables.KPageTableBase.TryRandom | Atmosphere-libs/libmesosphere/source/kern_k_page_table_base.cpp:464-481 | The candidate is one of those in the region, and it is returned exactly when it lies, with its guard, in one free block and in the region |
| PageTables.KPageTableBase.FindFreeArea | Atmosphere-libs/libmesosphere/source/kern_k_page_table_base.cpp:455-494 | With random addresses the first of up to eight candidates that is free, if there is one; in any case an area in one free block and in the region, and 0 only if none fits |
| FreeBlocks.HeapsDetermined | Atmosphere-libs/libmesosphere/source/kern_k_page_heap.cpp:69-123 | The free blocks of a fully merged heap are determined by the free addresses |
| FreeBlocks.FreeMeansOneBlock | Atmosphere-libs/libmesosphere/source/kern_k_page_heap.cpp:54-67 | A free aligned range lies inside one free block at least as large |
| FreeBlocks.AddedStays | Atmosphere-libs/libmesosphere/source/kern_k_page_heap.cpp:69-73 | A freed block that completes nothing may stay: the heap is still fully merged |
| FreeBlocks.SiblingsGo | Atmosphere-libs/libmesosphere/source/kern_k_page_heap.cpp:69-73 | When it completes a larger block its siblings go, and exactly the larger block is left to be freed |
| PageHeaps.PushBlockIs | Atmosphere-libs/libmesosphere/include/mesosphere/kern_k_page_heap.hpp:87-103 | Setting a bit, and clearing the siblings when all are set, is adding a block by address and returning its parent |
| PageHeaps.CoversRegion | Atmosphere-libs/libmesosphere/include/mesosphere/kern_k_page_heap.hpp:71-85 | The bitmap has a bit for every aligned block of the region |
| PageHeaps.KPageHeap.PopBlock | Atmosphere-libs/libmesosphere/include/mesosphere/kern_k_page_heap.hpp:105-116 | Takes some free block of the size, or reports 0 exactly when there is none |
| PageHeaps.KPageHeap.FreeBlock | Atmosphere-libs/libmesosphere/source/kern_k_page_heap.cpp:69-73 | Exactly the block becomes free, and the heap is fully merged again |
| PageHeaps.KPageHeap.FreeBig | Atmosphere-libs/libmesosphere/source/kern_k_page_heap.cpp:85-104 | Some block size always fits, so the assertion holds, and what is left on both sides is smaller than that size |
| PageHeaps.KPageHeap.FreeRest | Atmosphere-libs/libmesosphere/source/kern_k_page_heap.cpp:106-122 | The two loops free the rest, in aligned blocks |
| PageHeaps.KPageHeap.Free | Atmosphere-libs/libmesosphere/source/kern_k_page_heap.cpp:75-123 | Any page range becomes free, nothing else does, no page is freed twice, and the heap is fully merged |
| PageHeaps.KPageHeap.AllocateBlock | Atmosphere-libs/libmesosphere/source/kern_k_page_heap.cpp:54-67 | Takes one aligned block out of the free memory, cut from a block of the smallest size that there is; fails exactly when no aligned block of that size is free |
| PageHeaps.KPageHeap.GetNumFreePages | Atmosphere-libs/libmesosphere/source/kern_k_page_heap.cpp:44-52 | The number of free pages of the region |
| MemoryManagers.GetAlignedBlockIndex | Atmosphere-libs/libmesosphere/include/mesosphere/kern_k_page_heap.hpp:27-35 | The smallest block size that holds so many pages so aligned |
| MemoryManagers.GetBlockIndex | Atmosphere-libs/libmesosphere/include/mesosphere/kern_k_page_heap.hpp:37-44 | The largest block size that so many pages fill |
| MemoryManagers.Impl.TrackAllocationForOptimizedProcess | Atmosphere-libs/libmesosphere/source/kern_k_memory_manager.cpp:228-236 | Clears exactly the bits of the allocated pages |
| MemoryManagers.ClearedMore | Atmosphere-libs/libmesosphere/source/kern_k_memory_manager.cpp:165-168 | Tracking one more block clears the bits of its pages in its manager's map and no others in any map |
| PoolTracking.Taken | Atmosphere-libs/libmesosphere/source/kern_k_memory_manager.cpp:151-170 | A block taken from one heap joins pages that are disjoint from it |
| PoolTracking.GivenBack | Atmosphere-libs/libmesosphere/source/kern_k_memory_manager.cpp:138-145 | Giving back a run of pages that lies in one region undoes its allocation, also when regions touch |
| PoolTracking.NothingLost | Atmosphere-libs/libmesosphere/source/kern_k_memory_manager.cpp:138-145 | When only the part of each run in the region of its first page is given back, nothing is lost if and only if every run lies in one region |
| PoolTracking.StillHeld | Atmosphere-libs/libmesosphere/source/kern_k_memory_manager.cpp:138-145 | Whatever is lost makes a difference to the pool |
| PoolTracking.ApartInOne | Atmosphere-libs/libmesosphere/source/kern_k_memory_manager.cpp:147-173 | If no two regions touch, runs that have been gathered lie in one region each |
| PoolTracking.AllBack | Atmosphere-libs/libmesosphere/source/kern_k_memory_manager.cpp:138-145 | When everything is back all heaps are as before |
| PoolTracking.NothingLeft | Atmosphere-libs/libmesosphere/source/kern_k_memory_manager.cpp:147-177 | When no heap has a free page the pool had no more pages than were taken |
| MemoryManagers.DrainManager | Atmosphere-libs/libmesosphere/source/kern_k_memory_manager.cpp:151-171 | Takes blocks of one size until fewer pages are needed or none is left |
| MemoryManagers.TakePages | Atmosphere-libs/libmesosphere/source/kern_k_memory_manager.cpp:147-173 | If pages are still missing at the end, no manager has a free page |
| MemoryManagers.KeepsTurn | Atmosphere-libs/libmesosphere/source/kern_k_memory_manager.cpp:151-171 | A manager gives blocks of a size only after all that are asked before it have none left |
| MemoryManagers.Rollback | Atmosphere-libs/libmesosphere/source/kern_k_memory_manager.cpp:138-145 | Afterwards exactly the pages of every run beyond the region that it starts in are missing; so the pool is as before if and only if every run lies in one region |
| MemoryManagers.RollbackExample | Atmosphere-libs/libmesosphere/source/kern_k_memory_manager.cpp:138-145 | Two managers of a page each, next to each other: after both pages were taken and rolled back one of the two is free |
| MemoryManagers.AllocatePageGroupImpl | Atmosphere-libs/libmesosphere/source/kern_k_memory_manager.cpp:132-182 | Exactly the number of pages, disjoint, all of them free pages of the pool before, and no others leave the pool; after a failure exactly the pages of runs beyond the region that they start in are missing, so that the pool is as before if and only if every run gathered lies in one region, for which it suffices that regions do not touch; out of memory only if it had too few free pages; exactly the bits of the pages taken are cleared in the optimized-process map; on success a manager has given pages only if those asked before it, from the front or from the back, have none of the largest blocks left |
| MemoryManagers.AllocateFrom | Atmosphere-libs/libmesosphere/source/kern_k_memory_manager.cpp:108-123 | One block is taken and its tail freed again: exactly the pages asked for are gone |
| MemoryManagers.AllocateContinuous | Atmosphere-libs/libmesosphere/source/kern_k_memory_manager.cpp:90-130 | An aligned range from the first manager, in the order asked for, that has one, and fails exactly when none has; exactly the bits of that range are cleared in the optimized-process map |
| BlzFormat.DecodeEncode | Atmosphere-libs/libmesosphere/source/kern_k_initial_process_reader.cpp:43-73 | Decoding out of place gives back what any list of encoded tokens expands to |
| Blz.SegmentInBounds | Atmosphere-libs/libmesosphere/source/kern_k_initial_process_reader.cpp:55-65 | Copied segments lie in finished output and do not overlap themselves |
| Blz.CopyForward | Atmosphere-libs/libmesosphere/source/kern_k_initial_process_reader.cpp:62-65 | Under that condition the forward copy is a copy of bytes as they were before |
| Blz.OneToken | Atmosphere-libs/libmesosphere/source/kern_k_initial_process_reader.cpp:48-72 | One token of in-place decoding keeps what is left to decode equal to out-of-place decoding |
| Blz.FooterRead | Atmosphere-libs/libmesosphere/source/kern_k_initial_process_reader.cpp:30-38 | The sizes written into a footer are read back, least significant byte first |
| Blz.BlzUncompress | Atmosphere-libs/libmesosphere/source/kern_k_initial_process_reader.cpp:27-74 | In place equals out of place, in bounds, terminating, and without touching bytes behind the output; so whatever has been encoded comes out expanded |
| OaepFormat.DecodeEncode | Atmosphere-libs/libexosphere/source/se/se_oaep.cpp:68-120 | Decoding the encoding of any message that fits gives back the message, and nothing if another label is expected |
| OaepFormat.OnlyEncodings | Atmosphere-libs/libexosphere/source/se/se_oaep.cpp:68-120 | Whatever is decoded to a message is the encoding of that message under the expected label, except for a data block of zeros after the digest |
| OaepFormat.BigEndianOrder | Atmosphere-libs/libexosphere/source/se/se_oaep.cpp:29-64 | The counter goes into the hash with its most significant byte first |
| OaepFormat.SeparatorMissed | Atmosphere-libs/libexosphere/source/se/se_oaep.cpp:93-109 | A data block without the one that the standard demands is accepted if and only if it is all zeros |
| Oaep.ApplyMgf1 | Atmosphere-libs/libexosphere/source/se/se_oaep.cpp:29-64 | The chunked loop is the exclusive or with MGF1 of section B.2.1 of RFC 8017 |
| Oaep.ScanPadding | Atmosphere-libs/libexosphere/source/se/se_oaep.cpp:93-109 | The scan without branches finds the same message as the plain search |
| Oaep.TakeMasksOff | Atmosphere-libs/libexosphere/source/se/se_oaep.cpp:74-84 | Both masks come off in place: seed and data block are the unmasked ones, and the first byte stays |
| Oaep.DecodeRsaOaepSha256 | Atmosphere-libs/libexosphere/source/se/se_oaep.cpp:68-120 | Writes the decoded message, cut to the destination: for an encoding with the label its message; nothing at all when the first byte, the label digest or the byte that ends the padding is wrong |
| RegionLists.CutIs | Atmosphere-libs/libmesosphere/source/kern_k_memory_layout.cpp:50-69 | Up to three regions cover the one they replace, with the same pair for every address |
| MemoryLayouts.KMemoryRegionTree.Insert | Atmosphere-libs/libmesosphere/source/kern_k_memory_layout.cpp:20-72 | Succeeds exactly under the three checks and leaves the tree alone otherwise; inside the range type and attributes are new and pairs the same, outside nothing changes |
| MemoryLayouts.TypesGrow | Atmosphere-libs/libmesosphere/include/mesosphere/kern_k_memory_layout.hpp:194-196 | A region without a type can be given any, and no region loses a bit of its type |
| MemoryLayouts.BothInserted | Atmosphere-libs/libmesosphere/source/kern_k_memory_layout.cpp:182-186 | The same attributes put in on both sides keep the two trees linked |
| MemoryLayouts.FoundInserted | Atmosphere-libs/libmesosphere/source/kern_k_memory_layout.cpp:182-186 | The region found by type and attributes is the inserted one, so its pair address is that of the pool |
| MemoryLayouts.InsertPoolPartitionRegionIntoBothTrees | Atmosphere-libs/libmesosphere/source/kern_k_memory_layout.cpp:182-186 | Succeeds exactly when there is a pair address and both trees accept the region; the physical and the virtual tree stay linked, address by address, and the next pool can follow |
| IntegerText.DigitsRead | Atmosphere-libs/libmesosphere/source/kern_debug_log.cpp:236-242 | The digits read back give the value |
| IntegerText.DigitsAre | Atmosphere-libs/libmesosphere/source/kern_debug_log.cpp:236-242 | Digits belong to the base and have no leading zero |
| IntegerText.PrintedReadsBack | Atmosphere-libs/libmesosphere/source/kern_debug_log.cpp:226-302 | Any printed integer, with any flags, width, precision and base, reads back as its sign and value |
| IntegerText.SignAndPrefix | Atmosphere-libs/libmesosphere/source/kern_debug_log.cpp:244-287 | A minus shows exactly for negative values and a plus exactly for others with a forced sign, an empty sign is a space, and the hash flag shows the base |
| IntegerText.PrintedLength | Atmosphere-libs/libmesosphere/source/kern_debug_log.cpp:255-302 | The length is the larger of the width and the sign, prefix, zeroes and digits; precision and zero padding are met |
| DebugLog.FewDigits | Atmosphere-libs/libmesosphere/source/kern_debug_log.cpp:227-242 | No value has more digits than the buffer has room for |
| DebugLog.Printer.MakeDigits | Atmosphere-libs/libmesosphere/source/kern_debug_log.cpp:227-242 | The buffer is never exceeded and holds the digits backwards |
| DebugLog.Printer.WriteCharacter | Atmosphere-libs/libmesosphere/source/kern_debug_log.cpp:66-70 | Text beyond the destination is dropped |
| DebugLog.Printer.PrintInteger | Atmosphere-libs/libmesosphere/source/kern_debug_log.cpp:226-302 | Writes exactly the printed integer |
| DebugLog.Printer.PrintConversion | Atmosphere-libs/libmesosphere/source/kern_debug_log.cpp:174-343 | Writes exactly what the conversion letter, its flags and the argument say |
| DebugLog.ConvertedReadsBack | Atmosphere-libs/libmesosphere/source/kern_debug_log.cpp:174-343 | Every integer conversion reads back as its argument; width and precision are reached |
| DebugLog.Printer.Finish | Atmosphere-libs/libmesosphere/source/kern_debug_log.cpp:395-397 | As much of the text as fits, terminated |
| Words.DetectNullIs | Atmosphere-libs/libexosphere/source/libc/libc.c:424-437 | The null test is nonzero exactly when some byte is zero |
| Words.DetectCharIs | Atmosphere-libs/libexosphere/source/libc/libc.c:439-441 | The character test is nonzero exactly when the word has that byte |
| Words.WordsEqual | Atmosphere-libs/libexosphere/source/libc/libc.c:578-586 | Words are equal exactly when their bytes are |
| ByteStrings.CompareIs | Atmosphere-libs/libexosphere/source/libc/libc.c:545-604 | The reference comparison is zero for equal sequences only, negative exactly in dictionary order, and turns around with its arguments |
| StringOps.MovedForward | Atmosphere-libs/libexosphere/source/libc/libc.c:172-205 | Copying forward never reads a byte it has written |
| StringOps.Memmove | Atmosphere-libs/libexosphere/source/libc/libc.c:126-211 | The destination gets the old source bytes for every overlap, alignment and length, and nothing else changes |
| StringOps.Memset | Atmosphere-libs/libexosphere/source/libc/libc.c:326-384 | Exactly the range gets the byte |
| StringOps.Memchr | Atmosphere-libs/libexosphere/source/libc/libc.c:444-505 | The first occurrence, or none exactly when there is none |
| StringOps.Memcmp | Atmosphere-libs/libexosphere/source/libc/libc.c:545-604 | Equals the comparison a byte at a time |
| StringOps.Strlen | Atmosphere-libs/libexosphere/source/libc/libc.c:882-913 | Equals the length of the string a byte at a time, and reads no word beyond that of its null |
| StringOps.Strcmp | Atmosphere-libs/libexosphere/source/libc/libc.c:736-781 | Equals the comparison a byte at a time |
| StringOps.Strncmp | Atmosphere-libs/libexosphere/source/libc/libc.c:947-1007 | Equals the comparison a byte at a time of at most so many bytes, terminated or not |

## Left out

- PriorityQueues.KPriorityQueue.ChangeCore: states what the queue is meant to do. The header unlinks from the suggested list of the previous core instead (kern_k_priority_queue.hpp:403), which `IntrusiveQueues.ChangeCoreRightIff` shows to corrupt the lists on every migration; the results on the scheduler hold for a queue that keeps this contract, as one with the repaired steps does (`IntrusiveQueues.MigrationRefined`). For the header as written they hold for the calls that migrate nobody; `Schedulers.UpdateHighestPriorityThreadsImpl` and `Schedulers.RotateScheduledQueue` say which calls these are.
- Schedulers.UpdateHighestPriorityThread: the time that the replaced thread is stamped with is any number, as the clock is not modelled.
- PageTables.KPageTableBase.FindFreeArea: requires that the pages and one guard zone fit into the region, and that all random candidates lie in the address space. The source subtracts unsigned numbers without a check, and aborts on a candidate outside.
- PageTables.KPageTableBase.BeginTraversal: a table walk is any walk whose blocks agree with the mapping; table levels and entries are not modelled.
- PageTables.KPageTableBase.MapPageGroup: `Operate` may fail for want of tables when it maps and not when it unmaps what has just been mapped, as the source asserts.
- MemoryBlocks.KMemoryBlockManager.constructor: the failure for want of a first block is left out.
- MemoryBlocks.KMemoryBlockManager.Update: addresses are unbounded, so ranges that wrap around the end of the address space are not modelled.
- Blz.BlzUncompress: requires that the stream decodes, that output never catches up with unread input, and that no segment is longer than its distance; the source only audits a part of this. The buffer starts at the compressed data.
- MemoryManagers.AllocateContinuous: requires a request no larger than the largest block; the source indexes with -1 otherwise. The random choice of a block is any choice.
- MemoryManagers.AllocatePageGroupImpl: always starts with an empty group. Bits of the optimized-process map that are cleared before a failure stay cleared, as in the source and as the contract says.
- MemoryLayouts.InsertPoolPartitionRegionIntoBothTrees: requires that no region has the type and attribute of the new pool yet, so that the search finds the new one, and that the pair of the region does not reach the end of the address range.
- StringOps.Strlen, StringOps.Strcmp and StringOps.Strncmp: memory consists of whole words, because words are read beyond the null inside its word.
- Oaep.DecodeRsaOaepSha256: the buffer has the size of the key and the digest that of the hash, as the source asserts; constant time is not modelled.
- DebugLog.Printer.PrintConversion: starts after flags, width, precision and length have been parsed; the other conversions and the parsing are left out. A negation that overflows is taken as exact.
- LightLocks.KLightLock.LockSlowPath: requires that a waiter does not wait for a thread that waits for it; the kernel has no check for such a deadlock.
- Block trees, region trees and waiter lists are sequences, and their nodes values in them; allocation of nodes is a counter or a possible failure. The pointers inside trees are not modelled.
- Bitmaps of the page heap are sets of bits, without the words and summary levels they are stored in.
- Pinned threads, idle counters, scheduled counts, context switches, condition variables and CPU time: easy or decided in headers that add no harder property.
- `UpdateLock` and `SetPriorityToIdle`: they do not keep the invariants that the rest is about.
- `EnableCoreMigration`, `OnThreadAffinityMaskChanged`: affinity masks are fixed.
- `CanContain`: a parameter, as a function of range and state.
- `Open`, `Close` and reference counts of pages, cache maintenance, and everything that talks to hardware.
- The capsrv sources, the register drivers, and the other routines of `libc.c`.
