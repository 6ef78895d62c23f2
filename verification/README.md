# A model of the kernel's core, with proofs

A Dafny 4.11 model of the parts of the kernel on which everything else rests, with proofs of
what they promise. `dafny verify dfyconfig.toml` checks all of it.

- **The boundary-tag heap** (`Heap*.dfy`, `BoundaryTagHeap.dfy`): the class `BlockHeap` works in
  place on one array of words that holds headers, footers and the links of the free list. Each
  method is tied to a function on an abstract heap (`HeapSpec`), whose invariant is proved over
  every run: the blocks tile the array, the list holds exactly the available blocks, no two of
  them touch. The kernel's best-of-20 `malloc`, the user library's first-fit `malloc`, `free` and
  `realloc` share the class; `realloc` is followed down to the bytes that `memcpy` moves.
- **Physical frames, address spaces and fork** (`PhysMem`, `PageTables`, `PageSteps`,
  `SharedTables`, `ForkSteps`, `ForkCosts`, `AddressSpaces`): physical memory is an array of
  frames; the list of freed frames runs through the frames themselves, directories and tables are
  frames. A ghost map gives every frame in use one role, and the words in memory must agree with
  the roles. Every call that takes frames fails exactly if fewer are left than it needs.
- **The scheduler** (`Scheduler*.dfy`): `block`, the context switch, the timer handler and the
  queue operations of running threads as a machine over cores, one instruction group at a time,
  with interrupts between any two. What holds on every run is proved of the machine, and what one
  whole call of block comes to.
- **Locks, semaphores, conditions, the barrier and the bounded buffer** (`Locks`, `Semaphores`,
  `SemaphoreRuns`, `SemaphoreCalls`, `Conditions`, `ConditionCalls`, `Barriers`, `BarrierSteps`,
  `BarrierRuns`, `BarrierCalls`, `BoundedBuffers`, `BufferCalls`, `BufferSemaphores`,
  `WideRings`): each a machine over any number of threads, interleaved at the granularity of
  single accesses and lock operations. Every run of the semaphore is proved to be a run of an
  atomic semaphore, and the bounded buffer's three counts are such atomic semaphores. What the
  machines take as one step outside their own subject is proved elsewhere: a queue operation
  under its lock in `Locks` and `IntrusiveQueue`; that a thread is queued only with its context
  saved, runs none of its own code while it is parked, and comes back only through the one that
  takes and schedules it, in `SchedulerSteps.CallbackStep` and `SchedulerSafety`
  (`OffCoreIsSaved`, `ParkedStays`, `HeldStays`).
- **Blocks, files, directories and paths** (`BlockIo`, `Ext2Files`, `Ext2Dirs`, `Ext2Paths`,
  `Ext2Lookup`): the same read is used for the disk and for the files on it. A panic or failed
  ASSERT is a result (`None`, `Fails`, `Stopped`), and so is a directory walk that never ends.
- **printf** (`PrintFields`, `Printf`, `PrintfRoundTrip`, `PrintfPieces`): the loops of the
  formatters and the character-driven state machine, proved against a grammar, and the grammar
  against what a conversion looks like when it is written.
- **The random numbers** (`RandomNumbers`), and the intrusive queue (`IntrusiveQueue`).

Where the code and what it seems to intend differ, the model follows the code:

- `malloc` computes `bytes + 3` in 32 bits: the block is large enough exactly if that does not
  wrap (`HeapShape.RequestHoldsBytes`).
- `block` returns with `no_preempt` set if and only if it was a `yield` that found nothing ready
  (`SchedulerSafety.FlagAfterBlock`); the timer then passes the thread over (`YieldAlone`).
- For any number of threads, the index arithmetic of the bounded buffer is safe if and only if
  there are at most 2^31 slots (`WideRings.SafeExactlyUpToHalf`). This bounds the arithmetic
  alone: the kernel's heap has 5 MB (kernel/init.cc:36-38), so `new T[N]` panics long before.
- Where any thread may wait and notify, the ASSERTs of the condition variable hold on every run if
  and only if all threads come with interrupts on, or no other is there to wake a waiter
  (`Conditions.AssertsHoldExactly`).
- The barrier works if and only if its count is at least 1 (`BarrierRuns.WorksExactlyFromOne`),
  and never leaves all threads asleep if and only if there are at least that many
  (`BarrierCalls.NeverAllAsleepExactly`).
- `fork` copies every private page if and only if memory is less than 2 GB or the parent has
  nothing mapped in the first 4 MB from 0x80000000 on (`ForkSteps.ForkIsExact`); with exactly
  2 GB a page mapped there is absent in the child (`ForkSteps.SkippedPageIsAbsent`).
- A number has the expected length if and only if zero padding does not meet a precision that is
  longer than the digits and shorter than the width (`PrintFields.IntLength`); the precision of
  `%s` cuts off the padding too (`PrintFields.StrLength`).
- printf's output passes its limit if and only if a conversion is reached that is longer than the
  room left (`Printf.PassesTheLimit`); `%9d` with a limit of 1 puts out nine characters
  (`Printf.NineForOne`).
- `%p` takes the address as signed: it reads back as the address if and only if that is below
  2 GB (`PrintfRoundTrip.PointerReadsBack`).
- The constructor of `Random` misses two seeds (`RandomNumbers.WSticksForTwoSeeds`).

## Model

| member | source | states |
|---|---|---|
| BoundaryTagHeap.BlockHeap.constructor | kernel/heap.cc:126-138 | initialisation makes the heap of one available block of `len - 4` words between two taken ones, for any `len` of 8 or more |
| BoundaryTagHeap.BlockHeap.Remove | kernel/heap.cc:85-99 | unlinking the k-th block leaves the list without it, back links included, and changes only links of listed blocks |
| BoundaryTagHeap.BlockHeap.MakeAvail | kernel/heap.cc:101-110 | the block gets equal header and footer and becomes the head of the list; outside it only links of listed blocks change |
| BoundaryTagHeap.BlockHeap.MakeTaken | kernel/heap.cc:112-115 | header and footer are the negated size, and no other word changes |
| BoundaryTagHeap.BlockHeap.FindBest | kernel/heap.cc:152-174 | the bounded search ends and finds a smallest block among the first 20 fitting ones in list order, the first such; 0 exactly if none fits |
| BoundaryTagHeap.BlockHeap.FindFirst | test.dir/sbin/heap.c:132-156 | the user's search ends and finds the first fitting block of the list, 0 exactly if there is none |
| BoundaryTagHeap.BlockHeap.TakeFrom | kernel/heap.cc:176-186 | the words afterwards represent the abstract heap with the block carved, the rest kept available if it has 4 words or more; no payload of a taken block changes |
| BoundaryTagHeap.BlockHeap.Malloc | kernel/heap.cc:140-189 | null exactly if no available block of 4 words or more has room for the bytes between its tags (if `bytes + 3` wraps: exactly if no block is available), and then nothing changes; otherwise a best fit of the first 20 is allocated and every live payload keeps its words |
| BoundaryTagHeap.BlockHeap.MallocFirstFit | test.dir/sbin/heap.c:125-161 | the same for the user's first fit, in list order |
| BoundaryTagHeap.BlockHeap.Free | kernel/heap.cc:191-222 | a live block is released and joined with both neighbours; null, the base pointer and a block not taken change nothing; every other live payload keeps its words |
| BoundaryTagHeap.BlockHeap.Store | kernel/heap.cc:185-185 | a program that writes inside a live payload cannot harm the heap |
| BoundaryTagHeap.BlockHeap.Realloc | test.dir/sbin/heap.c:193-218 | on success the first fit is allocated, the old block released, the first bytes up to the smaller size are the same, and every other live payload is kept; null exactly if no block has room, and then the old block is released all the same; for a null pointer it is malloc |
| HeapSteps.AllocatedBlock | kernel/heap.cc:176-188 | the block returned holds the request (if `bytes + 3` did not wrap) and its words are disjoint from every block that was live before |
| HeapSteps.SearchDone | kernel/heap.cc:158-173 | what the loop knows when it stops, at the 20th fit or at the end of the list, is the best-fit property |
| HeapSteps.OldAndNew | test.dir/sbin/heap.c:208-214 | realloc's old and new blocks are both live and disjoint, and the bytes copied fit both |
| HeapSteps.MoveKeepsOthers | test.dir/sbin/heap.c:210-217 | no other live block's payload is changed by the allocation, the copy and the release together |
| HeapBytes.MovedBytes | test.dir/sbin/heap.c:208-217 | the first min(newSize, old payload) bytes of the new block are those of the old one, through malloc, memcpy and free |
| HeapBytes.SpliceBytes | test.dir/sbin/heap.c:212-213 | a copy that ends inside a word changes exactly its leading bytes |
| HeapMemory.CarveRepresents | kernel/heap.cc:176-186 | the words written by an allocation represent the abstract heap after it |
| HeapMemory.ReleaseRepresents | kernel/heap.cc:205-221 | the words written by a release represent the abstract heap after it |
| HeapLemmas.InitialInv | kernel/heap.cc:132-136 | the initial heap satisfies the invariant |
| HeapLemmas.CarveKeepsInv | kernel/heap.cc:176-186 | allocation keeps the invariant: tiling, sizes of at least 4 words for available blocks, a list of exactly the available blocks without repeats, no two available neighbours |
| HeapLemmas.ReleaseKeepsInv | kernel/heap.cc:205-221 | so does release, in all four cases of its neighbours |
| HeapLemmas.NeighboursExist | kernel/heap.cc:61-67 | every live block but the two end ones has exactly one left and one right neighbour, so `left` and `right` always land on headers |
| HeapShape.WalkMeetsEveryBlock | kernel/heap.cc:65-67 | following `right` from a block meets every later block once, in address order |
| HeapShape.WalkSumsToLength | kernel/heap.cc:126-136 | the block sizes always add up to `len` |
| HeapShape.FewerAvailableThanTaken | kernel/heap.cc:210-221 | coalescing is complete: available blocks number at most taken blocks minus one |
| HeapShape.TakenDeterminesBlocks | kernel/heap.cc:191-222 | the taken blocks determine all blocks, whatever the calls that led to them |
| HeapShape.EmptyHeapIsOneBlock | kernel/heap.cc:126-138 | with only the two end blocks taken, the heap is the initial one, list included |
| HeapShape.CarveTakes | kernel/heap.cc:176-186 | an allocation takes one block of the requested words or at most 3 more, and no other |
| HeapShape.ReleaseGives | kernel/heap.cc:205-221 | a release gives up exactly the block freed |
| HeapShape.FreeUndoesMalloc | kernel/heap.cc:176-222 | freeing the block just cut restores every block boundary |
| HeapShape.ReleasesCommute | kernel/heap.cc:191-222 | two releases give the same blocks in either order |
| HeapShape.RequestHoldsBytes | kernel/heap.cc:145-146 | the computed block holds the bytes if and only if `bytes + 3` does not wrap |
| HeapShape.RequestIsLeast | kernel/heap.cc:145-146 | no smaller block would do: a request takes the fewest words, four or more, with room for the bytes between the tags; four if `bytes + 3` wraps |
| HeapShape.FitsWhereRoom | kernel/heap.cc:145-174 | the search finds nothing exactly when no available block has room for the bytes |
| HeapShape.RunKeepsInv | kernel/heap.cc:126-222 | every heap of every run of allocations and releases satisfies the invariant |
| PhysMem.Frames.constructor | kernel/physmem.cc:54-63 | nothing handed out, everything from `start` to `start + size` available |
| PhysMem.Frames.AllocFrame | kernel/physmem.cc:20-41 | an aligned, zeroed frame inside the range that was not in use, from the list first; no other frame changes; a panic exactly when list and range are exhausted, and otherwise one frame less is left |
| PhysMem.Frames.DeallocFrame | kernel/physmem.cc:43-51 | the frame becomes the head of the list, only its first word changes |
| PhysMem.FramesAreConserved | kernel/physmem.cc:16-51 | frames in use, on the list and never handed out always add up to the frames given |
| PhysMem.Unlisted | kernel/physmem.cc:12-16 | writes to frames in use cannot damage the list stored in the free ones |
| AddressSpaces.AddressSpaces.Map | kernel/vmm.cc:19-29 | one entry of one table is set, in a new zeroed table if there was none; no other word of memory changes; a panic exactly if a table is needed and no frame is left |
| AddressSpaces.AddressSpaces.MapPage | kernel/vmm.cc:19-29 | on a private page: exactly that page of that directory changes its translation, exactly that entry has got a table, and a panic comes exactly if the table it needs cannot be had |
| AddressSpaces.AddressSpaces.Unmap | kernel/vmm.cc:31-43 | exactly that page becomes absent, and its frame, if it had one, is no longer in use |
| AddressSpaces.AddressSpaces.MakePd | kernel/vmm.cc:45-57 | the new space has the shared low tables, the two APIC pages and nothing else; every other space is as before; a panic exactly if fewer frames are left than a directory and the one or two tables of the APIC pages |
| AddressSpaces.AddressSpaces.DeletePd | kernel/vmm.cc:59-65 | exactly the private tables and the directory are given back, leaf frames stay in use, and every other space translates as before |
| AddressSpaces.AddressSpaces.GlobalInit | kernel/vmm.cc:70-79 | the shared directory is built of shared tables that map memory below `memSize` to itself, page 0 excepted; a panic exactly if fewer frames are left than the directory and its shared tables |
| AddressSpaces.AddressSpaces.PageFault | kernel/vmm.cc:93-110 | a fault from 2 GB up gets a zeroed frame that was not in use, at that page of that space only; a panic for want of frames exactly if fewer are left than one, and one more if the table is absent; below 2 GB nothing changes and the kernel panics |
| AddressSpaces.AddressSpaces.Write | kernel/vmm.cc:93-107 | a program's store to a page of its own changes one word of that page's frame: no translation of any space changes, and no other private page of any space shows anything else |
| AddressSpaces.AddressSpaces.ForkPage | kernel/sys.cc:101-121 | the body of fork's inner loop settles one page of the child and takes the frames it needs; it fails only if the frames left at the start are fewer than the whole fork takes |
| AddressSpaces.AddressSpaces.Fork | kernel/sys.cc:91-123 | the copy loops give the child, from `treeStart` up, a copy of each page of the parent and nothing else, and no other space changes; they fail exactly if fewer frames are left than pages to copy and tables the child lacks for them; all private pages are copied exactly under the condition of ForkSteps.ForkIsExact |
| PageTables.TablesDisjoint | kernel/vmm.cc:23-26 | private tables of different entries or directories are different frames |
| PageTables.PageOwnsFrame | kernel/vmm.cc:19-29 | a mapped private page is an APIC page mapped to itself or owns its frame |
| PageTables.LeavesDisjoint | kernel/vmm.cc:93-107 | no frame is mapped at two pages, in one space or in two, APIC pages excepted |
| PageTables.LowMemoryShared | kernel/vmm.cc:45-51 | below 2 GB every space sees the same identity mapping, at every moment |
| PageSteps.MappedKeeps | kernel/vmm.cc:19-29 | the ownership invariant survives a map, with a new table or without |
| PageSteps.SetPageKeeps | kernel/vmm.cc:27-28 | so it does when one entry of a private table is set or cleared |
| PageSteps.AddTableKeeps | kernel/vmm.cc:23-26 | and when a zeroed frame becomes a private table: no translation changes |
| PageSteps.MakeDirKeeps | kernel/vmm.cc:45-51 | and when a frame becomes a directory by copying the shared entries |
| PageSteps.DropDirKeeps | kernel/vmm.cc:59-65 | and when a directory and its private tables are given back |
| SharedTables.ExtendKeeps | kernel/vmm.cc:74-76 | one turn of the loop of global_init maps one page more of low memory |
| SharedTables.RoundedUp | kernel/vmm.cc:48-51 | the entries make_pd copies are exactly those global_init has filled |
| SharedTables.LowMemoryDone | kernel/vmm.cc:74-76 | when the loop ends, low memory is mapped and exactly the shared tables have been taken |
| ForkSteps.ForkIsExact | kernel/sys.cc:91-123 | fork makes every private page of the child what it should be if and only if memory is less than 2 GB or the parent has no page but APIC pages mapped in directory entry 512 |
| ForkSteps.SkippedPageIsAbsent | kernel/sys.cc:94-95 | with exactly 2 GB, a mapped page of the parent in directory entry 512 is absent in the child |
| ForkSteps.ForkOnePage | kernel/sys.cc:101-121 | one page settled keeps all the pages settled before |
| ForkSteps.ForkedSpace | kernel/sys.cc:91-123 | afterwards the parent is unchanged, the child has a page exactly where the parent has one, with equal contents, in a frame not in use before, and no frame twice |
| ForkCosts.OneCopied | kernel/sys.cc:115-120 | a copied page costs one frame, and one more exactly if its table is not there yet |
| ForkCosts.ForkEnds | kernel/sys.cc:91-123 | what a whole fork takes is the pages it copies and the tables the child lacked for them |
| SchedulerSteps.StepKeeps | kernel/threads.h:87-122 | every event of every core keeps the invariant on places, flags and saved contexts |
| SchedulerSteps.NeverBroken | kernel/threads.h:104-111 | no ASSERT of block fails, no switch goes to a thread without a saved context, and the timer never preempts inside a switch |
| SchedulerSteps.SwitchStep | kernel/context.s:55-62 | at the switch of stacks the core takes the target's stack, the target's place becomes the core and the source's place transit, and the invariant, saved contexts included, is kept |
| SchedulerSteps.CallbackStep | kernel/context.s:74-82 | the callback moves the source from transit to the one queue its call names (the ready queue, the zombies or its wait queue), nowhere else, and keeps the invariant |
| SchedulerSteps.FlagStage | kernel/context.s:46-48 | block sets the flag of its caller, then of the target; the switch clears both, with interrupts off; no other thread's flag changes |
| SchedulerSteps.SaveStep | kernel/context.s:9-19 | the context saved is that of the thread whose stack is in use, which had none saved, with its interrupt flag; no other context changes |
| SchedulerSafety.RunIsSafe | kernel/threads.h:87-122 | on every run, with any number of cores and threads, timer interrupts anywhere and threads that block while they hold others, nothing breaks and the invariant holds |
| SchedulerSafety.OnePlace | kernel/threads.cc:39-51 | every existing thread is in exactly one place: one core, the ready queue, one wait queue, the zombies, in the hand of one thread or in transit |
| SchedulerSafety.NoGhosts | kernel/threads.cc:39-45 | no queue or core holds a deleted thread |
| SchedulerSafety.OneStackEach | kernel/threads.h:118-121 | no two cores use one stack |
| SchedulerSafety.OffCoreIsSaved | kernel/threads.h:116-121 | a thread that can be picked, woken or deleted has a saved context, and no core uses its stack or is about to |
| SchedulerSafety.CurrentIsRight | kernel/threads.cc:22-27 | activeThreads names the thread whose stack is in use, exactly outside the window between its update and the switch |
| SchedulerSafety.IdleStaysHome | kernel/threads.h:104-111 | an idle thread never leaves its core and searches with interrupts on |
| SchedulerSafety.TimerIsHarmlessInBlock | kernel/pit.cc:138-148 | from the first flag to the last instruction of a switch a timer interrupt changes nothing |
| SchedulerSafety.FlagAfterBlock | kernel/threads.h:99-121 | block returns with no_preempt set if and only if it was a yield that found nothing ready; after every other return the flag is clear |
| SchedulerSafety.FlagAfterBlockOnRuns | kernel/threads.h:99-121 | the same on every run from the kernel's start |
| SchedulerSafety.YieldAlone | kernel/threads.h:99-103 | a yield that finds nothing ready does return, and the timer then passes the thread over |
| SchedulerSafety.ContextIsKept | kernel/context.s:9-16 | a saved context is handed as it was saved to the core that switches to its thread, or its thread is deleted |
| SchedulerSafety.ReadyInOrder | kernel/threads.h:100-118 | the ready queue is served in order: its first thread is the next of the core that takes it |
| SchedulerSafety.ParkedStays | kernel/semaphore.h:31-48 | a parked thread stays in its wait queue until another takes it as the first of the queue |
| SchedulerSafety.HeldStays | kernel/semaphore.h:48-56 | a thread taken from a queue stays in the hand of its holder until the holder schedules it, to the end of the ready queue |
| SchedulerSafety.DeadNeverRuns | kernel/threads.cc:106-117 | a thread that has stopped never executes again, on any run |
| SchedulerFlags.ReturnsAsEntered | kernel/context.s:87-87 | on every run, when a core leaves block, its thread has the interrupt flag and is in the place (timer handler or not) with which that very thread entered block, through a switch or by a yield that returns at once; a new thread starts with interrupts on |
| SchedulerFlags.StepNoted | kernel/context.s:9-87 | what block, the switch and the saved contexts know of a thread's flag is what it entered block with, after every event |
| SchedulerSwitch.BlockSwitches | kernel/threads.h:87-122 | a whole call of block without interference: the core runs the first ready thread (or its idle thread) as that one was switched out, the caller is saved as it called and is last in the queue its call names, both flags are clear, and nothing else has changed |
| SchedulerSwitch.BlockNeverSticks | kernel/threads.h:87-122 | inside block there is always a next step |
| SchedulerSwitch.TimerPreempts | kernel/pit.cc:138-148 | the timer preempts a running thread exactly if interrupts are on, the thread is not an idle one and its no_preempt is clear; it then yields inside the handler with interrupts off |
| SchedulerSwitch.HandlerEnds | kernel/pit.cc:138-148 | the end of the timer handler turns interrupts on again and goes on with the thread |
| SchedulerSwitch.QueueEvents | kernel/queue.h:23-45 | a running thread takes from a wait queue or the zombies exactly if there is a thread in it, and schedules exactly what it holds; each moves the first of one queue to the end of another place, and nothing else |
| SchedulerSwitch.ThreadsComeAndGo | kernel/threads.h:124-132 | a thread can always be made: it is new, held by its maker, with interrupts on and its flag clear; exactly the zombies in hand can be deleted |
| SchedulerSwitch.BlockIsCalled | kernel/threads.h:87-97 | block can be called by every running thread, and turns interrupts off first; an idle thread stops only, with interrupts on |
| Locks.OneAtATime | kernel/atomic.h:199-232 | at most one core has the lock, with its interrupts off, and a taken lock has an owner |
| Locks.FlagIsRestored | kernel/atomic.h:227-231 | unlock gives back the interrupt flag that lock was called with, whoever used the lock in between |
| Locks.SpinsWithItsFlag | kernel/atomic.h:214-225 | between attempts a spinning core runs with its own flag |
| Locks.FreeLockIsTaken | kernel/atomic.h:214-225 | a call of lock that finds the lock free takes it, with interrupts off and the caller's flag remembered |
| Locks.TakenLockIsSpunOn | kernel/atomic.h:214-225 | an attempt that finds it taken changes nothing |
| Locks.UnlockFrees | kernel/atomic.h:227-231 | a call of unlock frees the lock and restores the flag |
| Locks.OwnerCanGo | kernel/atomic.h:199-232 | a taken lock has an owner that can always go on |
| IntrusiveQueue.Queue.Add | kernel/queue.h:23-32 | the node becomes the last of the chain, no other link but the old last one's changes |
| IntrusiveQueue.Queue.Remove | kernel/queue.h:34-45 | the first of the chain, or null exactly if it is empty |
| IntrusiveQueue.Queue.RemoveAll | kernel/queue.h:47-53 | the whole chain in order, and an empty queue |
| IntrusiveQueue.ChainIsUnique | kernel/queue.h:6-10 | the links determine the queue |
| Semaphores.StepKeeps | kernel/semaphore.h:19-57 | every step of every thread in down and up keeps the invariant |
| Semaphores.HandOffStep | kernel/semaphore.h:47-56 | with a waiter, up hands the unit to the first in line, who leaves the queue, without touching the count, and keeps the invariant |
| SemaphoreRuns.UnitsAreConserved | kernel/semaphore.h:19-57 | initial value plus ups is the count plus the granted downs, hand-offs included |
| SemaphoreRuns.FirstComeFirstServed | kernel/semaphore.h:31-48 | nobody waits while the count is positive; the queue is exactly the sleeping threads; hand-offs follow the order of queueing |
| SemaphoreRuns.PoppedIsScheduled | kernel/semaphore.h:48-56 | a popped thread is held by exactly one up, which schedules it |
| SemaphoreRuns.LockExcludes | kernel/semaphore.h:22-27 | the sections under the semaphore's lock exclude one another and run with interrupts off |
| SemaphoreRuns.FlagIsRestored | kernel/semaphore.h:40-41 | down and up return with the interrupt flag they were called with, blocked or not |
| SemaphoreRuns.AtMostInit | kernel/blocking_lock.h:8-15 | a semaphore of n admits n threads; of 1, one: BlockingLock excludes |
| SemaphoreRuns.StepIsAtomic | kernel/semaphore.h:19-57 | each step of the implementation is a few steps of an atomic semaphore, and down returns only once its unit was taken |
| SemaphoreRuns.RunIsAtomic | kernel/semaphore.h:19-57 | every run of the implementation is a run of the atomic semaphore |
| SemaphoreCalls.StepHappens | kernel/semaphore.h:19-57 | a thread inside down or up has a next step exactly unless it sleeps or is about to be scheduled by the up that popped it |
| SemaphoreCalls.SomeoneMoves | kernel/semaphore.h:19-57 | no deadlock: as long as some thread inside does not sleep, some thread gets on |
| SemaphoreCalls.DownTakes | kernel/semaphore.h:22-30 | a down that finds a unit takes it and returns, the lock free and its flag as before |
| SemaphoreCalls.DownParks | kernel/semaphore.h:31-38 | a down that finds none sleeps, last in the queue, and leaves the lock free |
| SemaphoreCalls.UpCounts | kernel/semaphore.h:43-57 | an up that finds nobody waiting counts the unit |
| SemaphoreCalls.UpHandsOver | kernel/semaphore.h:43-57 | an up that finds somebody waiting gives the unit to the first in line, who is scheduled, and leaves the count alone |
| SemaphoreCalls.ScheduledReturns | kernel/semaphore.h:38-41 | a thread that was scheduled returns from down with the flag of its call |
| BoundedBuffers.StepKeeps | kernel/bb.h:25-44 | with at most 2^31 slots every step of put and get keeps the invariant, divides by a size that is not 0 and stays in the array |
| BoundedBuffers.FirstInFirstOut | kernel/bb.h:25-44 | the values taken out are a prefix of the values put in, in the same order; n, the number still in the ring, is between 0 and N |
| BoundedBuffers.SlotsAreConserved | kernel/bb.h:25-44 | the two counts and the operations under way always add up to N |
| BoundedBuffers.NoOverwrite | kernel/bb.h:28-28 | the slot a put stores into holds no value still to be read |
| BoundedBuffers.GetReturnsNext | kernel/bb.h:38-40 | what a get takes out is the next value in line |
| BoundedBuffers.OneAtATime | kernel/bb.h:27-30 | at most one thread is between lock.down and lock.up |
| BoundedBuffers.SlotIsExact | kernel/bb.h:28-28 | the 32-bit sum in the slot index is exact for every position if and only if N is at most 2^31 |
| BufferCalls.StepHappens | kernel/bb.h:25-44 | a thread inside put or get has a next step exactly unless the semaphore it has come to has no unit |
| BufferCalls.StuckOnlyOnContents | kernel/bb.h:25-44 | when no thread can go on, each inside put waits because the buffer is full and each inside get because it is empty |
| BufferCalls.PutAlone | kernel/bb.h:25-33 | a put with room stores its value at the first free place, counts it and turns one empty unit into a full one |
| BufferCalls.GetAlone | kernel/bb.h:35-44 | a get with a value there takes the next in line and turns one full unit into an empty one |
| BufferSemaphores.BufferUsesAtomic | kernel/bb.h:25-44 | each step of the buffer is at most one operation of each of its three semaphores, and one the atomic semaphore allows |
| BufferSemaphores.BufferRunsAtomic | kernel/bb.h:25-44 | every run of the buffer is, for each of its three semaphores, a run of the atomic semaphore |
| WideRings.SafeExactlyUpToHalf | kernel/bb.h:25-44 | for any number of producers and consumers, if there are any: no run brings any thread to overwrite an unread value if and only if N is at most 2^31 |
| Conditions.NoSignalWasted | kernel/condition.h:98-112 | a thread asleep while the lock is free has seen no notify since it let go of it, but those that woke as many others as their limit allowed |
| Conditions.WokenInOrder | kernel/condition.h:74-86 | the sleeping threads are exactly the queue, woken in the order in which they queued |
| Conditions.EarlySignalIsSeen | kernel/condition.h:74-84 | a signal that comes before the thread is queued keeps it from sleeping |
| Conditions.RunKeeps | kernel/condition.h:56-112 | in a run whose callers of wait have interrupts on, no ASSERT on the lock, the epochs or the interrupt flag fails, and no callback turns interrupts on; the flags of the other threads are arbitrary |
| Conditions.AssertsHoldExactly | kernel/condition.h:59-92 | when any thread may wait and notify, every ASSERT holds on every run if and only if all threads come with interrupts on, or there is at most one thread |
| ConditionCalls.StepHappens | kernel/condition.h:56-112 | a thread waits exactly while it sleeps, or for the lock |
| ConditionCalls.SomeoneMoves | kernel/condition.h:56-112 | no deadlock: as long as some thread does not sleep, some thread gets on |
| ConditionCalls.WaitSleeps | kernel/condition.h:56-78 | a wait without a notify in between sleeps, last in the queue, with the lock free and interrupts on |
| ConditionCalls.MissedReturns | kernel/condition.h:79-83 | with one in between it does not sleep |
| ConditionCalls.WokenRelocks | kernel/condition.h:87-89 | a thread that was woken gets the lock back as soon as it is free |
| ConditionCalls.NotifyWakes | kernel/condition.h:98-112 | notify wakes exactly the first `limit` threads of the queue, all if there are fewer, moves the epoch on by one and keeps the lock |
| BarrierSteps.StepKeeps | kernel/barrier.h:48-67 | every step of sync, wait, notifyAll and the callback keeps the invariant |
| BarrierSteps.NeverBroken | kernel/condition.h:59-92 | no ASSERT of sync or wait fails, and no callback turns interrupts on |
| BarrierRuns.NobodyLeavesEarly | kernel/barrier.h:48-67 | no thread leaves round r before the initial count of distinct threads arrived in it |
| BarrierRuns.CountIsMissing | kernel/barrier.h:53-59 | initial_count minus count is the number of distinct threads inside the current epoch, and every finished round had exactly initial_count |
| BarrierRuns.NoLostWakeup | kernel/barrier.h:56-64 | while the lock is free every queued thread is of the current round, that round is not complete, and the two epochs are equal |
| BarrierRuns.WokenIsReleased | kernel/barrier.h:61-63 | a thread that wakes finds its round over: one wait is enough |
| BarrierRuns.InterruptsAreBack | kernel/barrier.h:48-67 | sync returns with interrupts on, as it was called |
| BarrierRuns.WorksExactlyFromOne | kernel/barrier.h:51-51 | the ASSERT on the count holds on every run if and only if the initial count is not 0 |
| BarrierCalls.StepHappens | kernel/barrier.h:48-67 | a thread waits exactly while it sleeps, or for the lock |
| BarrierCalls.NeverAllAsleepExactly | kernel/barrier.h:48-67 | some thread can go on after every run if and only if there are at least as many threads as the barrier counts |
| BarrierCalls.ArrivalSleeps | kernel/barrier.h:48-64 | an arrival that does not complete the round is counted and sleeps, with the lock free |
| BarrierCalls.MissedReturns | kernel/condition.h:79-83 | a thread that a signal overtook on its way to sleep does not sleep |
| BarrierCalls.WokenReturns | kernel/barrier.h:61-66 | a thread that was woken takes the lock once more, finds its round over and returns, the lock free |
| BarrierCalls.LastArrivalOpens | kernel/barrier.h:48-67 | the one that completes it begins a new round, wakes every sleeping thread and returns |
| BlockIo.Read | kernel/block_io.cc:6-33 | at most up to the end of a block: the count and exactly those bytes; -1 past the end, 0 at it |
| BlockIo.ReadAll | kernel/block_io.cc:35-47 | exactly the bytes from offset up to n or the end, the rest of the buffer unchanged; -1 exactly for n > 0 past the end; a panic exactly if one of them is in an unreadable block |
| BlockIo.ReadIsSlice | kernel/block_io.h:46-53 | what is read is a slice of the blocks laid end to end |
| Ext2Files.ReadExactly | kernel/block_io.h:55-59 | the bytes if all of them are there, a failed ASSERT otherwise |
| Ext2Files.ReadBlock | kernel/ext2.cc:138-158 | the block that the direct and singly indirect entries name, with every ASSERT and panic |
| Ext2Files.BlockIsMapped | kernel/ext2.cc:143-150 | for a file in range every block has a number, of a block on the disk |
| Ext2Files.BlockMapIs | kernel/ext2.cc:138-155 | if the indirect block holds a table of little-endian numbers, block `index` has number `direct[index]` below 12 and `table[index - 12]` from there on, up to the end of the table and of the file's sectors; every other block panics |
| Ext2Files.FileIsReadBack | kernel/ext2.cc:138-158 | a file is read back: its contents are the blocks laid down where its direct numbers and its table say, cut off at its size |
| Ext2Files.FileByte | kernel/ext2.cc:138-158 | two layers of reads make one: a byte of a file is the byte of the disk the block map names |
| Ext2Files.FileIsReadable | kernel/ext2.cc:138-158 | reads inside a file in range never panic |
| Ext2Files.ReadIsContents | kernel/ext2.cc:138-158 | what is read from a file is the slice of the disk blocks its map names, laid end to end |
| Ext2Files.ReadFile | kernel/block_io.cc:35-47 | read_all on a file in range never panics and delivers exactly the bytes from offset to the smaller of offset + n and the size of the blocks its map names; -1 past the end |
| Ext2Files.FileHoldsBytes | kernel/block_io.cc:35-47 | reading the whole file gives its contents |
| Ext2Files.EncodeDecode | kernel/ext2.h:184-189 | a little-endian number is read back from its bytes |
| Ext2Dirs.GetNode | kernel/ext2.cc:93-111 | the i-node of a number, with every ASSERT |
| Ext2Dirs.NodeIsReadBack | kernel/ext2.h:57-107 | an i-node is read back from its 128 bytes, whatever the ignored fields hold |
| Ext2Dirs.NodeIsFound | kernel/ext2.cc:93-111 | if the bytes of an i-node lie where its number points, get_node gives that i-node |
| Ext2Dirs.NodesApart | kernel/ext2.cc:96-105 | the 128 bytes of different numbers are disjoint when the groups' tables do not overlap |
| Ext2Dirs.Entries | kernel/ext2.h:178-198 | the calls made to the callback are the records of the directory in order; a failed ASSERT and an endless walk are told apart |
| Ext2Dirs.WalkMeetsEveryRecord | kernel/ext2.h:178-198 | a directory laid out as variable-length records is walked record by record, each once, to its end |
| Ext2Dirs.StrEq | kernel/libk.cc:14-24 | true exactly if the two C strings are equal |
| Ext2Dirs.NodeFind | kernel/ext2.cc:160-170 | the number of the last entry of that name, or 0 |
| Ext2Dirs.LastNamedIsLast | kernel/ext2.cc:163-167 | when several entries have the name, the last one wins |
| Ext2Dirs.NotNamed | kernel/ext2.cc:160-169 | the answer is 0 when no entry has the name |
| Ext2Dirs.EntryCount | kernel/ext2.cc:172-179 | the number of records |
| Ext2Lookup.NodesInRange | kernel/ext2.cc:93-103 | with tables on the volume and room for all numbers, get_node finds a place for exactly the numbers from 1 to the number of nodes |
| Ext2Lookup.WalkBreaks | kernel/ext2.h:178-198 | after any number of well-formed records, one that cannot be read makes the walk a panic, and one of length 0 makes it endless |
| Ext2Paths.FindPath | kernel/ext2.h:256-286 | the pass over the characters is a fold of the lookup over the components, null, panics and over-long names included |
| Ext2Paths.ComponentsOfWritten | kernel/ext2.h:260-273 | components written with any runs of slashes between, before and after them are taken apart into the same components |
| Ext2Lookup.EnterFinds | kernel/ext2.h:275-281 | a component in the directory leads to the node whose bytes lie at the number of the last record of that name |
| Ext2Lookup.EnterMisses | kernel/ext2.h:275-278 | one that is not there, or has number 0, gives the null reference |
| Ext2Lookup.EnterStops | kernel/ext2.h:270-281 | one that is too long, a node that is no directory, or a number out of range ends in a panic |
| Ext2Lookup.PathIsFollowed | kernel/ext2.h:256-286 | a path through any number of directories, each laid out as records, is followed from node to node, and goes on from the last |
| Ext2Lookup.WrittenPathIsFollowed | kernel/ext2.h:256-286 | the same for the path as it is written, with any runs of slashes |
| Ext2Lookup.MissingIsNowhere | kernel/ext2.h:262-278 | if the next component is missing the whole path gives the null reference, whatever follows |
| Ext2Lookup.FileStops | kernel/ext2.h:256-286 | a path that goes on through a node that is no directory ends in a panic |
| PrintFields.Output.FmtInt | kernel/snprintf.cc:400-488 | the five loops put out exactly the field of the value and count it |
| PrintFields.Output.FmtStr | kernel/snprintf.cc:361-396 | the three loops put out the padded string cut off at the precision |
| PrintFields.Convert | kernel/snprintf.cc:432-439 | the digits come out in reverse, are the digits of the value, and never fill the 20-character array |
| PrintFields.IntIsReadBack | kernel/snprintf.cc:400-488 | for every width, precision, flags and radix the output reads back as the value |
| PrintFields.IntLength | kernel/snprintf.cc:441-451 | its length is the larger of the width and of sign and digits if and only if there is no zero flag, or no more precision than digits, or no width beyond sign and precision |
| PrintFields.StrLength | kernel/snprintf.cc:373-395 | its length, and when the string is put out whole |
| PrintFields.CutPadded | kernel/snprintf.cc:379-395 | stopping each loop at the precision cuts off the padded string there |
| Printf.ReadMore | kernel/snprintf.cc:144-233 | one turn inside a conversion changes nothing of what the grammar still expects, and moves on |
| Printf.Dopr | kernel/snprintf.cc:112-359 | the state machine ends and puts out exactly what the grammar says the format means; its count is the characters put out, and passes the limit if and only if a conversion is reached that is longer than the room left |
| Printf.PassesTheLimit | kernel/snprintf.cc:130-133 | the exact condition for the output to pass the limit |
| Printf.RoomWhereReached | kernel/snprintf.cc:132-133 | a conversion is reached only with room for at least one character, so literals, %c and %% never pass the limit |
| Printf.NineForOne | kernel/snprintf.cc:130-246 | nine characters come out where the limit is one |
| PrintfRoundTrip.ConversionIsReadBack | kernel/snprintf.cc:144-233 | a conversion written with any flags, width, precision and modifier is read back as just that |
| PrintfRoundTrip.TextAndNumber | kernel/snprintf.cc:130-315 | text and an integer conversion come out as the text and a number that, in the radix of the conversion, reads back as the argument, signed for %d, %i and %p and as a word, of any value, for the others |
| PrintfRoundTrip.PointerReadsBack | kernel/snprintf.cc:312-315 | %p reads back as the address if and only if the address is below 2 GB |
| PrintfPieces.FormatIsPut | kernel/snprintf.cc:112-359 | a format written as text and conversions, widths and precisions given as numbers or taken from the arguments by `*`, puts out what the pieces stand for, in order: text is cut off at the limit, a conversion is not |
| PrintfPieces.DirectiveIsRead | kernel/snprintf.cc:144-233 | such a conversion is read back as what it stands for; each `*` takes an argument, the width's first |
| PrintfPieces.HashMeansNothing | kernel/snprintf.cc:159-162 | the flag `#` is read and means nothing |
| PrintfPieces.IntShape | kernel/snprintf.cc:400-488 | a number is spaces, sign, zeros, digits, spaces: the spaces on the right exactly with the minus flag and none with the zero flag, `-` for a number below 0, `+` or a space by flag, the digits in the case asked for, with no zero in front, and how many of each |
| PrintfPieces.StrShape | kernel/snprintf.cc:361-396 | a string, or `<NULL>`, with spaces on the left or, with the minus flag, on the right, as far as the limit allows |
| PrintfPieces.StringPut | kernel/snprintf.cc:306-311 | %s puts out its argument, whole if nothing pads or cuts it; a precision cuts it off |
| PrintfPieces.OthersPut | kernel/snprintf.cc:303-345 | %c puts out the character of the low byte, %% a percent sign, an unknown conversion nothing |
| PrintfPieces.WhenUndefined | kernel/snprintf.cc:235-346 | a conversion has no meaning in the model exactly if its argument is missing or of the wrong kind, is the least number in a signed conversion, or the conversion is left out |
| RandomNumbers.Random.constructor | kernel/random.h:13-22 | the two words of a seed, its four special cases included |
| RandomNumbers.Random.Next | kernel/random.h:24-29 | both words make a full multiply-with-carry step although the arithmetic has 32 bits |
| RandomNumbers.WordsAfter | kernel/random.h:13-29 | after n calls z is 36969^n times its start modulo 0x9068ffff, w 18000^n times its start modulo 0x464fffff |
| RandomNumbers.StepIsUndone | kernel/random.h:25-26 | a step below the modulus can be undone: no two words are mapped to one |
| RandomNumbers.ZNeverSticks | kernel/random.h:13-25 | for every seed z never becomes 0 or its modulus |
| RandomNumbers.WSticksForTwoSeeds | kernel/random.h:13-26 | w ever becomes 0 or its modulus if and only if the seed is 0x8c9ffffe or 0xd2effffd |
| RandomNumbers.StuckForever | kernel/random.h:25-26 | a word that is 0 or its modulus stays so |

## Left out

- The thread protocols are machines over values, not classes: they say which interleavings are
  possible, which the methods of one class could not. Liveness beyond the absence of deadlock,
  fairness and weak memory orders are not modelled; every access is sequentially consistent.
- Queue operations are single steps of the scheduler, semaphore, condition and barrier machines,
  as each runs under a lock; `entry`, `vmm_on`, the TSS and the tick count are not modelled.
- SchedulerSafety.RunIsSafe: making or deleting a thread is one step, though a thread may block
  before it, holding any number of others; an idle thread calls block with interrupts on and
  never parks, which the source asserts.
- SemaphoreRuns.UnitsAreConserved: stated while the initial value and the ups stay below 2^64,
  the width of the count.
- The epochs of `Condition` and `ReusableBarrier` are unbounded numbers; the source has 64 bits.
- BarrierRuns.InterruptsAreBack: threads call sync with interrupts on, as the ASSERT in
  `Condition::wait` demands.
- The one-shot `Barrier`, `Future` and `Shared`: simple uses of the semaphore and of atomic
  counters.
- The kernel heap's lock object, allocated at the end of `heapInit`, and `sanity`, which is the
  identity; heaps of more than 2^30 words.
- BoundaryTagHeap.BlockHeap.Free: pointers come from `malloc` (or are null or the base), as the
  source has no check for others; the panic message for a block that is not taken is not
  modelled.
- BoundaryTagHeap.BlockHeap.Realloc: the new size plus 3 does not wrap 32 bits, and the pointer
  is not the base pointer unless the new size is 0.
- Memory is at most 2 GB and the APIC pages are aligned and above it; the TLB and CR2, CR3 are
  not modelled. A panic for want of frames ends the call with `None` or `false`.
- AddressSpaces.AddressSpaces.Unmap: called on private pages only, and not on an APIC page, whose
  frame is not allocated.
- AddressSpaces.AddressSpaces.PageFault: not on an APIC page, which every space has mapped.
- PhysMem.Frames.constructor: `start` is not 0, as the address of frame 0 would be the null that
  ends the list; the kernel passes 6 MB.
- PhysMem.Frames.DeallocFrame: called on frames in use only; the source does not check.
- Device and boot code, ELF loading, system calls other than fork's copy loop.
- The disk is a total function from sectors to bytes. File holes are read as block 0, as the code
  does; double and triple indirection panic, as in the code.
- Ext2Dirs.Entries: directories of more than 2^32 - 65536 bytes, whose record offsets could pass
  2^32; so too for the members that walk a directory:
- Ext2Dirs.NodeFind: as for Entries.
- Ext2Dirs.EntryCount: as for Entries.
- Ext2Paths.FindPath: as for Entries, for every directory of the volume.
- PrintFields.Output.FmtInt: the value -2^31 in a signed conversion, whose negation overflows.
- Ext2's constructor: the superblock and the group table are given.
- Printf.Dopr: floating-point conversions, `%n` and `%w` end the model with `false`, and so does
  an argument of the wrong kind, or -2^31 for a signed conversion; widths and precisions are
  unbounded numbers.
