# A verified model of the kernel's core

This project models the algorithms at the centre of a Linux 0.11-style kernel in Dafny 4.11 and proves
what they are for. `dafny verify dfyconfig.toml` checks all of it.

The kernel is not preempted in kernel mode, so code between two sleeps is one atomic step. Each part is
modelled in two layers. Code that updates memory is a class whose methods run the source's loops and
assignments; each method is proved to take the state to what a specification function or relation says.
The theorems over whole runs are lemmas about those functions and relations.

| file | models |
|---|---|
| `Elevator.dfy` | the request queue: order, insertion, completion, slot search (`blk.h`, `ll_rw_blk.c`) |
| `CacheProtocol.dfy`, `BufferCache.dfy`, `CacheProgress.dfy` | the block cache as a protocol of sleeping processes, the queue and the disk (`fs/buffer.c`, `fs/bitmap.c`) |
| `BufferIndex.dfy` | hash chains, the circular free list and `buffer_init` (`fs/buffer.c`) |
| `HardDisk.dfy` | the hard-disk driver stepped by interrupts (`hd.c`) |
| `Paging.dfy`, `MemoryManager.dfy`, `CopyOnWrite.dfy` | page frames, page tables, copy-on-write and its whole runs (`mm/memory.c`) |
| `Fork.dfy` | process creation as a transaction (`kernel/fork.c`) |
| `Scheduler.dfy`, `WaitQueues.dfy` | time slices, `schedule`, `sleep_on`, `wake_up` (`kernel/sched.c`) |
| `BucketHeap.dfy`, `Kmalloc.dfy` | the bucket allocator (`lib/malloc.c`) |
| `Truncate.dfy` | release of a file's blocks (`fs/truncate.c`, `fs/bitmap.c`) |
| `InodeTable.dfy` | `iget`, `iput`, `get_empty_inode` and inodes on disk (`fs/inode.c`) |
| `Console.dfy` | video memory, scrolling and escape sequences (`console.c`) |
| `Sequences.dfy` | escape and control sequences as the bytes of a program (`console.c`) |
| `LineEditor.dfy` | ring buffers, input editing, output processing (`tty.h`, `tty_io.c`) |
| `Echoes.dfy` | what the echo of a byte and its rub-out do to the console's screen (`tty_io.c`, `console.c`) |
| `NumberFormat.dfy` | integer printing (`kernel/vsprintf.c`) |
| `Tasks.dfy`, `Lists.dfy`, `Counting.dfy`, `Arithmetic.dfy`, `Options.dfy` | shared data types and lemmas |

Where the code has a defect the model keeps it, and a lemma says exactly when it shows:

- `Elevator.ReadsGoFirst`: reads do not always go before writes, as the comment at `kernel/blk_drv/blk.h:31` has it. A
  read that is added while reads are being served goes before all waiting writes if and only if it lies above the
  request being served; `Elevator.ReadFailsExample` shows one that does not.
- `HardDisk.RetryIsRefused`: a retry of the second sector of a partition's last block is refused.
- `Console.ScrollIsExact`, `Console.ScrollDownIsExact`, `Console.WindowWraps`: three places copy pairs of cells, so
  an odd number of cells, which takes an odd number of columns, comes out wrong unless a certain cell is blank, or
  two of them where the window starts again at the beginning of the memory; `Console.ScrollFailsExample`,
  `Console.ScrollDownFailsExample` and `Console.WrapFailsExample` show it.
- `Echoes.RuboutMatchesEcho`: rubbing out a character does not always restore the screen. The condition,
  `Echoes.Undone`, fails for visible characters if the erase character is not DEL, behind the end of the line or over
  cells that are not blank; for control characters shown as `^X` it needs two blank cells in the line, so it fails in
  the last column; for control characters that are not echoed it fails if the erase character is DEL, except in the
  first column; and for most bytes from 128 to 223, which are negative and echoed like control characters, because the
  second half of the echo is invisible. `Echoes.RuboutFailsExamples` and `Echoes.RuboutFailsAtLineEnd` show three cases.
- `Sequences.StepUpGoesDown`: the cursor's coordinates are counted modulo 2^32, so a very large step up goes down;
  `Sequences.UpOnScreen` and `Sequences.DownOnScreen` are the rule below 2^31.
- `Truncate.Volume.FreeBlock`: a block held by somebody else is silently kept, with one reference too many.

The comment at `kernel/blk_drv/hd.c:21` speaks of errors per sector. The code resets the count after a good
sector only when reading; for a write the seven errors are shared by all its sectors. The model follows the code.

## Model

| member | source | states |
|---|---|---|
| Elevator.InsertKeepsOneDescent | kernel/blk_drv/ll_rw_blk.c:57-81 | inserting a new key where the elevator puts it keeps the queue free of duplicates and at most two ascending runs |
| Elevator.QueueKeepsTwoRuns | kernel/blk_drv/ll_rw_blk.c:57-81 | over every run of insertions and completions the queue is two strictly ascending IN_ORDER runs, one after the other |
| Elevator.NoStarvation | kernel/blk_drv/ll_rw_blk.c:57-81 | from the time a request is enqueued until it is served, the completed keys descend at most once, in every run |
| Elevator.BoundedBypass | kernel/blk_drv/ll_rw_blk.c:57-81 | if only keys of a finite set are ever queued, the number of requests served before a given one is at most twice the size of the set |
| Elevator.AscendingIsSweep | kernel/blk_drv/blk.h:31-39 | two requests of an ascending queue stand in it reads before writes, each kind by rising device and sector |
| Elevator.SweepIsServedInOrder | kernel/blk_drv/blk.h:31-39 | whatever is added, the requests of one sweep are served reads before writes, each kind by rising device and sector |
| Elevator.ReadsGoFirst | kernel/blk_drv/blk.h:31-39 | over every run, a read added behind a read at the head of an ascending queue is served before each waiting write if it lies above the head, and after it otherwise |
| Elevator.ReadFailsExample | kernel/blk_drv/blk.h:31-39 | a read of sector 2, added while sector 10 is read, is queued behind a write |
| Elevator.OrderKept | kernel/blk_drv/ll_rw_blk.c:57-81 | of two waiting requests the one in front is served first, over every run |
| Elevator.CurrentFieldsCompareAsBlocks | kernel/blk_drv/blk.h:36-39 | comparing the fields of requests, one of which may be half transferred, orders them as the blocks they were made for |
| Elevator.BlockDevice.FindPlace | kernel/blk_drv/ll_rw_blk.c:72-77 | the walk over the linked requests ends at the slot of the specification |
| Elevator.BlockDevice.AddRequest | kernel/blk_drv/ll_rw_blk.c:57-81 | the linked queue becomes the specified insertion of the new key, and the caller learns whether the device was idle |
| Elevator.BlockDevice.InsertRequest | kernel/blk_drv/ll_rw_blk.c:72-80 | the new request is spliced in behind the element found, all other links kept |
| Elevator.BlockDevice.EndRequest | kernel/blk_drv/blk.h:104-121 | the head leaves the queue, its slot is free, the rest stays linked in order |
| Elevator.BlockDevice.SectorDone | kernel/blk_drv/hd.c:298-305 | stepping the head's fields between its sectors does not disturb the queue |
| Elevator.FindRequestSlot | kernel/blk_drv/ll_rw_blk.c:111-131 | the highest free slot in the part open to the command, or none if that part is full |
| CacheProtocol.StepKeepsInv | fs/buffer.c:182-313 | every step, free_block's use of the cache included, of any number of processes and of the disk keeps reference counts, locks, queue and contents consistent |
| BufferCache.CacheIsTransparent | fs/buffer.c:208-313 | over every interleaving without I/O errors a block's logical content is the last data written to it, where free_block, if it throws the block's buffer away, puts it back to what the disk holds |
| BufferCache.BreadReturnsLastWrite | fs/buffer.c:290-313 | a process that holds the result of bread holds the last data written to that block |
| BufferCache.StepIsTransparent | fs/buffer.c:208-313 | claiming, evicting, submitting, transferring and releasing change no block's logical content; only a write does, and free_block, which returns a block to what the disk holds |
| BufferCache.DiscardsOnlyUnused | fs/bitmap.c:30-38 | free_block throws away a cached block only if nobody else has a reference to its buffer |
| BufferCache.SyncedDiskIsCurrent | fs/buffer.c:34-65 | for a block without dirty or locked buffer the disk itself holds the logical content |
| BufferCache.IdentityChangesOnlyWhenFree | fs/buffer.c:208-265 | a buffer is given to another block only while unreferenced, clean and unlocked |
| BufferCache.ReachableStatesAreSane | fs/buffer.c:182-313 | in every reachable state at most one buffer holds a block, the recheck after waiting succeeds, and no panic is reached |
| BufferCache.RunIsElevatorRun | kernel/blk_drv/ll_rw_blk.c:29-158 | the submissions and completions of every cache run form a legal elevator run with distinct keys |
| BufferCache.SubmittedRequestsAreServedInTime | kernel/blk_drv/ll_rw_blk.c:57-158 | whatever is submitted after a request, from its submission to its completion the disk serves at most two ascending sweeps, so at most four requests for each block of the disk |
| BufferCache.CompletedIsServed | kernel/blk_drv/blk.h:104-121 | the requests a cache run completes, in their order, are those the elevator serves |
| BufferCache.ReadsSleepOnlyBehindReads | kernel/blk_drv/ll_rw_blk.c:111-145 | a reader finds no slot only when reads occupy the third reserved for them |
| CacheProgress.SyncReachesDisk | fs/buffer.c:34-65 | over every interleaving, when sync_dev has returned and the buffer of a block is unlocked, the disk holds what the cache held at the call, for every block of the device not written meanwhile |
| CacheProgress.SubmitsWhatIsNeeded | kernel/blk_drv/ll_rw_blk.c:111-115 | a write is queued only for a dirty buffer, a read only for one that is not up to date |
| CacheProgress.MovesUnlessAsleep | fs/buffer.c:34-313 | a resumed activity moves on exactly if its buffer is unlocked, a slot of its kind is free or, in getblk, a buffer is unreferenced or has the block |
| CacheProgress.CallsAdvance | fs/buffer.c:34-313 | over every interleaving, every move of a call brings it nearer to its end, except where getblk finds its victim taken or dirty or the block cached by now |
| CacheProgress.EveryCallEnds | fs/buffer.c:34-313 | after so many moves of its own, and a fixed number for each setback, bread holds the block it was asked for and sync_dev, brelse and free_block have returned |
| CacheProgress.LostToOthers | fs/buffer.c:233-254 | left alone with the disk a getblk is set back at most once, by a victim that was dirty from the beginning |
| CacheProgress.BreadAloneEnds | fs/buffer.c:290-313 | so a bread left alone with the disk holds its block after a fixed number of moves |
| CacheProtocol.InitialIsInv | fs/buffer.c:321-357 | empty buffers and no activity satisfy the invariant |
| BufferIndex.UnlinkFreeRing | fs/buffer.c:130-138 | taking a buffer out keeps the free list a ring of the others in their order |
| BufferIndex.LinkFreeRing | fs/buffer.c:146-150 | putting a buffer back appends it at the tail of the ring |
| BufferIndex.UnlinkHashChains | fs/buffer.c:119-128 | taking a buffer out of its hash chain leaves every chain well formed and in its bucket |
| BufferIndex.LinkHashChains | fs/buffer.c:151-159 | a buffer with a device is put in front of the chain of its key and every chain stays well formed |
| BufferIndex.BufferTable.constructor | fs/buffer.c:321-357 | the table at boot: a ring of all buffers, empty chains, data blocks apart from each other, from the headers and from the hole |
| BufferIndex.BufferTable.RemoveFromQueues | fs/buffer.c:117-139 | the buffer leaves ring and chain, nothing else moves |
| BufferIndex.BufferTable.InsertIntoQueues | fs/buffer.c:144-160 | the buffer is last in the ring and, with a device, first in its chain |
| BufferIndex.BufferTable.Reuse | fs/buffer.c:255-262 | a buffer gets a new key: the index maps the new key to it and the old key to nothing, the ring is a permutation with it at the tail |
| BufferIndex.BufferTable.FindBuffer | fs/buffer.c:166-177 | the buffer with that device and block if there is one, else null |
| BufferIndex.BufferTable.PickVictim | fs/buffer.c:219-231 | the first unreferenced buffer in ring order that is least bad, none if all are referenced |
| BufferIndex.LayOutBuffers | fs/buffer.c:321-349 | the data blocks are 1K apart, behind the headers, and skip 640K-1M |
| HardDisk.SplitIsExact | kernel/blk_drv/hd.c:374-378 | the two divisions stay inside the geometry and invert to the linear sector |
| HardDisk.InterruptKeepsInv | kernel/blk_drv/hd.c:278-412 | after any interrupt: sector, count and buffer pointer describe the same untransferred rest, requests end in queue order and none is lost, a request ends well only if all its sectors agree with the disk, and a good interrupt brings it one sector on or ends it well |
| HardDisk.InterruptIsProgress | kernel/blk_drv/hd.c:278-412 | every interrupt, good or bad, strictly lowers the work left in the queue |
| HardDisk.InterruptsAreBounded | kernel/blk_drv/hd.c:278-412 | over every run the number of interrupts is bounded by the initial work and 95 for each request added |
| HardDisk.CurrentRequestEnds | kernel/blk_drv/hd.c:278-412 | the request being served ends within 95 interrupts, whatever is queued behind it |
| HardDisk.DoRequestKeeps | kernel/blk_drv/hd.c:347-412 | do_hd_request ends with an idle queue or with a command at the right place for the head request |
| HardDisk.SubmitKeepsInv | kernel/blk_drv/ll_rw_blk.c:57-81 | adding a request behind the current one, or starting an idle driver, keeps the invariant |
| HardDisk.RetryIsRefused | kernel/blk_drv/hd.c:362-365 | a request inside its partition is refused on retry if and only if one sector is done and it is the last block |
| HardDisk.RetryIsRefusedExample | kernel/blk_drv/hd.c:362-365 | a concrete read of a last block fails after a single error |
| HardDisk.Driver.DoHdRequest | kernel/blk_drv/hd.c:347-412 | the loop over requests reaches the specified state |
| HardDisk.ErrorsAreCounted | kernel/blk_drv/hd.c:278-286 | over every run without a good read, as long as the request is not ended its count has grown by at least the number of bad interrupts and is below seven |
| HardDisk.SeventhErrorEnds | kernel/blk_drv/hd.c:278-286 | over every run, the seventh bad interrupt without a good read in between ends the request being served |
| HardDisk.ManyErrorsReset | kernel/blk_drv/hd.c:278-286 | after a bad interrupt the controller is reset before anything else if and only if the request has had more than three errors, timeouts included |
| HardDisk.ResetThenRecalibrate | kernel/blk_drv/hd.c:381-393 | a reset is followed by a recalibration before the request is tried again |
| HardDisk.ReadForgetsErrors | kernel/blk_drv/hd.c:291-331 | a good first sector clears the errors of a read and keeps those of a write |
| HardDisk.Driver.HdInterrupt | kernel/system_call.s:122-151 | the pending handler runs once: the invariant holds again, all requests are accounted for in order, each ended one failed or is whole, and less work is left |
| HardDisk.Driver.AddRequest | kernel/blk_drv/ll_rw_blk.c:57-81 | the request is accounted for at its place, an idle driver starts on it, the invariant holds and at most 95 interrupts are added |
| Paging.CountsStaySmall | mm/memory.c:143-204 | a counted page's mem_map value never exceeds 63, so the byte cannot overflow |
| Paging.MappedMeansCounted | mm/memory.c:143-204 | mem_map of a mapped page is exactly the number of user entries that map it |
| Paging.SoleOwner | mm/memory.c:209-235 | a page of count 1 is mapped by one entry only |
| Paging.MemMapDetermined | mm/memory.c:75-135 | mem_map is determined by who maps what, so undoing the mappings restores it |
| Paging.CopyEntryKeepsInv | mm/memory.c:182-201 | sharing one page with the child keeps counts, protections and tables consistent |
| Paging.FreeEntryKeepsInv | mm/memory.c:118-127 | dropping one entry does too |
| Paging.CopyPageKeepsInv | mm/memory.c:218-235 | and so does giving a writer its own copy |
| MemoryManager.Manager.constructor | mm/memory.c:265-278 | exactly the pages of main memory are free at boot |
| MemoryManager.Manager.GetFreePage | mm/memory.c:51-69 | the highest free page, zeroed and counted once, or 0 if and only if there is none |
| MemoryManager.Manager.FreePageTables | mm/memory.c:100-135 | the directory entries are empty, every other entry as it was, the invariant kept |
| MemoryManager.Manager.CopyPageTables | mm/memory.c:143-204 | the child's tables are read-only copies, all other entries lose at most write permission; it fails exactly if there are fewer free pages than tables to copy, and leaves only the child's part to free |
| MemoryManager.CopyTakesTables | mm/memory.c:143-204 | of the free pages a copy takes exactly one for each table copied |
| MemoryManager.Manager.UnWpPage | mm/memory.c:209-235 | the entry becomes writable and no task's memory looks different |
| MemoryManager.Manager.UserWrite | mm/memory.c:245-254 | a write by a task other than 0 is seen by that task and by nobody else |
| MemoryManager.StoreIsPrivate | mm/memory.c:209-235 | a store through a writable entry reaches one task's memory only |
| MemoryManager.ForkCopiesView | mm/memory.c:143-204 | after a fork the child sees what the parent sees and nobody else sees a change |
| MemoryManager.ReleaseDropsView | mm/memory.c:100-135 | releasing tables removes that task's view and no other |
| CopyOnWrite.Execute | mm/memory.c:100-254 | one copy_mem, write fault, user write or free_page_tables, run by the code: what every task reads afterwards, which tables exist, when it is refused, and what running out of memory leaves |
| CopyOnWrite.AgreesOneMore | mm/memory.c:143-254 | if all views and tables agree with private copies, they do so after whatever the code does next |
| CopyOnWrite.Run | mm/memory.c:143-254 | over every list of operations, executed by the code from any consistent state, each task reads what a system copying all memory at fork would hold, and mem_map stays exact, at most 63, with writable pages mapped once |
| CopyOnWrite.CountsAreExact | mm/memory.c:143-235 | counts equal the number of mappings, stay at most 63, and a writable user entry is the only one that maps its page |
| CopyOnWrite.OthersAreNotSeen | mm/memory.c:143-254 | operations that do not set a task's page leave what it reads there alone, over every run |
| CopyOnWrite.ChildKeepsSnapshot | mm/memory.c:143-204 | a child keeps what its parent held at the fork, whatever is written elsewhere later |
| Fork.Processes.FindEmptyProcess | kernel/fork.c:165-187 | an unused positive pid after at most 65 candidates, wraparound included, and the first empty slot, or EAGAIN if and only if all are used |
| Fork.Processes.CopyMem | kernel/fork.c:22-60 | the child sees the parent's memory, or directory and mem_map are exactly as before; it succeeds exactly if there is a free page for each of the parent's tables |
| Fork.Processes.CopyProcess | kernel/fork.c:74-162 | one new runnable task with a page of its own, or task table, mem_map and directory restored exactly; EAGAIN if and only if there are fewer free pages than one for the task and one for each table |
| Fork.Processes.SysFork | kernel/system_call.s:109-120 | fork as a whole is a transaction, and fails if and only if all slots are used or there are too few free pages |
| Fork.TriedAreFew | kernel/fork.c:168-177 | no more pids are passed over than there are tasks |
| Fork.RollbackRestores | kernel/fork.c:55-58 | freeing the child's tables undoes a half-way copy, mem_map and all views included |
| Fork.ForkKeepsSane | kernel/fork.c:88-94 | the child's time slice is inside the scheduler's bound |
| Scheduler.Processor.Schedule | kernel/sched.c:54-112 | the runnable task with the largest counter, the highest-numbered one among equals, task 0 if none; counters recomputed exactly when every runnable task is out of time |
| Scheduler.Processor.DoTimer | kernel/sched.c:217-227 | a tick costs the current task one unit; only a user-mode tick at zero reschedules |
| Scheduler.RefilledIsReady | kernel/sched.c:88-109 | one recomputation suffices, so schedule never recomputes twice |
| Scheduler.RefillKeepsSane | kernel/sched.c:104-108 | no counter ever exceeds 2 * priority - 1 |
| Scheduler.SleeperApproachesBound | kernel/sched.c:104-108 | over every run in which a task sleeps, its distance from twice its priority is halved, rounding up, once for each recomputation |
| Scheduler.SleeperReachesBound | kernel/sched.c:104-108 | so after logarithmically many recomputations its counter is the largest possible, and stays there |
| Scheduler.EveryTickCounts | kernel/sched.c:54-112 | no event lengthens the wait of a runnable task, and every user tick shortens it |
| Scheduler.NoRunnableTaskStarves | kernel/sched.c:192-227 | a task that stays runnable is chosen within two epochs' summed counters of user ticks |
| Scheduler.KernelKeepsProcessor | kernel/sched.c:217-227 | ticks in kernel mode and state changes never take the processor away from the current task |
| WaitQueues.StepKeepsInv | kernel/sched.c:126-157 | sleepers always form duplicate-free stacks threaded by tmp, one open stack a queue, a woken stack having only its top runnable, and nobody sleeps outside them |
| WaitQueues.ResumerIsTop | kernel/sched.c:143-147 | only the top of a woken stack can come back from schedule |
| WaitQueues.LastInFirstOut | kernel/sched.c:126-157 | over every run a woken stack only shrinks from the top: each sleeper returns exactly once, last in first out, the others still wait |
| WaitQueues.WakeUpWakesAll | kernel/sched.c:126-157 | one wake_up makes the top of the queue's stack runnable; every sleeper of the stack has come back or still waits in its place, and all have come back within one longest wait for each, if a task inside sleep_on runs in kernel mode |
| WaitQueues.StackDrains | kernel/sched.c:126-157 | a woken stack is empty, all its tasks having come back, after boundedly many user ticks |
| WaitQueues.NextSleeperIsServed | kernel/sched.c:126-157 | the next sleeper in line runs within boundedly many user ticks |
| WaitQueues.WaitQueues.SleepOn | kernel/sched.c:126-143 | the caller becomes the top of the queue's stack and another task is chosen |
| WaitQueues.WaitQueues.FinishSleep | kernel/sched.c:145-148 | the returning sleeper makes the one below it runnable |
| WaitQueues.WaitQueues.WakeUp | kernel/sched.c:151-157 | the top becomes runnable and the queue empty |
| WaitQueues.WaitQueues.Timer | kernel/sched.c:217-227 | a timer tick while tasks sleep leaves every queue and stack as it was and keeps the invariant |
| BucketHeap.LiveBlocksAreApart | lib/malloc.c:85-152 | allocated blocks do not overlap, are aligned to their size, stay in one page and are long enough |
| BucketHeap.AddDescsKeepsInv | lib/malloc.c:58-76 | 256 new descriptors join the pool, each in exactly one list |
| BucketHeap.NewBucketKeepsInv | lib/malloc.c:113-144 | a page cut into blocks joins its chain with every block free |
| BucketHeap.TakeKeepsInv | lib/malloc.c:146-149 | the block handed out was not allocated, and reference count plus free blocks still make up the page |
| BucketHeap.GiveKeepsInv | lib/malloc.c:176-181 | a freed block is back on its page's list |
| BucketHeap.NotAllFree | lib/malloc.c:181-183 | the reference count is 0 only when no block of the page is allocated |
| BucketHeap.DropKeepsInv | lib/malloc.c:198-210 | an unused page's descriptor moves from its chain to the pool |
| Kmalloc.RunKeepsInv | lib/malloc.c:85-213 | over every run the blocks off the free lists are exactly those the callers hold, and a block held throughout keeps its descriptor |
| Kmalloc.MallocKeepsInv | lib/malloc.c:85-152 | kmalloc returns a block nobody holds, of the smallest sufficient size, and disturbs no other |
| Kmalloc.FreeKeepsInv | lib/malloc.c:154-213 | kfree_s takes away exactly the block freed |
| Kmalloc.StalePredecessor | lib/malloc.c:184-196 | a descriptor that points to another is its true predecessor, wherever it has been meanwhile |
| Kmalloc.SearchSurvives | lib/malloc.c:161-173 | what the unlocked search found stays usable across any calls in between |
| Kmalloc.Allocator.Kmalloc | lib/malloc.c:85-152 | the code performs the specified allocation: first descriptor with room, else a new page |
| Kmalloc.Allocator.InitBucketDesc | lib/malloc.c:58-76 | the loop links the page's descriptors in order in front of the pool |
| Kmalloc.Allocator.CutPage | lib/malloc.c:134-139 | the loop threads the blocks of a page in order |
| Kmalloc.Allocator.Search | lib/malloc.c:154-174 | the descriptor of the object and its bucket, never the panic |
| Kmalloc.Allocator.Predecessor | lib/malloc.c:189-206 | the checked or searched predecessor is the right one for any stale value |
| Kmalloc.Allocator.KfreeS | lib/malloc.c:154-213 | the code performs the specified release and never reaches a panic |
| Truncate.FreeOkAppend | fs/bitmap.c:19-47 | releasing two lists one after the other succeeds exactly when both together are distinct, in range and allocated |
| Truncate.Volume.FreeBlock | fs/bitmap.c:19-47 | one bit is cleared and the cached copy is void; panic exactly when out of range or already free; a block held by others is kept |
| Truncate.Volume.FreeInd | fs/truncate.c:15-34 | all zones of an indirect block and the block itself, or a panic exactly when they are not all distinct, in range and allocated |
| Truncate.Volume.FreeDind | fs/truncate.c:39-58 | the same for a double-indirect block |
| Truncate.Volume.Truncate | fs/truncate.c:64-85 | exactly the bits of all reachable zones are cleared, every other bit is unchanged and the inode is empty; panics exactly when the zones are not distinct, in range and allocated; other file types are untouched |
| Truncate.FreeCountRises | fs/truncate.c:64-85 | the number of free zones rises by exactly the number of zones reached |
| InodeTable.StepKeepsInv | fs/inode.c:82-238 | every step of any number of iget and iput calls keeps entries unique, counts equal to references and promised inodes in place |
| InodeTable.RunKeepsInv | fs/inode.c:82-238 | the invariant holds at every point of every run that starts with it |
| InodeTable.NoInodeTwice | fs/inode.c:175-238 | over every interleaving since boot no inode is in the table twice, and every holder finds the inode its call asked for, or the root of the last file system mounted on the way there |
| InodeTable.CallsPursueWanted | fs/inode.c:175-238 | every call of iget goes all the time for the inode it was asked for, through exactly the mounts it meets |
| InodeTable.RecheckDecides | fs/inode.c:192-225 | an entry found is used exactly if it still holds the inode after the wait |
| InodeTable.ScanDecides | fs/inode.c:187-238 | the spare entry is used exactly if no entry holds the inode |
| InodeTable.WhenIdentityChanges | fs/inode.c:131-238 | an entry changes its inode only when claimed unreferenced, clean and unlocked, when filled by its claimer, or when freed by its only user |
| InodeTable.LastUserDecides | fs/inode.c:101-126 | iput releases a file exactly if its last user gives it up and it has no links, writes it back exactly if it has links and is dirty, and otherwise just drops the reference |
| InodeTable.FreeBegins | fs/inode.c:109-118 | over every run since boot, a release was begun by the only user of an inode without links |
| InodeTable.FreeEnds | fs/bitmap.c:53-86 | it ends with the entry wiped, and only if there is still no other user and no link |
| InodeTable.LinkedLeavesByClaim | fs/inode.c:82-173 | an inode with links leaves the table only when a new call claims its unreferenced entry |
| InodeTable.TransfersUnlock | fs/inode.c:244-295 | reading and writing an inode end with its entry unlocked, writing with it clean |
| InodeTable.PickEmpty | fs/inode.c:136-149 | the first ready entry in rotating order, else some unreferenced one, none exactly when all are referenced |
| InodeTable.Find | fs/inode.c:187-192 | the first entry for the inode, none if there is none |
| InodeTable.ReadAfterWrite | fs/inode.c:244-295 | inodes are stored in disjoint places: what is read is what was written last under that number |
| InodeTable.InodesFollowMaps | fs/inode.c:244-295 | inode numbers count the places from the first block behind the bitmaps |
| Console.ScrollIsExact | kernel/chr_drv/console.c:122-150 | the copying scroll equals the ideal one if and only if an even number of cells moves or the last cell is blank |
| Console.ScrollDownIsExact | kernel/chr_drv/console.c:155-186 | the same for the downward scroll and the first cell |
| Console.ScrollFailsExample | kernel/chr_drv/console.c:122-150 | two rows of three columns: the last character stays when it should scroll away |
| Console.ScrollDownFailsExample | kernel/chr_drv/console.c:155-186 | the same for the first character, scrolling down |
| Console.WindowSlides | kernel/chr_drv/console.c:91-118 | moving the window and erasing the new row shows the scrolled grid |
| Console.WindowWraps | kernel/chr_drv/console.c:94-112 | copying the kept rows to the start of memory shows it too, if and only if an even number of cells moves, or the last of them and one cell behind the erased row are blank |
| Console.WrapFailsExample | kernel/chr_drv/console.c:94-112 | two rows of three columns behind another row: an old character comes back into the window |
| Console.ByteKeepsOk | kernel/chr_drv/console.c:505-670 | after every byte the cursor, the scroll region and the parser state are in range |
| Console.DeleteTakesBackInsert | kernel/chr_drv/console.c:426-465 | DCH undoes ICH but for the cells pushed over the end of the line |
| Console.EnoughIsAll | kernel/chr_drv/console.c:426-487 | limiting repetitions to the screen size changes nothing |
| Console.MulIsProduct | kernel/chr_drv/console.c:57-63 | the row offset used by the model is the product the source computes |
| Console.Console.constructor | kernel/chr_drv/console.c:677-740 | the window starts at the start of memory with the given cursor |
| Console.Console.Scrup | kernel/chr_drv/console.c:87-151 | on every adapter, window sliding, wrapping or cells moving, the grid scrolls up by one row of the region |
| Console.Console.Scrdown | kernel/chr_drv/console.c:155-186 | the grid scrolls down by one row of the region |
| Console.Console.CsiP | kernel/chr_drv/console.c:459-469 | n cells are gone at the cursor, the rest of the line moves up, blanks follow |
| Console.Console.CsiAt | kernel/chr_drv/console.c:426-436 | n blanks at the cursor, the rest of the line moves back |
| Console.Console.CsiL | kernel/chr_drv/console.c:443-452 | n blank lines at the cursor |
| Console.Console.CsiM | kernel/chr_drv/console.c:475-484 | n lines are gone at the cursor |
| Console.Console.CsiJ | kernel/chr_drv/console.c:234-262 | the chosen part of the screen is blank, the cursor's own cell excluded from the part before it |
| Console.Console.CsiK | kernel/chr_drv/console.c:268-297 | the same for the line |
| Console.Console.ConWrite | kernel/chr_drv/console.c:505-670 | for every byte stream the window shows what the plain grid shows, on every adapter, and stays inside video memory |
| Sequences.SequenceIsRun | kernel/chr_drv/console.c:553-585 | ESC [ n c, with n in decimal, runs command c with n modulo 2^32 as its parameter, from every screen outside an escape sequence |
| Sequences.SequenceOfTwoIsRun | kernel/chr_drv/console.c:553-585 | the same for ESC [ n ; m c |
| Sequences.StepsUp | kernel/chr_drv/console.c:593-596 | ESC [ n A: n lines up, 0 meaning 1, or nowhere if that is off the screen |
| Sequences.StepsDown | kernel/chr_drv/console.c:597-601 | ESC [ n B and e: down |
| Sequences.StepsForward | kernel/chr_drv/console.c:602-606 | ESC [ n C and a: forward |
| Sequences.StepsBack | kernel/chr_drv/console.c:607-610 | ESC [ n D: back |
| Sequences.UpOnScreen | kernel/chr_drv/console.c:593-596 | for n below 2^31 the cursor goes n lines up if there are as many, else not at all |
| Sequences.DownOnScreen | kernel/chr_drv/console.c:597-601 | the same down |
| Sequences.StepUpGoesDown | kernel/chr_drv/console.c:593-596 | 2^32 - 1 lines up is one line down |
| Sequences.LineSteps | kernel/chr_drv/console.c:611-618 | ESC [ n E and F: to the left margin n lines below and above |
| Sequences.CursorPlaces | kernel/chr_drv/console.c:588-622 | ESC [ n G and d: to column and to line n, counted from 1 |
| Sequences.CursorPositions | kernel/chr_drv/console.c:623-628 | ESC [ n ; m H and f: to line n and column m |
| Sequences.DisplayIsErased | kernel/chr_drv/console.c:234-262 | ESC [ n J, cell by cell |
| Sequences.LineIsErased | kernel/chr_drv/console.c:268-297 | ESC [ n K, cell by cell |
| Sequences.CharsAreInserted | kernel/chr_drv/console.c:426-436 | ESC [ n @, cell by cell |
| Sequences.CharsAreDeleted | kernel/chr_drv/console.c:459-469 | ESC [ n P, cell by cell |
| Sequences.LinesAreInserted | kernel/chr_drv/console.c:443-452 | ESC [ n L, cell by cell |
| Sequences.LinesAreDeleted | kernel/chr_drv/console.c:475-484 | ESC [ n M, cell by cell |
| Sequences.AttributeIsSet | kernel/chr_drv/console.c:647-649 | ESC [ n m: the attribute of the characters that follow |
| Sequences.RegionIsSet | kernel/chr_drv/console.c:650-658 | ESC [ n ; m r: the scroll region, if there is such a one |
| Sequences.LineEscapes | kernel/chr_drv/console.c:553-569 | ESC D, M and E: line feed, reverse line feed, next line |
| Sequences.CursorIsSaved | kernel/chr_drv/console.c:490-494 | ESC 7 and ESC [ s save the cursor's place |
| Sequences.CursorIsRestored | kernel/chr_drv/console.c:496-500 | ESC 8 and ESC [ u go back to it |
| Sequences.LineFeeds | kernel/chr_drv/console.c:190-214 | a line feed goes down or scrolls the region up at its lower end, a reverse one up or down, cell by cell |
| LineEditor.Queue.Putch | include/linux/tty.h:29-30 | the ring's contents grow by the character at the end, for every head and tail |
| LineEditor.Queue.Getch | include/linux/tty.h:27-28 | the first character leaves the ring |
| LineEditor.Queue.Last | include/linux/tty.h:24 | the last character of the contents |
| LineEditor.StepKeepsCount | kernel/chr_drv/tty_io.c:84-164 | `data` counts the line ends in the queue, whatever is typed, erased or killed |
| LineEditor.StepKeepsLines | kernel/chr_drv/tty_io.c:101-131 | nothing typed later changes a completed line |
| LineEditor.KillIsExact | kernel/chr_drv/tty_io.c:101-115 | kill removes exactly what follows the last line end |
| LineEditor.CookKeepsLines | kernel/chr_drv/tty_io.c:84-164 | for every input the count is right, completed lines stay and input is left over only when the queue is full |
| LineEditor.EraseTakesBackOne | kernel/chr_drv/tty_io.c:116-131 | erase takes back an ordinary character |
| LineEditor.KillTakesBackAll | kernel/chr_drv/tty_io.c:101-115 | kill takes back everything typed since the last line end |
| LineEditor.CookAdmits | kernel/chr_drv/tty_io.c:89-98 | over any input: no carriage returns with ICRNL or IGNCR, no new lines with INLCR, but for those the other flag makes, and no capitals with IUCLC |
| LineEditor.LineEndKeys | kernel/chr_drv/tty_io.c:89-98 | the return key ends a line exactly with ICRNL, a new line does without INLCR, and it is echoed as NL CR |
| LineEditor.EofEndsLine | kernel/chr_drv/tty_io.c:100-147 | the end-of-file character is counted as a line end and can be neither erased nor killed |
| LineEditor.StopAndStart | kernel/chr_drv/tty_io.c:129-136 | with ICANON ^S and ^Q stop and start the output and stay out of the line, without it they are characters |
| LineEditor.EchoOnlyIfAsked | kernel/chr_drv/tty_io.c:101-163 | without ECHO nothing is echoed, typed or erased |
| LineEditor.OutputIsSendable | kernel/chr_drv/tty_io.c:193-207 | no carriage returns with OCRNL, no new lines with ONLRET, but for those the other flags make, no small letters with OLCUC |
| LineEditor.NewLinesReturn | kernel/chr_drv/tty_io.c:193-211 | with ONLCR every new line follows a carriage return |
| LineEditor.OutputKeepsLetters | kernel/chr_drv/tty_io.c:192-211 | line ends and the size of letters aside, the output is the text in its order |
| LineEditor.OutputUnchanged | kernel/chr_drv/tty_io.c:192-211 | without OPOST the output is the text |
| Echoes.RuboutMatchesEcho | kernel/chr_drv/tty_io.c:104-161 | from every screen that is not inside an escape sequence, the echo of any byte but a new line followed by its rub-out restores the screen if and only if a condition on the byte, the echo flag, the erase character, the cursor and the cells there holds |
| Echoes.RuboutFailsExamples | kernel/chr_drv/tty_io.c:104-161 | byte 0xC1 leaves the cursor one column too far left, and with ^H as erase character a letter stays on the screen |
| Echoes.RuboutFailsAtLineEnd | kernel/chr_drv/tty_io.c:104-161 | with the usual settings, ^A typed in the last column and rubbed out leaves the cursor at the start of the next line |
| LineEditor.Tty.CopyToCooked | kernel/chr_drv/tty_io.c:84-164 | queue, echo, count and stop flag are the fold of the consumed input |
| LineEditor.Tty.TtyWrite | kernel/chr_drv/tty_io.c:173-221 | every written byte is processed once and in order, however often the queue fills up |
| NumberFormat.ExactLength | kernel/vsprintf.c:38-111 | exactly max(width, sign + prefix + max(precision, digits)) characters are written |
| NumberFormat.Justified | kernel/vsprintf.c:38-111 | LEFT pads with blanks behind the number, ZEROPAD with zeros behind sign and prefix, otherwise blanks stand in front |
| NumberFormat.SignIsShown | kernel/vsprintf.c:52-58 | the text begins with '-', '+' or a blank exactly when the number and the flags ask for it |
| NumberFormat.CaseIsChosen | kernel/vsprintf.c:38-66 | SMALL decides the letters of the digits and of 0x |
| NumberFormat.AtMost32Digits | kernel/vsprintf.c:69-74 | at most 32 of tmp's 36 cells are used, for every 32-bit value and base |
| NumberFormat.PrintParseRoundTrip | kernel/vsprintf.c:38-111 | reading the output back gives the number, for all bases, widths, precisions and flags, the most negative integer included |
| NumberFormat.ValueOfDigits | kernel/vsprintf.c:69-74 | the digits stand for the value |
| NumberFormat.Convert | kernel/vsprintf.c:69-74 | the division loop leaves the digits in tmp in reverse |
| NumberFormat.Number | kernel/vsprintf.c:38-111 | the code appends exactly the specified text, and fails exactly for a base outside 2..36 |

## Left out

- Boot code, descriptor tables, task-state segments, register save and restore, coprocessor, TLB: `switch_to` only sets the current task.
- Port I/O, controller polling, CMOS, beeper, CRTC registers: an interrupt is a success or failure with a sector transfer.
- Panics and running out of memory are stops: the requires clauses of the methods exclude them, or a false result stands for them.
- CacheProgress.EveryCallEnds: counts moves of an activity; that it is resumed at all once it can move is the part of WaitQueues and Scheduler.
- Failed I/O, media change and `invalidate_*` in the cache theorem; dirt is cleared when a write is submitted, so a failed write is not repeated by the cache.
- Elevator.FindRequestSlot: the search for a slot and the sleep that follows a failed search are one step; in the source an interrupt can come in between.
- CacheProtocol.StepKeepsInv: reference counts are unbounded naturals, not bytes; one disk and one request queue; getblk's choice of victim is any unreferenced buffer (the exact choice is BufferIndex.BufferTable.PickVictim); a free_block that finds its buffer in use keeps the reference for good, and the zone bitmap is Truncate's.
- BufferIndex.BufferTable.InsertIntoQueues: the store through `b_next` at fs/buffer.c:159 is guarded against null.
- BufferIndex.BufferTable.constructor: needs room for two buffers and a 1K-aligned end.
- HardDisk.Driver.BadRwIntr: the second read of CURRENT at kernel/blk_drv/hd.c:283 is guarded against an empty queue.
- HardDisk.Driver.HdInterrupt: interrupts with an empty queue, which the source would dereference if a timed-out write left its handler behind, do not occur.
- MemoryManager.Manager.UserWrite: task 0's own writes are outside the isolation theorem, because its entries for low memory are not write-protected at fork.
- MemoryManager.Manager.UnWpPage: when a copy is needed a free page is required, as `do_exit` returns here after running out of memory.
- Fork.Processes.CopyProcess: file, directory and executable reference counts, signal, time and register fields of the child.
- Scheduler.NoRunnableTaskStarves: forks and exits during the wait.
- WaitQueues.StepKeepsInv: `interruptible_sleep_on`, which no queue mixes with `sleep_on`, and signals.
- CopyOnWrite.Run: pages that the kernel takes and gives back between the operations; the task table (Fork.Processes.SysFork has the whole transaction).
- Kmalloc.Allocator.Kmalloc: the pages `get_free_page` returns are parameters; descriptors and free-list words are separate sequences, the pages that hold them being proved disjoint.
- Kmalloc.Allocator.Search: the unlocked walk itself is not interrupted, only the gap between it and `cli` is.
- Truncate.Volume.Truncate: reachable blocks held by others, and indirect blocks that contain themselves or their parent, are excluded; a block read again after being freed is taken to have its cached contents on disk.
- InodeTable.StepKeepsInv: pipes, devices, `sync_dev` in iput, and the contents of inodes while a free races with a write-back.
- Console.Console.ConWrite: an even number of columns, at least 8; the answer to ESC Z goes to another queue; the video memory is a sequence that the methods reassign.
- Echoes.RuboutMatchesEcho: a new line, which is never rubbed out; the console model's even number of columns, at least 8.
- LineEditor.Tty.TtyWrite: a full queue drains in `write`; another process entering while the carriage-return flag is set; channel numbers beyond the table.
- LineEditor.Tty.CopyToCooked: `tolower` outside A-Z, and interrupt and quit characters, for which the source does nothing.
- NumberFormat.Number: width and precision are unbounded integers; the format string interpreter `vsprintf` around it.
- `free_inode`, mounting, super-block and partition reading, floppy and ramdisk, keyboard scan codes, `printk`, exec, exit, signals, and the timers of `add_timer` are not modelled.
