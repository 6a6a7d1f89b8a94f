# Mykonos kernel: memory, scheduling and initramfs, verified

This project models the parts of the Mykonos kernel (a small SMP x86-64 kernel) whose correctness
rests on invariants that span several functions, and proves those invariants for every input, every
run and every interleaving.

**Memory.** `Blocks`, `BlockMaps`, `ReserveLoss` and `BlockLedger` are the first-fit block map with its fixed table of
256 blocks. `Frames` and `PhysicalMemory` read a page-aligned table as a set of frames. `PageTables`
defines entries, the hardware's 4-level walk (section 5.3 of the AMD64 Architecture Programmer's
Manual, Volume 2) and the recursive mapping; `PageTree` says which frames are page tables and which
are data; `PageTableInit` is the boot state; `Paging` is the class that edits the tables in place,
every load and store going through the recursive mapping at the address the kernel uses. `Tlbs`
adds the translation caches (section 5.5 of the same volume), `PageRanges` what the page loops do to
ranges, and `Kmalloc` the operations on top. `Shootdown` is the same TLB argument once more with full
concurrency: a step machine over any number of processors and threads, with the per-processor
mailboxes.

**Scheduling.** `TaskQueue` is the intrusive queue. `Scheduler` holds the scheduler's operations as
functions, and `Schedulers` is the class that updates its fields in place and is proved against those
functions. `SchedulerMachine` is the machine that any number of processors form over shared tasks; in
it `block()` and the following `yield()` are two steps, and so are the decision and the push of
`addTask`, with steps of any processor in between. `SchedulerRuns` proves about all its runs exactly
when a task gets into two places and exactly when a processor is left idle over work, and
`SchedulerFailures` gives runs from boot that do so. `RoundRobin` is about time slices and priorities. `Mutex`, `Completion`, `DeviceTree` and `BlockingQueue` are the
blocking primitives and the parallel device-tree loader.

**Initramfs.** `Ustar` is the archive walk and `read`; `UstarArchive` is a serialiser for the ustar
Interchange Format (the pax utility page of POSIX.1-2017) and the proof that the walk undoes it.

How the pieces are stated:

- A block table means the number of blocks that cover each address (`Cover`), so that overlaps, loss
  and duplication are all visible in one equation.
- A page map means what the hardware walk answers for every page (`Abstracts`). The ghost field
  `pages` is tied to the walk by the class invariant, so that a statement about `pages` is a statement
  about every translation.
- Every frame the kernel manages is in exactly one of: free, in a caller's hand, in the tree (as one
  page table, or behind one page through one ALLOCATED entry), or lost (`Books`); their union is the
  constant `pool`. A frame becomes lost
  when a full block table drops it, or when `mapPage` overwrites the entry that owned it, which the
  kernel's own calls never do.
- `Clean` and `Fresh` are the TLB invariant: a free virtual page is unmapped and cached by no
  processor, and every cached translation is the one in the page tables. Ghost methods let every TLB
  load and drop translations between any two page operations.

Results that qualify what the code appears to promise, each with its exact condition:

- `reserve` on a table that still has 256 blocks after merging can lose the part of one block above the
  reserved range (`Blocks.ReserveExact`, if and only if; `ReserveLoss.ReserveLoses` is such a table).
- `kfree` leaves the header out of the size it unmaps, so that the last page stays mapped unless
  `size mod 4096` is in 1..4088 (`PageRanges.KfreeRange`, if and only if).
- Flags joined with `+` are the flags meant exactly when no added bit is already set
  (`PageTables.FlagsAsMeant`).
- `addTask` decides and pushes under a lock that `yield` does not take. A push at the back leaves an
  idle processor over a ready task if and only if, between decision and push, the processor served
  every yield request outstanding at the decision and completed as many blocks as it had tasks at the
  decision (`SchedulerRuns.LatePush`). Over whole runs: no processor is ever left so if and only if no
  window between a decision and its push meets these counts (`SchedulerRuns.NeverIdleOverWork`).
  `SchedulerFailures.LatePushHappens` is a failing run from boot on two processors or more. The next
  `addTask` to that processor asks for a yield and ends it.
- A task that has called `block()` and yields is afterwards in exactly one place if and only if, when
  the yield runs, it is not next in its own processor's ready queue and its state is not RUNNING
  (`SchedulerRuns.LeavesExactly`; `SchedulerFailures.TooLateYieldHappens` is a failing run from boot on
  two processors or more, and `RoundRobin.WokenElsewhere` the failure by way of another processor). Over whole runs: every task is
  always in one place if and only if no yield comes too late in this sense
  (`SchedulerRuns.OnePlacePerTask`).
- The blocking queue can take from an empty list if and only if it has two consumers or more
  (`BlockingQueue.FaultsExactly`).
- The archive walk answers as the standard says when every file and directory member has no prefix, a
  name under 100 bytes and a size under 2^32, and only then unless some member has both a prefix and a
  full name field (`UstarArchive.RoundTrip`).

## Model

| member | source | states |
|---|---|---|
| Bits.SumSplits | kernel/arch/x86_64/include/mykonos/pageTables.h:32-34 | for all numbers, the sum exceeds the bitwise or by exactly the bits they share |
| Bits.PlusIsOr | kernel/arch/x86_64/include/mykonos/pageTables.h:32-34 | the `+` that implements the or operator is bitwise or if and only if no bit is shared |
| Bits.Bitwise | kernel/arch/x86_64/include/mykonos/pageTables.h:38-40 | bitwise and and or agree with the bits of their operands at every position |
| Blocks.FirstAdjacent | kernel/memory/memoryBlock.cpp:32-41 | the block merged into is the first that touches end to end, and none before it does |
| Blocks.MergeKeepsCover | kernel/memory/memoryBlock.cpp:20-46 | `merge` keeps, for every address, the number of blocks covering it, even where blocks overlap |
| Blocks.MergeDropsEmpty | kernel/memory/memoryBlock.cpp:20-46 | `merge` leaves no empty block, and at most as many blocks as held memory before |
| Blocks.MergeContains | kernel/memory/memoryBlock.cpp:31-44 | every old non-empty block lies inside one block of the merged table |
| Blocks.MergeJoins | kernel/memory/memoryBlock.cpp:31-44 | `merge` frees an entry of the table if and only if two blocks that hold memory touch end to end |
| Blocks.AddedCover | kernel/memory/memoryBlock.cpp:47-64 | `addBlock` adds exactly the block's addresses, or nothing at all when it drops the block |
| Blocks.FullDrops | kernel/memory/memoryBlock.cpp:52-59 | a non-empty block is dropped if and only if 256 blocks remain after `merge`; the table grows by one block at most |
| Blocks.FullMeans | kernel/memory/memoryBlock.cpp:54-58 | 256 blocks remain after `merge` if and only if there were 256, all held memory, and no two touched |
| Blocks.FirstFit | kernel/memory/memoryBlock.cpp:68-73 | the block allocated from is the first with enough capacity |
| Blocks.CutCover | kernel/memory/memoryBlock.cpp:65-76 | `allocate` takes exactly the addresses it hands out from the table |
| Blocks.ReserveFromCover | kernel/memory/memoryBlock.cpp:82-104 | the loop of `reserve`, from any index and over a table that grows and is merged under it, removes exactly the range, save for the piece it loses |
| Blocks.ReserveCover | kernel/memory/memoryBlock.cpp:77-106 | after `reserve(r)` on disjoint blocks no address of `r` is free, and every other address is as free as before unless it is in the lost piece |
| Blocks.LostIs | kernel/memory/memoryBlock.cpp:98-101 | something is lost if and only if `r` splits a merged block and its upper piece is dropped; what is lost starts at the end of `r`, and the merged table had 256 blocks |
| Blocks.ReserveExact | kernel/memory/memoryBlock.cpp:77-106 | `reserve` is exact if and only if no upper piece is dropped, and always when the merged table has at most 255 blocks |
| ReserveLoss.MergedApart | kernel/memory/memoryBlock.cpp:20-46 | `merge` leaves blocks that do not touch as they are |
| ReserveLoss.ReserveLoses | kernel/memory/memoryBlock.cpp:98-101 | on 256 blocks that do not touch, reserving a byte inside the last makes the bytes above it disappear from the table |
| BlockMaps.BlockMap.Merge | kernel/memory/memoryBlock.cpp:20-46 | the in-place nested loops turn the array into the merged table, never longer than before |
| BlockMaps.BlockMap.AddBlock | kernel/memory/memoryBlock.cpp:47-64 | the array after `addBlock`, with its merge and silent drop |
| BlockMaps.BlockMap.ReturnMemory | kernel/include/mykonos/memoryBlock.h:61-61 | returning a range adds it as one block |
| BlockMaps.BlockMap.Allocate | kernel/memory/memoryBlock.cpp:65-76 | the start of the first fitting block, cut from its front; null and no change if none fits |
| BlockMaps.BlockMap.Reserve | kernel/memory/memoryBlock.cpp:77-106 | the loop that edits the table it runs over ends, and ends in the table whose meaning `Blocks.ReserveCover` gives |
| BlockMaps.BlockMap.Clear | kernel/include/mykonos/memoryBlock.h:64-68 | no block is left |
| BlockLedger.RunBalanced | kernel/memory/memoryBlock.cpp:47-76 | in every run of `addBlock`, `allocate` and `returnMemory`, free, live and lost memory together are the memory ever added, address by address |
| BlockLedger.HandedOutOnce | kernel/memory/memoryBlock.cpp:47-76 | after every run, live ranges are pairwise disjoint and disjoint from every free block |
| BlockLedger.LostOnlyWhenFull | kernel/memory/memoryBlock.cpp:54-59 | memory is lost only when 256 blocks remain after `merge`, and then it is not also free |
| Frames.PageAlignUp | kernel/arch/x86_64/include/mykonos/pageConstants.h:22-22 | the least multiple of 4096 that is not below the argument |
| Frames.PageAlignDown | kernel/arch/x86_64/include/mykonos/pageConstants.h:23-23 | the greatest multiple of 4096 that is not above the argument |
| Frames.OnePageFits | kernel/include/mykonos/physicalMemory.h:27-29 | a frame can be allocated if and only if the table holds one |
| Frames.CutPages | kernel/include/mykonos/physicalMemory.h:27-29 | allocating whole pages takes exactly those pages and keeps the table aligned and disjoint |
| Frames.AddedPages | kernel/include/mykonos/physicalMemory.h:30-32 | giving whole pages back adds exactly those pages, or none when the block is dropped |
| PhysicalMemory.AllocateFrame | kernel/include/mykonos/physicalMemory.h:27-29 | a free frame, now not free, or 0 exactly when none is left |
| PhysicalMemory.ReturnFrame | kernel/include/mykonos/physicalMemory.h:30-32 | the frame becomes free unless the table is full even when merged; nothing else changes |
| PageTables.FlagTests | kernel/arch/x86_64/include/mykonos/pageTables.h:38-40 | `&` with PRESENT or ALLOCATED is non-zero exactly when that bit is set |
| PageTables.FlagsAsMeant | kernel/arch/x86_64/kernel/paging/paging.cpp:80-86 | the flags `mapPage` builds with `+` have bits 0, 11 if owned and 4 if not cacheable added to the caller's, bit for bit, if and only if the caller passed none of these |
| PageTables.PresentTwice | kernel/arch/x86_64/kernel/paging/paging.cpp:80-80 | a caller that passes PRESENT gets WRITABLE instead |
| PageTables.MapEntryIs | kernel/arch/x86_64/kernel/paging/paging.cpp:87-87 | frame address and flags stay unmixed in the entry if and only if they share no bit, and always for flags below 4096 |
| PageTables.WritableEntry | kernel/arch/x86_64/kernel/paging/paging.cpp:79-88 | the entry is present, ALLOCATED exactly when asked, and points at the frame of the physical address |
| PageTables.EntryFlags | kernel/arch/x86_64/kernel/paging/paging.cpp:79-88 | the twelve low bits of the kernel's entries, in numbers: bits 0 and 1, bit 11 exactly if owned, bit 4 exactly if not cacheable, no other |
| PageTables.TableEntryBits | kernel/arch/x86_64/kernel/paging/paging.cpp:35-38 | the entry of a new table is its frame with bits 0, 1, 2 and 11, and no large page |
| PageTables.PagePath | kernel/arch/x86_64/kernel/paging/paging.cpp:41-50 | the four indices determine the page number |
| PageTables.PathPage | kernel/arch/x86_64/kernel/paging/paging.cpp:41-50 | every four indices are those of one page number |
| PageTables.MacroAddress | kernel/arch/x86_64/kernel/paging/paging.cpp:24-32 | the address each PML macro builds has the recursive index path of its table, and the entry's offset |
| PageTree.WalkIs | kernel/arch/x86_64/kernel/paging/paging.cpp:40-78 | the hardware walk of a page outside slot 511 is the word in its PML1 if the tree has one, and faults otherwise |
| PageTree.RecursiveWalk | kernel/arch/x86_64/include/mykonos/pageTables.h:53-54 | through slot 511 the 4-level walk of a table's recursive path is the plain, shorter walk to that table |
| PageTree.MacroReaches | kernel/arch/x86_64/kernel/paging/paging.cpp:24-32 | every address a PML macro builds translates, to exactly the frame and the word a direct walk by physical address reaches |
| PageTree.MacroFaults | kernel/arch/x86_64/kernel/paging/paging.cpp:24-32 | where the table does not exist, its macro address faults |
| PageTree.InstallLinks | kernel/arch/x86_64/kernel/paging/paging.cpp:55-56 | between writing the entry and clearing the table, the new table is already reachable at its recursive address, whatever the frame holds |
| PageTree.InstallCompletes | kernel/arch/x86_64/kernel/paging/paging.cpp:53-76 | clearing the table restores the whole invariant with one table more |
| PageTree.InstallKeepsWalks | kernel/arch/x86_64/kernel/paging/paging.cpp:53-76 | adding a page table changes the translation of no page |
| PageTree.LeafWriteWalks | kernel/arch/x86_64/kernel/paging/paging.cpp:88-96 | writing one PML1 entry changes the translation of that page and of no other |
| PageTree.DataWrite | kernel/memory/kmalloc.cpp:54-55 | writing through a mapped page of data leaves every page table alone |
| PageTableInit.InitPageTables | kernel/arch/x86_64/kernel/pageTableInit.cpp:35-45 | the four tables the assignments and the loop produce |
| PageTableInit.BootTreeOk | kernel/arch/x86_64/kernel/pageTableInit.cpp:35-45 | they form a page tree with a recursive slot 511 and no owned page |
| PageTableInit.BootWalk | kernel/arch/x86_64/kernel/pageTableInit.cpp:36-45 | the boot walk maps pages 0x800000200 to 0x8000003FF, present and writable, to physical memory from 0x200000 on, and nothing else outside slot 511 |
| Paging.OwnedEntry | kernel/arch/x86_64/kernel/paging/paging.cpp:81-83 | a mapped page's entry is ALLOCATED exactly when the tree has its frame, and then names that frame |
| Paging.DataFrame | kernel/arch/x86_64/kernel/paging/paging.cpp:35-38 | the frame behind an ALLOCATED entry is no page table |
| Paging.PageMapper.constructor | kernel/arch/x86_64/kernel/pageTableInit.cpp:35-45 | boot establishes the invariant: the hardware walk equals the abstract map of the kernel image |
| Paging.PageMapper.InstallAt | kernel/arch/x86_64/kernel/paging/paging.cpp:54-56 | one page table is added in a frame that was free; nothing that was there moved or changed, and no access faults |
| Paging.PageMapper.GetPageTableEntry | kernel/arch/x86_64/kernel/paging/paging.cpp:40-78 | the recursive address of the PML1 entry; tables are created exactly where missing and allowed, else null and no change |
| Paging.PageMapper.MapPage | kernel/arch/x86_64/kernel/paging/paging.cpp:79-89 | the hardware walk of every page is as before except for this page, which has the new entry; frames stay partitioned; data is untouched |
| Paging.PageMapper.UnmapPage | kernel/arch/x86_64/kernel/paging/paging.cpp:90-99 | this page and no other is unmapped; its frame, if owned, becomes free, or lost exactly when the physical table is full; no frame is returned twice |
| Paging.PageMapper.TakeFrame | kernel/memory/kmalloc.cpp:40-41 | a free frame goes to the caller's hand, never frame 0; 0 exactly when none is free |
| Paging.PageMapper.StoreWord | kernel/memory/kmalloc.cpp:54-55 | a store to an owned page changes that word of its frame only and is read back |
| Tlbs.TrafficKeeps | kernel/memory/kmalloc.cpp:83-105 | any fills and evictions on any processors keep free pages clean and caches fresh |
| Tlbs.MapKeeps | kernel/arch/x86_64/kernel/paging/paging.cpp:79-89 | mapping a clean page without any flush leaves every cache fresh |
| Tlbs.UnmapKeeps | kernel/arch/x86_64/kernel/paging/paging.cpp:90-99 | unmapping makes stale at most this page |
| Tlbs.ShotDown | kernel/memory/kmalloc.cpp:91-105 | once every processor has invalidated them, unmapped pages are clean and may be free |
| PageRanges.KfreeRange | kernel/memory/kmalloc.cpp:59-67 | what `kfree` unmaps is all `kmalloc` took if and only if `size mod 4096` is in 1..4088, else all but the last page |
| PageRanges.LeakedIs | kernel/memory/kmalloc.cpp:33-67 | the pages freed are a prefix of the pages taken, and the difference is exactly the leaked page |
| PageRanges.TouchedIs | kernel/memory/kmalloc.cpp:85-87 | the pages the rounding covers are exactly those that hold a byte of the range, no page too few and none too many; an empty range touches at most the page it points into |
| PageRanges.SameSpan | kernel/memory/kmalloc.cpp:69-81 | the address returned has the physical offset and spans exactly the pages taken |
| PageRanges.MappedBytes | kernel/memory/kmalloc.cpp:68-82 | byte `k` of the range `mapAddress` returned translates to byte `k` of the physical range, for all `k` below the size |
| PageRanges.UndoneMapping | kernel/memory/kmalloc.cpp:68-109 | mapping clean pages and unmapping them all leaves the page map as it was |
| Kmalloc.KernelMemory.TakeRange | kernel/memory/kmalloc.cpp:35-38 | the first fit of the virtual table, page-aligned, of pages that are clean on every processor; 0 only if none fits |
| Kmalloc.KernelMemory.AllocateMemory | kernel/memory/kmalloc.cpp:33-48 | exactly the pages that hold `size + 8` bytes from the result on are taken, first fit, and each is mapped present and writable to a frame of its own; all other pages, all data and the TLB invariant are kept; null only without virtual room, panic only without frames |
| Kmalloc.KernelMemory.Kmalloc | kernel/memory/kmalloc.cpp:49-58 | as `AllocateMemory`, with the size in the header word before the pointer |
| Kmalloc.KernelMemory.MapAddress | kernel/memory/kmalloc.cpp:68-82 | the result has the physical offset, its byte `k` translates to byte `k` of the physical range for all `k` below the size, exactly the pages that hold such a byte are mapped, with low bits 3 or, if not cacheable, 19; nothing else changes; null only if no virtual range fits |
| Kmalloc.KernelMemory.UnmapRange | kernel/memory/kmalloc.cpp:88-90 | the loop empties exactly the range, with its frames given back and only its pages possibly cached elsewhere |
| Kmalloc.KernelMemory.InvalidateRange | kernel/memory/kmalloc.cpp:95-101 | after the callback this processor caches no page of the range, whatever its TLB loaded meanwhile |
| Kmalloc.KernelMemory.Shootdown | kernel/memory/kmalloc.cpp:91-104 | after the loop no processor caches a page of the range |
| Kmalloc.KernelMemory.UnmapMemory | kernel/memory/kmalloc.cpp:83-109 | exactly the pages that hold a byte of the range are unmapped, cached nowhere, their frames given back, and free again unless the full virtual table drops them; panics exactly on null |
| Kmalloc.KernelMemory.MapThenUnmap | kernel/memory/kmalloc.cpp:68-109 | `mapAddress` then `unmapMemory` of the same size restores the page map and the free pages exactly, unless the full table drops the range |
| Kmalloc.KernelMemory.Kfree | kernel/memory/kmalloc.cpp:59-67 | unmaps the pages the header's size spans; panics exactly for null and for a header at 0 |
| Kmalloc.KernelMemory.KmallocThenKfree | kernel/memory/kmalloc.cpp:49-67 | page map and free pages are back as they were, with every cache fresh, except for the leaked page, which stays mapped and is not free; no frame is lost while the physical table has room |
| Shootdown.StepKeepsInv | kernel/arch/x86_64/kernel/processors/processors.cpp:32-61 | every step of every processor and thread keeps the invariant of pages, mailboxes and callbacks |
| Shootdown.FreePagesAreClean | kernel/memory/kmalloc.cpp:83-105 | after every interleaving of fills, maps, unmaps and mailbox calls, a free page is unmapped and cached nowhere, and a live page is cached nowhere with another entry |
| Shootdown.MappedIsSeen | kernel/memory/kmalloc.cpp:39-46 | a page mapped without a flush is seen with its new entry on every processor |
| Shootdown.ReturnMeansInvalidated | kernel/arch/x86_64/kernel/processors/processors.cpp:44-61 | `runOn` returns from a shootdown only after its own callback has run to the end on the target |
| Shootdown.UnmapEnds | kernel/memory/kmalloc.cpp:83-105 | while nobody else calls a processor, `unmapMemory` can run to its end from wherever it is, through every call and return, and leaves its pages free and all others in place |
| Shootdown.MapEnds | kernel/memory/kmalloc.cpp:39-47 | a mapping can run to its end from wherever it is and leaves every page of its range mapped and live |
| TaskQueue.Queue.Push | kernel/include/mykonos/task/taskQueue.h:52-62 | appends to the deque, whatever stale link the block carries |
| TaskQueue.Queue.PushFront | kernel/include/mykonos/task/taskQueue.h:63-73 | prepends to the deque |
| TaskQueue.Queue.Pop | kernel/include/mykonos/task/taskQueue.h:74-87 | removes and returns the first block, or null when empty |
| TaskQueue.PushShared | kernel/include/mykonos/task/taskQueue.h:52-73 | among any number of queues over shared blocks, pushing a block that is in none changes one deque only, sizes included |
| TaskQueue.PopShared | kernel/include/mykonos/task/taskQueue.h:74-87 | popping changes one deque only, and the block is then in no queue |
| Scheduler.YieldSwitches | kernel/scheduler/scheduler.cpp:91-101 | a yield with ready tasks makes the first one current with a full slice, and puts a running one at the back |
| Scheduler.BlockIs | kernel/scheduler/scheduler.cpp:87-125 | a blocking task leaves the processor to the first ready task, or idle if there is none |
| Scheduler.YieldLeaves | kernel/scheduler/scheduler.cpp:91-125 | a yield that does not bring the current task back gives the processor to the first ready task, or to nobody |
| SchedulerMachine.DecideThenPush | kernel/scheduler/scheduler.cpp:58-80 | with nothing in between, the decision and the push are `addTask` as one step |
| SchedulerMachine.StepKeepsInv | kernel/scheduler/scheduler.cpp:58-156 | every step of every processor, with `block()`, `yield()`, decision and push apart, keeps every task in one place with the matching state, except a yield that comes too late |
| SchedulerRuns.LeavesExactly | kernel/scheduler/scheduler.cpp:91-125 | after the yield of a task that called `block()` the task is at exactly one spot if and only if it was not next in this processor's ready queue and not RUNNING when the yield ran |
| SchedulerRuns.StepExactly | kernel/scheduler/scheduler.cpp:58-156 | a step brings some task into two places if and only if it is such a yield |
| SchedulerRuns.OnePlacePerTask | kernel/scheduler/scheduler.cpp:58-156 | in every run from boot, each task is always at exactly one spot - current on one processor, at one index of one ready or wait queue, or in a waker's hand - if and only if no yield comes too late |
| SchedulerFailures.TooLateYieldHappens | kernel/scheduler/scheduler.cpp:87-196 | from every boot state with two processors or more, a run that breaks this: the task is woken by processor 1 and added to processor 0, its own and the least busy, before it yields |
| SchedulerRuns.IdleExactly | kernel/scheduler/scheduler.cpp:60-79 | the idle clause (an idle processor has no push at the back to come, and nothing ready or a yield on its way) survives every step except a block that leaves it idle with a push at the back still to come |
| SchedulerRuns.IdleClauseExactly | kernel/scheduler/scheduler.cpp:58-132 | in every run without too late yields the idle clause holds throughout if and only if no such block occurs |
| SchedulerRuns.BecomesStuck | kernel/scheduler/scheduler.cpp:58-156 | of all steps only the push of a task at the back leaves a processor idle over work, and exactly when it is idle with no yield on its way |
| SchedulerRuns.NeverIdleOverWork | kernel/scheduler/scheduler.cpp:58-156 | in every run from boot without too late yields, no processor is ever idle over ready tasks with no yield on its way if and only if no window between a decision and its push meets the two counts of `LatePush` |
| SchedulerRuns.WindowCounts | kernel/scheduler/scheduler.cpp:60-79 | while `addTaskLock` is held its processor loses one task per completed block and one request per served one, and gains none |
| Schedulers.Scheduler.Yield | kernel/scheduler/scheduler.cpp:87-132 | the fields after `yield`, locked, switching, idling or postponed |
| Schedulers.Scheduler.AddTask | kernel/scheduler/scheduler.cpp:58-80 | front and a requested yield over an idle, blocking or lower-priority task, else the back |
| Schedulers.Scheduler.Tick | kernel/scheduler/scheduler.cpp:81-86 | the 32-bit slice goes down by one, wrapping, and the task yields at 0 |
| Schedulers.Scheduler.Lock | kernel/scheduler/scheduler.cpp:134-137 | yields are postponed from now on, and none is pending |
| Schedulers.Scheduler.Unlock | kernel/scheduler/scheduler.cpp:138-144 | a postponed yield is made up for |
| Schedulers.Scheduler.Block | kernel/scheduler/scheduler.cpp:153-156 | the current task is marked blocking and returned |
| Schedulers.Scheduler.TaskCount | kernel/scheduler/scheduler.cpp:165-171 | the number of tasks that are ready, or current and running, on the scheduler |
| Schedulers.GetLeastBusy | kernel/scheduler/scheduler.cpp:183-196 | no scheduler has fewer such tasks; the caller's own is kept unless another has strictly fewer, and then the first of those is taken |
| SchedulerRuns.TaskCountIs | kernel/scheduler/scheduler.cpp:165-171 | in every consistent state the count is the number of tasks placed on the processor, but for a leaving one that runs elsewhere again |
| SchedulerRuns.LeastBusyMeans | kernel/scheduler/scheduler.cpp:183-196 | while no task is leaving a processor, the scheduler chosen has the fewest tasks placed on it, and fewer than the caller's own if it is another |
| RoundRobin.TickNearer | kernel/scheduler/scheduler.cpp:81-101 | a tick brings the task at index `k` exactly one tick nearer, and makes it current on the last |
| RoundRobin.TurnNeverFarther | kernel/scheduler/scheduler.cpp:58-132 | yields, blocks and back pushes never push a ready task further away |
| RoundRobin.RunsWithin | kernel/scheduler/scheduler.cpp:81-105 | with slice `s` left, the task at index `k` becomes current within `s + 5k` ticks of any run |
| RoundRobin.RunsExactly | kernel/scheduler/scheduler.cpp:81-105 | with ticks alone it becomes current at tick `s + 5k` and not before |
| RoundRobin.Preempts | kernel/scheduler/scheduler.cpp:58-101 | a woken task asks for a yield if and only if its priority is higher, and then runs at once ahead of all ready tasks, whose order is kept; otherwise it runs after them |
| RoundRobin.IdleTakesNext | kernel/scheduler/scheduler.cpp:61-75 | over an idle processor or a blocking task a woken task goes first whatever its priority, and the yield asked for starts it with a slice of 5 |
| RoundRobin.TickCounts | kernel/scheduler/scheduler.cpp:81-86 | a tick that does not end the slice takes one off it modulo 2^32 and changes nothing else |
| RoundRobin.LockedYields | kernel/scheduler/scheduler.cpp:81-144 | between `lock()` and `unlock()` nothing switches and no slice runs down, whatever ticks and yields come; any number of yields amount to exactly one at `unlock()`, and none to none |
| SchedulerRuns.LatePush | kernel/scheduler/scheduler.cpp:60-79 | whatever all processors do between the decision and the push, the push leaves the processor idle over work if and only if it served every request outstanding at the decision and completed one block for its current and each ready task |
| SchedulerFailures.LatePushHappens | kernel/scheduler/scheduler.cpp:58-196 | from every boot state with two processors or more and no request outstanding, a run that ends so, each task being added by processor 1 to the scheduler that is least busy |
| RoundRobin.LostWakeUp | kernel/scheduler/scheduler.cpp:60-79 | whenever the ready queue is empty, blocking between the decision and the push of `addTask` does leave the task stuck |
| RoundRobin.WokenTooEarly | kernel/scheduler/scheduler.cpp:91-101 | a wake-up onto the own processor between `block()` and `yield()` leaves the task current and queued at once |
| RoundRobin.WokenElsewhere | kernel/scheduler/scheduler.cpp:91-108 | woken onto another, idle processor that takes it up first, the task is current there and besides current or queued here |
| RoundRobin.WokenBehind | kernel/scheduler/scheduler.cpp:91-101 | woken onto the own processor behind another task, it is left once in the ready queue |
| Mutex.Lock.Acquire | kernel/scheduler/mutex.cpp:21-31 | takes a free mutex, else queues the caller at the back |
| Mutex.Lock.Release | kernel/scheduler/mutex.cpp:32-42 | hands the locked mutex to the first waiter, or unlocks it |
| Mutex.MutualExclusion | kernel/scheduler/mutex.cpp:21-42 | in every run at most one task has the mutex, the flag is set exactly when one has it, and an unlocked mutex has no waiters |
| Mutex.WaiterGetsItsTurn | kernel/scheduler/mutex.cpp:21-42 | the waiter at index `k` is still `k - r` from the front after `r <= k` releases and has the mutex after exactly `k + 1`: no overtaking |
| Mutex.HolderReleases | kernel/scheduler/mutex.cpp:26-42 | whoever is handed the mutex can resume with it and release it |
| Completion.Completion.Await | kernel/scheduler/completion.cpp:21-30 | proceeds exactly if completed, else queues the caller |
| Completion.Completion.SignalComplete | kernel/scheduler/completion.cpp:31-42 | sets the flag and wakes every waiter once, in order |
| DeviceTree.StepKeepsInv | kernel/drivers/tree.cpp:21-43 | every step of every node's thread keeps completions, waiters and children consistent |
| DeviceTree.SubtreeLoaded | kernel/drivers/tree.cpp:37-43 | in every run over a tree of any shape, a set completion means every node of the subtree has finished `load()` |
| DeviceTree.WholeTreeLoaded | kernel/drivers/tree.cpp:50-52 | `loadRootDevice` returns only after every device ever appended is loaded |
| DeviceTree.SleepersAreWoken | kernel/scheduler/completion.cpp:21-42 | a node asleep on a completion is in its queue, and if the completion is set its signaller is still waking |
| DeviceTree.NeverDeadlocked | kernel/drivers/tree.cpp:37-43 | the youngest node that is not done can always take a step: it waits for nobody |
| DeviceTree.DoneOrGoingOn | kernel/drivers/tree.cpp:21-43 | after every run a step is possible or every node's thread is done |
| DeviceTree.LoadingEnds | kernel/drivers/tree.cpp:21-43 | a run that appends `a` devices takes at most `5 + 10 a` steps, whatever the scheduling |
| DeviceTree.Device.Append | kernel/drivers/tree.cpp:21-27 | appends to the child list |
| DeviceTree.Device.Visit | kernel/drivers/tree.cpp:39-41 | the loop visits every child once, in order |
| BlockingQueue.Queue.Push | kernel/include/mykonos/queue.h:48-64 | appends, and wakes the first waiter exactly when the queue was empty |
| BlockingQueue.Queue.Ready | kernel/include/mykonos/queue.h:65-69 | ready exactly when there is an element, else the caller is queued |
| BlockingQueue.Queue.Take | kernel/include/mykonos/queue.h:73-82 | removes and returns the first element |
| BlockingQueue.DeliversInOrder | kernel/include/mykonos/queue.h:48-83 | with any producers and one consumer, elements are delivered once and in push order, never from an empty queue, and the consumer never sleeps over an element |
| BlockingQueue.OneElementPerPop | kernel/include/mykonos/queue.h:65-83 | with one consumer as many elements are delivered as calls of `pop` have returned |
| BlockingQueue.TwoConsumersFault | kernel/include/mykonos/queue.h:65-83 | with any two consumers a woken `pop` can find the queue empty |
| BlockingQueue.FaultsExactly | kernel/include/mykonos/queue.h:48-83 | some run takes from an empty queue if and only if there are two consumers or more |
| Ustar.OctalOfDigits | kernel/fs/initramfs/initramfs.cpp:23-30 | the digits of a number that fits the field stand for that number |
| Ustar.OctalOfByte | kernel/fs/initramfs/initramfs.cpp:26-27 | what one byte adds, digit or not: a signed character less 48 |
| Ustar.ParseOctal | kernel/fs/initramfs/initramfs.cpp:23-30 | for every byte string the wrapping accumulator ends at the value of the digits modulo 2^32 |
| Ustar.SizeSurvives | kernel/fs/initramfs/initramfs.cpp:40-49 | a size in the 11-digit field is read back if and only if it is under 2^32 |
| Ustar.Strlen | kernel/memory/string.cpp:29-35 | the distance to the first NUL |
| Ustar.InitramfsFsProvider.constructor | kernel/fs/initramfs/initramfs.cpp:43-63 | the loop collects exactly what the recursive walk over the image does, or notices that it leaves the image |
| Ustar.InitramfsFsProvider.Read | kernel/fs/initramfs/initramfs.cpp:65-73 | the lesser of the length asked for and the bytes left, 0 at or past the end; so many bytes of the image go to the front of the buffer, whose rest is untouched |
| Ustar.ChunkingRebuilds | kernel/fs/initramfs/initramfs.cpp:65-73 | reads of any lengths, one after another, rebuild the file if and only if they ask for all of it |
| UstarArchive.HeaderRead | kernel/fs/initramfs/initramfs.cpp:32-49 | in a header serialised with the standard's bytes the walk finds the magic string, the type, shown exactly if it is 48 or 53, and the size modulo 2^32 |
| UstarArchive.NameRead | kernel/fs/initramfs/initramfs.cpp:51-51 | a name under 100 bytes is read back; one of 100 runs on into the mode field |
| UstarArchive.RoundTrip | kernel/fs/initramfs/initramfs.cpp:43-63 | for every archive of plain file and directory members, any other members and any trailer, the walk yields exactly those members, in order, with the standard's name less one final slash, the type and the data; and it fails for every other archive in which no such member has both a prefix and a full name field |
| UstarArchive.PrefixIgnored | kernel/fs/initramfs/initramfs.cpp:51-51 | an archive with a prefix field whose member the walk misnames |
| UstarArchive.TruncatedOverruns | kernel/fs/initramfs/initramfs.cpp:45-45 | an archive whose image ends before the header after the last member is read past its end |
| UstarArchive.FilesRebuilt | kernel/fs/initramfs/initramfs.cpp:43-73 | reading an entry in any chunks that cover it gives the archive member's bytes |

## Left out

- GetPageTableEntry: addresses in slot 511 are left out, and as many free frames as page tables are missing are required, because `allocatePageTable` does not check whether it got one (paging.cpp:36).
- MapPage: requires the same, and that an ALLOCATED entry names a frame the caller took; a mapped frame it overwrites counts as lost.
- UnmapPage: addresses in slot 511 are left out.
- AllocateMemory: if a page table for the range it will take is missing, requires frames for the missing tables and for the data; running out of data frames is modelled as the panic.
- Kmalloc: requires the same as AllocateMemory.
- MapAddress: requires frames for the page tables missing in the range it will take; bytes are claimed for physical ranges below 2^52, the width of the frame field.
- MapThenUnmap: requires the same as MapAddress.
- KmallocThenKfree: requires the same as AllocateMemory.
- MapRange: requires the same as MapAddress.
- UnmapMemory: requires that the caller holds the range, which is what the kernel's callers promise; freeing a range twice is not modelled.
- Kfree: requires a readable header and, as UnmapMemory, that the caller holds the range.
- ReturnFrame: requires that the frame is not free already, which the invariant of `PageMapper` gives every caller.
- MappedBytes: requires the physical range to lie below 2^52, the width of the frame field of an entry.
- FillPage: requires frames for the missing tables of the pages still to be mapped, as AllocateMemory.
- MapNext: requires frames for the missing tables of the pages still to be mapped, as MapAddress.
- RoundTrip: that the walk fails is not claimed for a member that has both a prefix and a name of exactly 100 bytes, whose name, read on into the mode and id fields, could happen to be right; members of skipped types of 2^32 bytes and more are not covered; directories are serialised with as much data as their size says.
- StepKeepsInv: a task calls `block()` only without the scheduler lock and only while it holds its run lock; a new task is created and marked RUNNABLE in one step.
- The scheduler's machine leaves free which scheduler `addTask` picks and which processor runs it, so that its for-all results hold for any choice; `SchedulerFailures` names both for its runs. That an adding processor has interrupts off, and so takes no other step before its push, is not modelled.
- `thread::destroy` is a `Mark` onto a queue that nobody wakes from; freeing the control block and the stack is left out.
- RunsWithin: a `block()` with its `yield()` is one turn; ticks that fall between the two, which the code ignores, are not counted.
- LatePush: is about runs in which no yield comes too late, since such a yield already puts a task into two places.
- MutualExclusion: only the owner releases, and no task acquires the mutex twice; here and in `DeviceTree` and `BlockingQueue` a waiter's `block()` and `yield()` are one step.
- SignalComplete: the scheduler lock around the drain loop is not part of the method; `RoundRobin.LockedYields` says what it does to yields.
- SubtreeLoaded: a device's `load()` appends children to its own node only.
- Read: requires the entry's data to lie in the image and the buffer to hold what is copied, as the C++ code does without checking.
- Addresses do not wrap around, and every block has start <= end.
- `getPageTableEntry` takes no lock; the classes `PageMapper` and `KernelMemory` therefore run one mapping operation at a time, with TLB fills and evictions in between. `Shootdown` lets whole operations of several threads interleave.
- `unmapPage` returns the frame before the shootdown, so that the TLB property is about virtual pages: a stale entry may for a while name a frame that is in use again.
- A thread stays on its processor during `unmapMemory`: preemption puts it back into the same ready queue, and nothing there blocks.
- Saving and restoring registers and the scheduler stack: a context switch is one step. Of `runLock` only this is modelled: a task runs on a processor once every other one has left it.
- Liveness of `runOn` and of spinlocks: callers wait with interrupts off, so that no progress is claimed for them.
- NeverDeadlocked: is about the protocol of the completions. Their spinlocks are not held across steps here, while `signalComplete` wakes tasks, and may yield, with its spinlock held.
- UnmapEnds: says that the steps are there to be taken; that a called processor may have interrupts off for ever is not modelled.
- The first task of a processor starts with whatever slice its control block holds; a slice of 0 wraps, and the bounds on waiting start from a slice in 1..5.
- Counters are unbounded where 32 bits cannot be reached: queue sizes, numbers of tasks.
- Memory-map entries from the boot loader with unaligned bases (kernel/arch/x86_64/kernel/mbi.cpp:98-100).
- VFS handles and node lifetimes, `populateDirectory` and its prefix test.
- Console, frame buffer, ACPI, PCIe, HPET, APIC, interrupt tables, SMP start-up, boot assembly: hardware and user interface.
- `Vector`, `String` and iterators: sequences are used instead.
