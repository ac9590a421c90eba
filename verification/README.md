# Verified models of a small x86-64 kernel and its C library

This project models, in Dafny, the memory managers, the scheduler, the message ports and the
self-contained cores of a small x86-64 kernel and of the user C library that runs on it, and
proves properties of them over all inputs, all runs and all reachable states.

- `Outcomes`, `Machine`, `Lists`: results that may be a panic, sizes of the machine, distinct lists.
- `Pmm`, `PmmInit`, `PmmRuns`, `PageHolder`: the physical page allocator (`src/mm/pmm.c`). The bitmap
  of 64-bit words refines a set of free pages; initialisation from the memory map; ledgers over
  whole runs, and the calls on the allocator that are their steps.
- `PageTables`, `TableProofs`, `VmSteps`, `Vmm`, `VmRuns`: paging (`src/mm/vmm.c`). Four-level
  tables refine one map from page numbers to entries per address space, in every run.
- `ByteMemory`, `BlockList`, `BlockLaws`, `HeapView`, `UserHeap`, `HeapGrowth`, `HeapRuns`, `HeapClient`:
  the user heap (`user/lib/malloc.c`), with the block headers in the same byte memory as the payloads.
- `SlabModel`, `Slab`: the kernel slab heap (`src/mm/heap.c`) over the page allocator.
- `SchedModel`, `SchedInvariant`, `SchedFairness`, `SchedLaws`, `Scheduler`: the run queue, the thread
  states and the calls that drive them (`src/multi/thread.c` and its callers).
- `Tokens`, `PortRuns`, `Ports`: message ports (`src/userspace/port.c`).
- `Spaces`, `UserCopy`, `Regions`, `ElfLoader`: the code that uses address spaces
  (`src/userspace/syscall.c`, `src/loader/elf.c`).
- `Processes`: many processes on one page allocator, one set of tables and one memory, and what a
  call in one of them cannot do to the others.
- `MemModel`, `MemRoutines`: the byte and word memory routines (`src/misc/mem.c`).
- `Rtc`: calendar conversion (`src/arch/rtc.c`).
- `Paths`: path normalisation (`user/lib/fs.c`) and the kernel's path parser (`src/fs/vfs.c`).

`dafny verify dfyconfig.toml` checks everything.

## How the code is modelled

Objects that the C code updates in place are classes with the same fields; loops are loops with
invariants. A kernel panic is the outcome `Panic`; contracts say what can cause one. Struct pointers
are numbers and a struct field is a map from such numbers, 0 being the null pointer; the user heap,
the slab heap and the copies work on a map from byte addresses to bytes. Pure functions on values
specify what the methods do, and the properties that span several calls are lemmas about those
functions and about runs of steps.

Assumptions, each stated as a precondition or as part of a state predicate:

- The direct map of physical memory is the identity, and page tables are frames apart from data.
- No entry with the huge-page bit stands on a path that is walked. For user addresses this is proved
  and not assumed: `VmRuns.CreatedStaysOpen` and `Spaces.CreateUserSpace`. Mapping flags fit in the low
  twelve bits; `Vmm.EntryRoundTrip` shows that this is exactly what is needed.
- Where a caller reads address 0 as out of memory, page 0 may or may not be free; contracts say what
  happens in both cases. The regions of `mmap` require that page 0 is not free, because that call
  does not test for it.
- One system call, fault or timer tick is one step; a receive tests its queue and blocks in one step.
- No reading of the time-stamp counter is taken twice; `Ports.FreshToken` turns that into new tokens.
- Readings of the time-stamp counter, addresses of fresh structs, process and thread numbers, and
  the contents of fresh pages are parameters.
- Fewer than 1024 ports are ever created, since the table index never goes down.

Properties of the code that hold only under a condition have the exact condition proved:
`UserHeap.FitsIff` with `UserHeap.SmallRequestsFit` (sizes that wrap 64 bits),
`UserHeap.Heap.Calloc` with `UserHeap.CallocWraps` (a product that wraps), `SlabModel.GrantedIff`
(the header added to a large size), `Slab.SlabAllocator.Kfree` with `Slab.PagesBackIff` and
`Slab.HugeBlockStays` (the 32-bit page count in that header), `Regions.CoversIff` with
`Regions.HugeMappingIsEmpty` (rounding a mapping up), `Regions.FoundByBase` with
`Regions.EmptyRegionHidden` (an empty region hides behind the next one at its address),
`ElfLoader.PageByteRight` with `ElfLoader.PageByteWrong` (the first page of an unaligned segment),
`SchedLaws.SleepIff` (a deadline at tick 0 or past 64 bits), and `Rtc.EpochToRtc` (years past
65535).

## Model

| member | source | states |
|---|---|---|
| `Pmm.PageAllocator.MarkUsed` | src/mm/pmm.c:30-37 | succeeds exactly when the page is below the page count, and takes exactly that page from the free set |
| `Pmm.PageAllocator.MarkFree` | src/mm/pmm.c:39-46 | succeeds exactly when the page is below the page count, and adds exactly that page to the free set |
| `Pmm.PageAllocator.MarkRangeUsed` | src/mm/pmm.c:48-53 | takes from the free set exactly the pages that meet the byte range, or panics exactly when one of them is out of range |
| `Pmm.PageAllocator.MarkRangeFree` | src/mm/pmm.c:55-59 | adds exactly the pages that lie wholly inside the byte range, or panics exactly when one of them is out of range |
| `Pmm.LowestClear` | src/mm/pmm.c:70-70 | the lowest zero bit of a word: it is zero and every lower bit is one |
| `Pmm.PageAllocator.AllocPage` | src/mm/pmm.c:61-85 | succeeds exactly when some page is free, whatever the start word, and returns the lowest free page of the first word, in wrapping order from the last used one, that has any |
| `Pmm.PageAllocator.FindNext` | src/mm/pmm.c:62-79 | the word search: nothing exactly when no page is free, otherwise the lowest free page of the first word that has any, in wrapping order |
| `Pmm.PageAllocator.AllocPages` | src/mm/pmm.c:87-120 | returns nothing for 0; otherwise succeeds exactly when a run of free pages exists, takes exactly that run, and for two or more pages the run is the lowest |
| `Pmm.PageAllocator.SearchRun` | src/mm/pmm.c:94-119 | the contiguous search: the lowest run of free pages when there is one, a panic exactly when there is none |
| `Pmm.PageAllocator.FindRun` | src/mm/pmm.c:94-107 | the counting loop finds the lowest run of free pages, or nothing exactly when there is none |
| `Pmm.PageAllocator.TakeRun` | src/mm/pmm.c:108-109 | marks exactly the pages of the run |
| `Pmm.PageAllocator.FreePage` | src/mm/pmm.c:122-140 | succeeds exactly for an aligned, non-zero, in-range page that is in use, and frees exactly that page |
| `Pmm.PageAllocator.FreePages` | src/mm/pmm.c:142-145 | succeeds exactly when every page of the run can be given back, and frees exactly those pages |
| `PmmInit.Init` | src/mm/pmm.c:147-201 | completes exactly when the bitmap has room and every range is below the page count; a page is then free exactly when it lies wholly inside a usable entry and meets none of kernel, bitmap and initrd; the bitmap, eight bytes for each of its words, lies at the base of the first usable entry with room for it and no page of it is free; no bit past the last page is clear |
| `PmmInit.Layout` | src/mm/pmm.c:153-184 | the page count is that of the highest usable end, and the bitmap lies at the base of the first usable entry that has room for it |
| `PmmInit.Reserve` | src/mm/pmm.c:198-200 | takes exactly the pages that meet kernel, bitmap or initrd, or panics exactly when one of the ranges is not below the page count |
| `PmmInit.FindRoom` | src/mm/pmm.c:173-182 | the first usable entry long enough for the bitmap, or none exactly when there is none |
| `PmmInit.FreeUsable` | src/mm/pmm.c:191-196 | frees exactly the pages that lie wholly inside one usable entry |
| `PmmRuns.StepAccounted` | src/mm/pmm.c:61-145 | every allocation and release keeps the ledger: live allocations are disjoint from each other and from the free pages |
| `PmmRuns.RunAccounted` | src/mm/pmm.c:61-145 | in every run, at every step, each page of the pool is either free or held, live allocations are disjoint, and none is free |
| `PmmRuns.RunsAreSafe` | src/mm/pmm.c:61-145 | in every run no page is held by two live allocations and no held page is free |
| `PmmRuns.NothingLost` | src/mm/pmm.c:61-145 | in every run, once everything taken was given back, exactly the first free pages are free again |
| `PageHolder.Holder.Take` | src/mm/pmm.c:87-120 | an allocation on the allocator itself is a step of the ledger that takes a free run, and panics exactly when no run is free |
| `PageHolder.Holder.GiveBack` | src/mm/pmm.c:142-145 | giving back a whole live allocation is a step of the ledger and never panics |
| `Vmm.EntryRoundTrip` | src/mm/vmm.c:8-8 | an entry word gives back its frame and flags exactly when the flags fit in the low twelve bits |
| `PageTables.VpnOfSlots` | src/mm/vmm.c:3-6 | the four nine-bit indices of an address are the digits of bits 12 to 47 |
| `PageTables.LookupByVpn` | src/mm/vmm.c:40-101 | a walk depends on bits 12 to 47 of the address only |
| `TableProofs.LeafWriteView` | src/mm/vmm.c:118-138 | writing a level-1 entry is one map update in every space that reaches it through the same directory and nothing anywhere else |
| `TableProofs.AddTableLookup` | src/mm/vmm.c:44-99 | linking a fresh zeroed table changes no translation of any space |
| `TableProofs.LowHalfPrivate` | src/mm/vmm.c:144-164 | two spaces never share a directory below a lower-half entry |
| `Vmm.Mmu.NextTable` | src/mm/vmm.c:40-61 | one level of an allocating walk: an existing table is kept, an absent one is a fresh page linked and zeroed |
| `Vmm.Mmu.MakePte` | src/mm/vmm.c:40-101 | the allocating walk ends at the level-1 table of the address, changes no translation, keeps the tables a tree of distinct frames, and takes exactly the new tables from the page allocator |
| `Vmm.Mmu.FindPte` | src/mm/vmm.c:40-101 | the walk without allocation finds the level-1 table exactly when every level is present |
| `Vmm.Mmu.GetMapping` | src/mm/vmm.c:103-116 | succeeds exactly for mapped pages, with the frame and flags of the map |
| `Vmm.Mmu.MapPage` | src/mm/vmm.c:118-127 | one update of the map of the space, seen by no space that does not share the directory; the tables stay a tree and no frame but new tables leaves the allocator |
| `Vmm.Mmu.UnmapPage` | src/mm/vmm.c:129-138 | panics exactly when the page is not mapped; otherwise removes exactly that page from the map |
| `Vmm.Mmu.CreateSpace` | src/mm/vmm.c:144-164 | the new space translates exactly the upper half of the kernel space, no other space changes, and no path that was open is closed |
| `Vmm.Init` | src/mm/vmm.c:16-38 | the kernel space takes over exactly the upper half of the boot tables |
| `VmRuns.StepRefines` | src/mm/vmm.c:40-164 | every step on the tables is the same step on plain maps, one for the user half of each space |
| `VmRuns.RunRefines` | src/mm/vmm.c:40-164 | after any run the user half of every space is what replaying the operations on plain maps gives, and the tables are a tree |
| `VmRuns.Isolation` | src/mm/vmm.c:40-164 | a run that never writes into a space itself leaves every user-half translation of it unchanged |
| `VmRuns.StepView` | src/mm/vmm.c:118-164 | every step changes the whole translation of a space, both halves, by exactly one update when the write reaches it and not at all otherwise |
| `VmRuns.ReachesWhom` | src/mm/vmm.c:118-164 | a write always reaches its own space, and a write to the lower half reaches no other |
| `VmRuns.RunRefinesWhole` | src/mm/vmm.c:40-164 | over any part of any run the whole translation of a space, all of bits 12 to 47, is the replay of exactly the writes that reach it |
| `VmRuns.CreatedStaysOpen` | src/mm/vmm.c:144-164 | in every run no huge entry ever stands on the path of a user address of a space created in it, and every table on that path lets the user read and write, whatever the kernel half holds |
| `VmRuns.WholeIsolation` | src/mm/vmm.c:40-164 | a run of lower-half writes into other spaces leaves the whole translation of a space, both halves, unchanged |
| `VmRuns.KernelHalfShared` | src/mm/vmm.c:144-164 | upper-half entries present when a space was created stay shared: kernel-half addresses translate the same in every space, in every run |
| `UserHeap.RoundUp` | user/lib/malloc.c:109-109 | rounds a size up to a multiple of 8, and to 0 exactly when the sum wraps |
| `UserHeap.FitsIff` | user/lib/malloc.c:45-60 | a request gets a block that is big enough and lies in mapped memory exactly when no 64-bit sum wraps |
| `UserHeap.SmallRequestsFit` | user/lib/malloc.c:45-60 | no request below 2^63 bytes makes a sum wrap, wherever the heap pointer stands |
| `UserHeap.HugeRequestRoundsToNothing` | user/lib/malloc.c:109-109 | the largest request rounds to no bytes at all |
| `UserHeap.CallocWraps` | user/lib/malloc.c:191-193 | 2^63 + 1 members of 2 bytes ask for 2 bytes in all |
| `BlockList.Coalesced` | user/lib/malloc.c:84-89 | merging keeps the address and the flag of the block, never shrinks it, and stops at the end or at a live block |
| `BlockList.Trimmed` | user/lib/malloc.c:91-103 | splitting keeps the address and the flag, and keeps enough bytes for the request |
| `BlockList.FirstFit` | user/lib/malloc.c:111-127 | the first free block with room, every earlier one being live or too small |
| `BlockList.MergeLayout` | user/lib/malloc.c:84-89 | merging two blocks keeps the list ordered and non-overlapping, also across a gap |
| `BlockList.SplitLayout` | user/lib/malloc.c:91-103 | splitting a block keeps the list ordered, non-overlapping and aligned |
| `BlockList.MergeStep` | user/lib/malloc.c:84-89 | after the two header writes of a merge the headers in memory are those of the merged list and no other live payload changed |
| `BlockList.SplitWrites` | user/lib/malloc.c:91-103 | after the header writes of a split the headers in memory are those of the split list and no live payload changed |
| `BlockList.AppendStep` | user/lib/malloc.c:66-79 | linking a block behind the last one keeps headers and layout, and no live payload changed |
| `UserHeap.Heap.Coalesce` | user/lib/malloc.c:84-89 | the loop leaves exactly the merged list in memory and writes only inside the header of its block |
| `UserHeap.Heap.SplitBlock` | user/lib/malloc.c:91-103 | leaves exactly the split list in memory, and the kept payload and all other live payloads unchanged |
| `UserHeap.Heap.Sbrk` | user/lib/malloc.c:44-57 | panics exactly when the chunk is full and the machine has too few pages, and then nothing changes; a request that fits is served at the heap pointer and moves nothing else; any other maps a new chunk at the top with 4096 bytes to spare |
| `UserHeap.Heap.ExtendHeap` | user/lib/malloc.c:59-82 | appends one live block where sbrk serves it; every other live payload is unchanged |
| `UserHeap.Heap.FindFit` | user/lib/malloc.c:111-127 | finds exactly the first free block with room |
| `UserHeap.Heap.Malloc` | user/lib/malloc.c:105-135 | a result other than null is a new, 8-aligned, big enough block, less than 40 bytes larger than the rounded request, and nothing else the client holds changed; it comes from the first free block that is large enough, which is merged and cut, or else from sbrk; a panic exactly when no block fits and the machine is out of pages |
| `UserHeap.Heap.Free` | user/lib/malloc.c:137-146 | removes exactly the pointer from what the client holds and changes no other live byte; the block is marked free and merged with the free blocks behind it |
| `UserHeap.Heap.Realloc` | user/lib/malloc.c:148-189 | on all paths the first min(old, new) bytes are kept, the block is big enough, every other pointer keeps its bytes; the pointer stays exactly when the block, or the block merged with the free ones behind it, is large enough; says exactly when it panics; size 0 frees, a null pointer allocates |
| `UserHeap.InPlaceIff` | user/lib/malloc.c:162-174 | realloc stays in place exactly when the block and some free blocks right behind it hold enough bytes |
| `BlockLaws.CoalescedLaw` | user/lib/malloc.c:84-89 | merging takes in exactly the free blocks that follow, leaves all others as they were, and loses no byte of any block |
| `BlockLaws.TrimmedLaw` | user/lib/malloc.c:91-103 | a block is cut exactly when 40 bytes or more are left over, the rest is a free block right behind it, and no byte is lost |
| `BlockLaws.GrowsIff` | user/lib/malloc.c:84-89 | merging makes a block large enough exactly when it and free blocks right behind it hold that many bytes |
| `HeapGrowth.MallocAll` | user/lib/malloc.c:44-135 | any number of requests that fit in what is left of the chunk never panic and take no page; with no free block they follow each other in address |
| `HeapGrowth.SpareServes` | user/lib/malloc.c:44-135 | after a request that mapped a chunk, requests that take 4096 bytes in all, headers included, are served without a panic and without another page |
| `UserHeap.Heap.MoveLive` | user/lib/malloc.c:176-188 | the path that allocates, copies and frees keeps the bytes both blocks hold |
| `UserHeap.Heap.Calloc` | user/lib/malloc.c:191-199 | a block of the product modulo 2^64, all zero; nothing else changed; the block holds all members exactly when the product does not wrap; panics exactly when no block fits and the machine is out of pages |
| `HeapRuns.CallKeeps` | user/lib/malloc.c:105-199 | each call does to the heap what it does to a collection of independent byte buffers |
| `HeapRuns.RunAgrees` | user/lib/malloc.c:105-199 | in every run of malloc, calloc, realloc, free and stores every byte an object is known to hold is what memory has at its address, and distinct live objects have distinct blocks |
| `HeapClient.Client.Do` | user/lib/malloc.c:105-199 | any call, carried out on the heap itself, is that call of the run model, every object then reads as the buffers say, and only a machine out of pages stops it |
| `HeapRuns.LiveDisjoint` | user/lib/malloc.c:59-135 | live payloads are 8-aligned, lie inside the heap, and a header lies between any two |
| `SlabModel.ClassFor` | src/mm/heap.c:49-51 | the first class with big enough objects, or none exactly when the size is above every class |
| `SlabModel.GrantedIff` | src/mm/heap.c:65-67 | a block that is handed out is big enough exactly when adding the header does not wrap |
| `SlabModel.FewestPages` | src/mm/heap.c:66-67 | a large block gets no page more than it needs |
| `SlabModel.ClassSizes` | src/mm/heap.c:5-14 | eight classes, of 16 to 2048 bytes, with 170, 102, 56, 30, 15, 7, 3 and 1 blocks to a page |
| `SlabModel.HugeRequestGetsOnePage` | src/mm/heap.c:65-66 | the largest request but one gets a single page |
| `Slab.PagesBackIff` | src/mm/heap.c:76-89 | all pages of a large block are free after giving back the number kept in its header exactly when that number fits in 32 bits; pages only move between heap and allocator |
| `Slab.HugeBlockStays` | src/mm/heap.c:76-89 | a block of 2^32 pages gives none back |
| `SlabModel.Pop` | src/mm/heap.c:58-61 | taking the head of a free list: links, headers, non-overlap and every live payload are kept |
| `SlabModel.Push` | src/mm/heap.c:98-100 | putting a block back at the head of its own class keeps links, headers, non-overlap and every other live payload |
| `SlabModel.Carve` | src/mm/heap.c:30-41 | a carved block joins its list, overlaps nothing and disturbs no live payload |
| `SlabModel.AddLarge` | src/mm/heap.c:70-79 | a large block with its header disturbs nothing |
| `SlabModel.DropLarge` | src/mm/heap.c:88-89 | no other block lies on the pages of a large block, so giving them back is safe |
| `SlabModel.Poked` | src/mm/heap.c:82-101 | a client write inside its own block keeps every header, every free list and every other payload |
| `Slab.SlabAllocator.constructor` | src/mm/heap.c:5-14 | all lists empty, all counters 0, object sizes 16 to 2048 |
| `Slab.SlabAllocator.Refill` | src/mm/heap.c:16-43 | one page moves from the free ones to the heap, is carved completely, and its blocks go in front of the free list of the class; no other list and no live block changes; fails when no page is free, otherwise at most if page 0 was free |
| `Slab.SlabAllocator.Kmalloc` | src/mm/heap.c:45-80 | null for size 0; otherwise a new 8-aligned block of the right class or page count, nothing else changed, pages only move between the allocator and the heap; says when it panics |
| `Slab.SlabAllocator.TakeSmall` | src/mm/heap.c:53-62 | takes exactly the head of the list of the class, without touching the page allocator while there is one; a panic means an empty list and no page to refill it |
| `Slab.SlabAllocator.TakePages` | src/mm/heap.c:65-79 | a large block takes exactly its run of pages |
| `Slab.SlabAllocator.Kfree` | src/mm/heap.c:82-102 | never panics on a pointer the client holds; a small block goes back to the head of its own class, a large one gives back exactly the pages counted in its header, which are all of them exactly when their number fits in 32 bits; pages only move between heap and allocator |
| `Slab.ClassPartition` | src/mm/heap.c:16-102 | in each class free and live blocks partition the carved ones, the free list has total minus used elements, and used is the number of live blocks |
| `Slab.PayloadsApart` | src/mm/heap.c:16-80 | no live payload shares a byte with any other block, live or free |
| `SchedModel.Pick` | src/multi/thread.c:104-119 | the first thread from the head that is ready or asleep past its deadline, and no earlier one is |
| `SchedModel.LiveProcs` | src/multi/process.c:127-153 | exactly the processes whose thread is not dead remain |
| `SchedModel.Find` | src/multi/process.c:114-125 | a thread of the process when there is one, and nothing exactly when there is none |
| `SchedInvariant.ScheduleKeeps` | src/multi/thread.c:153-176 | schedule keeps the invariant, never switches to a blocked or dead thread, and falls back on idle only when idle is current |
| `SchedInvariant.NoPick` | src/multi/thread.c:118-121 | when no thread can be picked, idle is current and running |
| `SchedInvariant.CleanedKeeps` | src/multi/process.c:127-184 | cleaning up keeps the invariant and frees no thread that is queued, current or idle |
| `SchedInvariant.StepKeeps` | src/multi/thread.c:78-240 | every step from a good state is possible and leads to a good state |
| `SchedInvariant.BootedIsGood` | src/multi/thread.c:19-28 | the state after thread_init is good |
| `SchedInvariant.RunKeeps` | src/multi/thread.c:78-240 | in every run every state is good: one cycle of distinct threads holding idle and exactly the threads that are not dead, at most one running and it is current |
| `SchedLaws.ScheduleLaw` | src/multi/thread.c:100-176 | scheduling leaves dead threads and blocked ones that are not overdue as they are, every thread that could run still can, an overdue one that is picked has its deadline cleared, and the queue keeps its members |
| `SchedLaws.ExitLaw` | src/userspace/syscall.c:116-130 | exit makes every thread that waits for the process able to run and waiting for nobody, touches no other, and leaves the exiting thread dead, unqueued and to be cleaned up |
| `SchedLaws.FaultLaw` | src/arch/idt.c:216-220 | a fault leaves the thread dead and unqueued, wakes nobody and asks for no clean-up |
| `SchedLaws.KillLaw` | src/userspace/syscall.c:260-307 | kill leaves the thread of the process dead, unqueued and to be cleaned up, wakes nobody, and does nothing without such a process |
| `SchedLaws.WaitLaw` | src/userspace/syscall.c:241-251 | a waiter records its target and blocks, unless a deadline of its own is already past, and returns at once when there is no such process |
| `SchedLaws.ReceiveLaw` | src/userspace/port.c:90-94 | a receive on an empty port blocks the caller and changes no other thread beyond scheduling |
| `SchedLaws.SleepLaw` | src/userspace/syscall.c:253-258 | a sleeper is blocked until the tick now + ms |
| `SchedLaws.PickedFrom` | src/multi/thread.c:104-119 | a thread blocked until a tick can be picked from that tick on and not before |
| `SchedLaws.SleepIff` | src/userspace/syscall.c:253-258 | a sleeper wakes on time exactly when its deadline is neither tick 0 nor past 64 bits |
| `SchedLaws.WakeLaw` | src/userspace/port.c:78-79 | a blocked thread becomes ready and nothing else changes |
| `SchedLaws.SpawnLaw` | src/multi/process.c:69-109 | a new process is at the head of the list and its thread ready at the end of the queue; no other thread changes |
| `SchedLaws.TickLaw` | src/arch/idt.c:242-261 | a tick advances the clock by one; a pending clean-up removes exactly the dead threads and their processes and starts init when none is left |
| `SchedLaws.WaiterRuns` | src/multi/thread.c:78-240 | in every run whoever waits for a process that exits runs at once or within as many calls of runqueue_next as there are queued threads, unless it leaves before |
| `SchedFairness.ScheduleCloser` | src/multi/thread.c:100-122 | one call of schedule picks a thread that could run or brings it strictly closer to the head |
| `SchedFairness.StepCloser` | src/multi/thread.c:78-176 | no step moves a thread that could run further from the head, and one that schedules picks it or brings it strictly closer |
| `SchedFairness.BoundedBypass` | src/multi/thread.c:78-149 | in every run a thread that could run at distance d, the current one included, is chosen within d + 1 calls of runqueue_next unless it is killed or itself blocks or ends, whatever happens to other threads |
| `Scheduler.RotatedCycle` | src/multi/thread.c:111-115 | moving the head along the links leaves the same single cycle |
| `Scheduler.UnlinkedCycle` | src/multi/thread.c:142-148 | unlinking a thread leaves one single cycle of the others |
| `Scheduler.RunQueue.Push` | src/multi/thread.c:78-98 | appends the thread behind the tail, ready, and the links still form one cycle |
| `Scheduler.RunQueue.Next` | src/multi/thread.c:100-122 | returns exactly the thread the model picks, wakes it if it slept, and moves the head past it |
| `Scheduler.RunQueue.Predecessor` | src/multi/thread.c:134-141 | finds the thread before another on the cycle exactly when that one is queued |
| `Scheduler.RunQueue.Remove` | src/multi/thread.c:124-149 | removes exactly the thread, or nothing when it is not queued; one cycle remains |
| `Scheduler.RunQueue.Reschedule` | src/multi/thread.c:153-176 | does what the model of schedule says |
| `Scheduler.RunQueue.WakePid` | src/multi/thread.c:227-240 | makes ready exactly the queued threads that wait for the process |
| `Scheduler.RunQueue.constructor` | src/multi/thread.c:19-28 | the boot state |
| `Scheduler.RunQueue.FindProc` | src/multi/process.c:114-125 | the first process with the number |
| `Scheduler.RunQueue.Create` | src/multi/process.c:102-109 | a new process at the head of the list and its thread at the end of the queue |
| `Scheduler.RunQueue.Exit` | src/userspace/syscall.c:116-130 | is the exit step of the model |
| `Scheduler.RunQueue.Fault` | src/arch/idt.c:216-220 | is the fault step of the model |
| `Scheduler.RunQueue.Kill` | src/userspace/syscall.c:260-307 | is the kill step of the model, and fails exactly when there is no such process |
| `Scheduler.RunQueue.Wait` | src/userspace/syscall.c:241-251 | is the wait step of the model |
| `Scheduler.RunQueue.SleepFor` | src/userspace/syscall.c:253-258 | is the sleep step of the model |
| `Scheduler.RunQueue.AwaitMessage` | src/userspace/port.c:90-94 | is the receive step of the model |
| `Scheduler.RunQueue.WakeOwner` | src/userspace/port.c:78-79 | is the wake step of the model |
| `Scheduler.RunQueue.FreeDead` | src/multi/process.c:128-153 | the loop leaves exactly the live processes, in order, and frees exactly the dead threads |
| `Scheduler.RunQueue.CountAlive` | src/multi/process.c:155-163 | counts the processes left alive |
| `Scheduler.RunQueue.Cleanup` | src/multi/process.c:127-184 | is the clean-up of the model, which starts init again exactly when no process is alive |
| `Scheduler.RunQueue.OnTick` | src/arch/idt.c:242-261 | is the tick step of the model |
| `Scheduler.RunQueue.Do` | src/multi/thread.c:78-240 | any step, carried out on the linked queue, keeps one cycle and the invariant and is that step of the model |
| `Tokens.FoldTwice` | src/userspace/port.c:30-30 | xor with a shift by 33 is its own inverse |
| `Tokens.FoldBit` | src/userspace/port.c:30-30 | each bit is flipped exactly when the bit 33 places higher is set |
| `Tokens.TimesBack` | src/userspace/port.c:31-33 | multiplying by an odd constant modulo 2^64 is undone by its inverse |
| `Tokens.MixBijective` | src/userspace/port.c:30-34 | the mixing of the counter reading is a bijection of the 64-bit values |
| `Tokens.MixInjective` | src/userspace/port.c:30-34 | distinct readings give distinct tokens, and only the reading 0 gives the failure value 0 |
| `Ports.FreshToken` | src/userspace/port.c:23-46 | a reading not taken before gives a token not given before, and only the reading 0 gives the token 0 |
| `Ports.PortTable.Create` | src/userspace/port.c:23-46 | a new counter reading opens an empty queue under a token never given out before, null only for the reading 0; nothing else changes |
| `Ports.PortTable.Lookup` | src/userspace/port.c:48-55 | finds the port of an open token, and null for every other token |
| `Ports.PortTable.Forward` | src/userspace/port.c:57-82 | appends the message to the queue of the token, or fails exactly when no port has it |
| `Ports.PortTable.Enqueue` | src/userspace/port.c:63-76 | head and tail stay null together, the tail stays the last reachable node, other queues are untouched |
| `Ports.PortTable.Receive` | src/userspace/port.c:84-111 | takes the first message and delivers its front, as many bytes as message and buffer both have; waits exactly when the queue is empty; fails exactly when no port has the token |
| `Ports.PortTable.Dequeue` | src/userspace/port.c:96-101 | the first message leaves, the rest stay linked from head to tail |
| `Ports.PortTable.Destroy` | src/userspace/port.c:113-136 | the port, its messages and its slot go; every other port keeps its queue |
| `Ports.PortTable.NoLeak` | src/userspace/port.c:63-136 | at any time the message structs there are, are exactly those in the queues of open ports |
| `PortRuns.Fifo` | src/userspace/port.c:57-111 | in every run that keeps a port open, messages queued and sent equal messages received followed by messages queued, in order, and each receive delivered the front of its message, to the end of the message or of its buffer |
| `Spaces.Space.Map` | src/mm/vmm.c:118-127 | one update of the map of this space at a user address; no other space sees it |
| `Spaces.Space.Unmap` | src/mm/vmm.c:129-138 | removes exactly one page of this space, fails exactly when it is not mapped, and no other space sees it |
| `VmSteps.PrivateWrite` | src/mm/vmm.c:118-138 | a write to the lower half changes no translation of any other space |
| `Spaces.CreateUserSpace` | src/mm/vmm.c:144-164 | a new space has no user page, is open for every user address, and disturbs no other space; no condition on the kernel half |
| `Spaces.UserTopIs` | src/userspace/syscall.c:22-26 | the user limit is exactly the end of the lower half |
| `Spaces.StandsElsewhere` | src/mm/vmm.c:118-164 | a space keeps its pages and their frames whatever is done in another one that gives back none of them |
| `UserCopy.Locate` | src/userspace/syscall.c:22-41 | gives the physical address exactly when the byte is below the user limit, mapped, and allowed |
| `UserCopy.WriteChunk` | src/userspace/syscall.c:23-47 | writing the part of a page in one block is writing it byte by byte |
| `UserCopy.CopyToUser` | src/userspace/syscall.c:15-50 | the page-wise copy equals the byte-by-byte write through the page table, result and memory, also when it fails |
| `UserCopy.CopyFromUser` | src/userspace/syscall.c:52-87 | the page-wise copy equals the byte-by-byte read through the page table, also when it fails |
| `UserCopy.WritesPrefix` | src/userspace/syscall.c:15-50 | the copy succeeds exactly when every byte can be reached, and otherwise writes exactly the bytes before the first that cannot |
| `UserCopy.ReadsPrefix` | src/userspace/syscall.c:52-87 | a read succeeds exactly when every byte can be reached, and gives exactly the bytes before the first that cannot |
| `UserCopy.CopyRoundTrip` | src/userspace/syscall.c:15-87 | what was copied to the user is read back whenever the pages have distinct frames |
| `UserCopy.MmuAgrees` | src/userspace/syscall.c:22-41 | a user address passes the checks of the copies exactly when the processor in user mode would be allowed the access through all four levels |
| `UserCopy.LeafDecides` | src/mm/vmm.c:40-101 | on a path made by the kernel for the user, the last entry alone decides what the processor allows |
| `Regions.CoversIff` | src/userspace/syscall.c:140-140 | a mapping covers its request exactly when rounding up does not wrap |
| `Regions.FewestPages` | src/userspace/syscall.c:140-140 | no smaller number of pages covers a request that does not wrap |
| `Regions.HugeMappingIsEmpty` | src/userspace/syscall.c:140-140 | the largest request gets no page |
| `Regions.FoundByBase` | src/userspace/syscall.c:166-178 | a region is the one found at its address exactly when it has pages, is the newest, or the next newer one starts elsewhere |
| `Regions.DroppedWhole` | src/userspace/syscall.c:166-178 | dropping the region that is found keeps the list stacked, and for a whole region takes exactly its pages from the listed ones |
| `Regions.EmptyRegionHidden` | src/userspace/syscall.c:138-178 | an empty region is hidden by a later one at the same address |
| `Spaces.OwnsMore` | src/userspace/syscall.c:143-147 | one more page on a fresh frame: every user page still has its own frame, marked used |
| `Spaces.OwnsLess` | src/userspace/syscall.c:180-191 | one page less: its frame is free and every other user page still has its own frame, marked used |
| `Regions.Process.Mmap` | src/userspace/syscall.c:138-159 | a new region at the old top, disjoint from all others, every page on its own frame that was free; every other page of the space keeps its translation; no other space sees it; the list stays exact if it was; a panic means no page is free |
| `Regions.Process.Munmap` | src/userspace/syscall.c:161-194 | for any range of user addresses, listed or not, whole or partial, mapped by mmap or not: never reaches the double-free panic, exactly the mapped pages of the range go and exactly their frames become free; no other space sees it; a whole region leaves the list exact |
| `Regions.FramesAre` | src/userspace/syscall.c:180-191 | the frames given back are exactly those of the mapped pages of the range |
| `Processes.ProcessTable.Mmap` | src/userspace/syscall.c:138-159 | mmap in one process keeps every other process valid: their translations, frames and memory are as they were |
| `Processes.ProcessTable.Munmap` | src/userspace/syscall.c:161-194 | munmap in one process gives back no frame of another one and keeps them all valid |
| `Processes.ProcessTable.CopyTo` | src/userspace/syscall.c:15-50 | a copy into one process changes no byte any other process can reach |
| `Processes.ProcessTable.Create` | src/multi/process.c:9-17 | a new process has its file in place at the head of the list and shares nothing with the others, no byte they can reach changes; false exactly for a bad header or entry point 0; a panic means no page is free |
| `Processes.ProcessTable.NoSharedFrame` | src/userspace/syscall.c:138-194 | at any time, whatever calls were made, no frame is behind two user pages, of one process or of two |
| `Processes.RegionReachable` | src/userspace/syscall.c:143-147 | the user may read and write every byte of a region that was just mapped |
| `Processes.CopyUnseen` | src/userspace/syscall.c:15-50 | writing through one space is invisible through a space that shares no frame with it |
| `Processes.ReadsAgree` | src/userspace/syscall.c:52-87 | a process that sees no change reads the same bytes from every range |
| `ElfLoader.PageByteRight` | src/loader/elf.c:59-73 | for a segment whose first page is copied right, every page holds the promised byte at every address |
| `ElfLoader.ReadsInside` | src/loader/elf.c:59-73 | the bytes copied for a page lie in the part of the file the header names, except that an unaligned first page may run past it by its offset in the page |
| `ElfLoader.PageByteWrong` | src/loader/elf.c:65-70 | for any other segment a file of ones shows a wrong byte |
| `ElfLoader.PageWritten` | src/loader/elf.c:57-73 | clearing a frame and copying the piece gives exactly the bytes of the page and touches no other |
| `ElfLoader.LoadPage` | src/loader/elf.c:48-76 | the page holds its bytes on a fresh frame, and pages loaded before keep theirs; no other space and no byte on another frame changes; false means page 0 was free, a panic that no page is free or page 0 was |
| `ElfLoader.LoadSegment` | src/loader/elf.c:41-76 | all pages of the segment are loaded and no other page changes; says what a failure or a panic means |
| `ElfLoader.ElfLoad` | src/loader/elf.c:5-80 | refuses bad headers with 0; on success all load segments are in place, the later one where two share a page, and the entry point is returned; works on free frames only; 0 otherwise means entry point 0 or page 0 free, a panic that no page is free or page 0 was |
| `ElfLoader.WholeInPlace` | src/loader/elf.c:35-77 | a segment that shares no page with a later one is in place as a whole |
| `ElfLoader.LoadedReads` | src/loader/elf.c:35-77 | reading through the page tables gives file byte offset+k at vaddr+k below filesz and zero up to memsz, and the user may write there exactly when the header says so |
| `MemModel.FilledMeans` | src/misc/mem.c:5-12 | memset sets exactly the range |
| `MemModel.ForwardMoves` | src/misc/mem.c:24-30 | copying first byte first moves the range unchanged unless it starts inside a later part of the source |
| `MemModel.BackwardMoves` | src/misc/mem.c:31-37 | copying last byte first moves the range unchanged when it lies at or above its source |
| `MemModel.ComparedMeans` | src/misc/mem.c:42-55 | zero exactly for equal ranges, otherwise the difference at the first byte that differs |
| `MemModel.ForwardQuad` | src/misc/mem.c:98-101 | a word step between aligned pointers is four byte steps, for every overlap |
| `MemModel.BackwardQuad` | src/misc/mem.c:154-157 | the same from the end down |
| `MemRoutines.Memset` | src/misc/mem.c:5-12 | leaves memory as setting byte by byte does, and stores the argument itself when it is a byte |
| `MemRoutines.LowOnly` | src/misc/mem.c:5-12 | the byte stored depends on the argument modulo 256 only |
| `MemRoutines.Memcpy` | src/misc/mem.c:14-22 | leaves memory as copying byte by byte does |
| `MemRoutines.Memmove` | src/misc/mem.c:24-40 | moves the range unchanged for every overlap |
| `MemRoutines.Memcmp` | src/misc/mem.c:42-55 | the byte-by-byte comparison |
| `MemRoutines.Memset32` | src/misc/mem.c:57-83 | the same memory as memset, for every alignment and length |
| `MemRoutines.Memcpy32` | src/misc/mem.c:85-111 | the same memory as memcpy, for every alignment, length and overlap |
| `MemRoutines.Memmove32` | src/misc/mem.c:113-168 | moves the range unchanged for every alignment, length and overlap in both directions |
| `MemRoutines.Memcmp32` | src/misc/mem.c:170-222 | exactly the value of memcmp |
| `Rtc.DaysSinceEpochToYear` | src/arch/rtc.c:27-34 | days of the years from 1970 |
| `Rtc.RtcToEpoch` | src/arch/rtc.c:70-80 | the seconds of the date |
| `Rtc.SplitYears` | src/arch/rtc.c:89-102 | the year and the day in it, for all days that 16-bit years reach |
| `Rtc.SplitMonths` | src/arch/rtc.c:104-113 | the month and the day in it, by the table of month starts; never runs past December |
| `Rtc.EpochToRtc` | src/arch/rtc.c:82-116 | a valid date whose seconds are the input exactly for inputs below 2005949145600, the first second of the year 65536 |
| `Rtc.RoundTrip` | src/arch/rtc.c:70-116 | converting a date to seconds and back gives the date |
| `Rtc.OrderIsEpochOrder` | src/arch/rtc.c:70-80 | calendar order is epoch order, and no two dates share a second |
| `Rtc.DaysToClosed` | src/arch/rtc.c:27-34 | the looped day count equals the closed form with its leap-year corrections |
| `Rtc.EpochIsPosix` | src/arch/rtc.c:70-80 | the seconds are those of POSIX.1-2017 Base Definitions, section 4.16, with the day of the year from the calendar table |
| `Rtc.MonthStarts` | src/arch/rtc.c:8-25 | the looped month lengths give the day counts 0, 31, 59, 90, 120, 151, 181, 212, 243, 273, 304 and 334, one more after February of a leap year |
| `Rtc.LimitIs` | src/arch/rtc.c:82-102 | 16-bit years end at second 2005949145600 |
| `Paths.Scan` | user/lib/fs.c:36-74 | the character loop applies the segments in order, dropping empty ones, "." and popping on ".." |
| `Paths.Join` | user/lib/fs.c:6-100 | the normalised path in full, or an input that names a drive, cut to the buffer; for any other input it fails exactly when the working directory has no drive of fewer than eight characters, there would be more than 32 components, or the path and its terminator do not fit in the buffer |
| `Paths.Print` | user/lib/fs.c:82-99 | prints the whole path, or fails exactly when it does not fit with its terminator |
| `Paths.ParsePath` | src/fs/vfs.c:7-28 | drive number and rest, exactly when all characters before the first colon are digits |
| `Paths.NextComponent` | src/fs/vfs.c:30-45 | the next name and what follows it |
| `Paths.NextNameIs` | src/fs/vfs.c:30-45 | behind the slashes, a name without one, of at most 255 characters, that ends at a slash, at the end or at the limit |
| `Paths.SkippedIs` | src/fs/vfs.c:31-33 | exactly the slashes at the front are skipped |
| `Paths.NumberOfDecimal` | src/fs/vfs.c:7-28 | the drive number is read in decimal |
| `Paths.ComponentsPlain` | user/lib/fs.c:38-53 | components are never empty, "." or ".." |
| `Paths.KernelReadsBack` | src/fs/vfs.c:7-45 | the kernel splits the joined path into exactly the normalised components |
| `Paths.JoinDot` | user/lib/fs.c:6-100 | joining "." leaves a joined path unchanged |
| `Paths.JoinUp` | user/lib/fs.c:6-100 | joining ".." drops exactly the last component, and changes nothing at the root |
| `Paths.JoinThereAndBack` | user/lib/fs.c:6-100 | joining a name and ".." changes nothing, and fails exactly when there are 32 components already |
| `Paths.JoinNormal` | user/lib/fs.c:6-100 | a normal path with a leading slash stays as it is up to 32 components and fails beyond |
| `Paths.TextSlashes` | user/lib/fs.c:76-98 | the printed components have one slash between them and none at either end |
| `Paths.LongName` | user/lib/fs.c:36-74 | a name is cut to 63 characters |
| `Paths.DriveLimit` | user/lib/fs.c:6-34 | the working directory must have a colon among its first seven characters |
| `Paths.JoinTwice` | user/lib/fs.c:6-100 | joining a/b equals joining a and then b, failures included |

## Left out

- Assembly stubs, context switch, TLB flushes, CR3 loads, APIC, GDT, IDT, TSS and MSR set-up: a switch is a change of the current thread.
- Interrupts inside a system call: the calls are atomic here.
- Wake-up guarantees for `sys_kill` and for waiting on a process that is already dead: the code gives none.
- Sleep durations in milliseconds: `sys_sleep` adds them to a tick count, and so does the model; the tick count itself is unbounded.
- SchedLaws.SleepLaw: says nothing about a deadline at tick 0 or past 64 bits, where `SchedLaws.SleepIff` shows that the sleeper does not wake on time, nor about a sleep of no ticks, whose caller can be picked at once.
- `sys_mmap` at an address the caller chooses: it can move the top of the heap backwards, so that regions overlap.
- What `join` leaves in the buffer when it fails, and `Paths.Join` for a buffer of no bytes.
- The width of the drive number in `parse_path`, which is an unbounded number here.
- Reading program headers and the header fields out of the file: `ElfLoader` gets them as records.
- The struct that holds an address space, and freeing stacks, regions, page tables and descriptors of a dead process.
- Ownership of ports by processes (`sys_port_create`, `sys_port_receive`), and ports left behind by a process that faulted.
- tar and device file systems, file descriptors and reference counts, the framebuffer console, keyboard, serial line, printf, the shell and the user programs: no modelled component depends on them, and they keep no state that these properties speak of.
- `vfs_resolve` beyond its path parser.
- Pmm.PageAllocator.MarkRangeUsed: the end of a range is an unbounded number here, where the code computes it in 64 bits.
- Pmm.PageAllocator.MarkRangeFree: the same.
- PmmInit.Init: the same for the ends of the entries of the memory map.
- Vmm.Mmu.MakePte: requires that no huge-page entry stands on the path; the code would follow one as if it were a table, so there is no map for the tables to refine.
- Vmm.Mmu.FindPte: the same.
- Vmm.Mmu.GetMapping: the same.
- Vmm.Mmu.UnmapPage: the same.
- Vmm.Mmu.MapPage: the same, and flags above bit 11, such as the no-execute bit, are excluded: the code masks only the low twelve bits off again, and `Vmm.EntryRoundTrip` shows the condition is exact.
- Spaces.Space.Map: user addresses only, and flags that fit in the low twelve bits.
- Spaces.Space.Unmap: user addresses only.
- VmRuns.StepRefines: the user half only; `VmRuns.StepView` is about both halves.
- VmRuns.RunRefines: the user half only; `VmRuns.RunRefinesWhole` is about both halves.
- VmRuns.Isolation: the user half only; `VmRuns.WholeIsolation` is about both halves.
- PageHolder.Holder.GiveBack: whole allocations only; `Pmm.PageAllocator.FreePages` covers every run of pages.
- Scheduler.RunQueue.FreeDead: the process list is a sequence, so the pointer-to-pointer unlinking is not modelled.
- UserHeap.Heap.Sbrk: requires that no 64-bit sum wraps, as `UserHeap.Heap.Malloc` does.
- UserHeap.Heap.ExtendHeap: the same condition.
- UserHeap.Heap.MoveLive: the same condition on the new size.
- UserHeap.Heap.Calloc: the same condition on the product modulo 2^64.
- HeapClient.Client.Do: the same condition on the size asked for.
- HeapGrowth.SpareServes: the same condition on the first size.
- UserHeap.Heap.Malloc: requires that no 64-bit sum wraps, because beyond that `sbrk` hands out addresses outside its chunk; `UserHeap.FitsIff` shows the condition is exact.
- UserHeap.Heap.Realloc: the same condition on the new size.
- UserHeap.Heap.Mmap: only the heap maps memory, at ascending addresses; other mappings of the process are not in this model.
- Regions.Process.Mmap: requires that the addresses stay below the user limit, and that page 0 is not free; the code tests neither.
- Regions.Process.Munmap: the range must lie below the user limit; the code does not test for it.
- ElfLoader.ElfLoad: requires load segments below the user limit, their file parts inside the file, and a page of readable memory behind the file; the code tests none of these.
- ElfLoader.LoadedReads: the same conditions on one segment.
- Processes.ProcessTable.Mmap: the conditions of `Regions.Process.Mmap`.
- Processes.ProcessTable.Munmap: the condition of `Regions.Process.Munmap`.
- Processes.ProcessTable.Create: the conditions of `ElfLoader.ElfLoad`, and page 0 not free; the user stack and the arguments on it are not part of this model.
- Ports.PortTable.Create: the table must not be full; the code does not test for it.
- Ports.PortTable.Receive: the buffer it fills is a value, so overlap with kernel memory is not modelled.
- UserCopy.CopyToUser: the kernel's source bytes are a value, so a source that lies in the user's own frames is not modelled.
