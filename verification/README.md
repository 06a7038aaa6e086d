# Verified model of the shmdos64 memory stack

This project models the core of the SHM DOS64 kernel and boot loader and proves what that core is relied on for:
the kernel's three levels of memory management (physical pages, virtual pages, heap), its page tables and TLB
shootdown, its lock-free and queued-lock protocols, and the boot loader's memory map, page tables and configuration
parser. `dafny verify dfyconfig.toml` checks all of it.

| file | models |
|---|---|
| `RingBuffer.dfy` | the lock-free queue for many producers and consumers, one atomic access per step |
| `PageStack.dfy` | the tagged stack of free pages, one memory access per step, and its construction at boot |
| `SpinLock.dfy` | the queued spin lock whose queue nodes come from per-CPU pools, one memory access per step |
| `FreeLists.dfy` | bucketed doubly linked lists, shared by the heap and the virtual page allocator |
| `HeapBlocks.dfy`, `Heap.dfy`, `HeapGuarantees.dfy` | the heap: blocks that tile units, the class that keeps them, and what callers get |
| `PageRuns.dfy`, `VirtualMemory.dfy` | the virtual page allocator: a partition into runs, and the tags, lists, counters and item pool that represent it |
| `PageTables.dfy`, `KernelPaging.dfy`, `AddressSpace.dfy` | 4-level page tables and who owns each frame, the kernel's walks over them, and `alloc`/`free`/page faults on top |
| `TlbShootdown.dfy` | the TLB shootdown mailbox of a CPU, one critical section per step |
| `BootMemory.dfy`, `BootPaging.dfy`, `Config.dfy` | the boot loader: memory map, page tables, configuration file |

Protocols are total step functions over an explicit state. A state carries history (the queue a ring buffer stands
for, the order of arrival at a lock, where a request is), and the theorems are about every sequence of steps, that is
every interleaving of any number of threads. Code that changes objects in place is a class whose methods have the
source's branches and loops. Its ghost fields hold the simple picture (blocks, runs, the tree of directories, owners of
frames), `Valid()` or `Good()` ties the two together, and every method states the new simple picture as a function of
the old one. Because every public method keeps the invariant from every state that has it, what the invariant says
holds over every run of calls.

In contracts and assertions, `P(x) == true` means `P(x)`; written so, the verifier treats the predicate as a unit
instead of unfolding it.

## What is assumed

- Atomic operations are sequentially consistent, and counters do not wrap around.
- Locks are abstract: a critical section is one step, or one method call.
- What the environment decides is a parameter: the address and the old contents of memory the heap gets from the
  virtual memory manager, the frames the firmware hands out, the boot memory descriptors, the characters of the file.
- A panic is a result (`ok` is false) or a program point, and the contracts say when it happens.
- A page-table entry is a record of an address and flags, which stands for the word that is their bitwise union; frame
  addresses are multiples of 4096 and flags are below 4096.

## Where the code does not do what one might expect

- A ring buffer of one slot loses data: published and released counters coincide (`RingBuffer.OneSlotOverflows`). From two
  slots on everything below holds.
- The third search stage of `allocPages` drops the rest of the run it takes pages from. `AllocPages` states that the
  allocator's invariant survives if and only if that stage did not meet a larger run, and that otherwise no partition of
  the pages agrees with the tags any more. `VirtualMemory.LateSplitRun` is a sequence of calls, from the constructor on,
  that gets there.
- The heap charges a huge block in whole pages and refunds it in bytes. The counter comes back to where it was if and
  only if block and sentinel fill whole pages (`HeapGuarantees.HugeRoundTrip`).
- `allocHuge` does not look at what the virtual memory manager returns: if it is null, it writes to a null header.
- The size of a request is rounded up in 64-bit arithmetic. The block is large enough if and only if the sum does not
  wrap around (`Heap.RoundingWraps`, `Heap.Heap.Alloc`).
- `freeRamPages` leaves the on-demand flag of pages that were never touched. A later fault on such a page gets a frame
  although the page is free again. `PageFault` states exactly when leaf entries and runs stay in agreement, and
  `FaultAfterFree` reserves pages, frees them and touches one, after which they do not. If such a page is allocated again,
  its frame is lost for good: `Alloc` states that this happens if and only if a page of the chosen run has RAM, and
  `LoseFrame` gets there.
- `freeRamPages` puts boot memory on the stack without regard to leaf entries that still map it. Every frame has one owner
  afterwards if and only if nobody owned or mapped these frames (`FreeBootMemory`).
- `mapPages` and `setPagesFlags` replace leaf entries without regard to the RAM they map. Every frame keeps its one owner
  if and only if each page goes on to map the RAM it mapped, if any.
- A full TLB flush request that arrives while the handler drains a queue that is not empty leaves the flush pending with no
  interrupt outstanding. `TlbShootdown.StepAnnounced` is the exact condition, and `InterruptLost` a sequence of steps that
  gets there. The requests of a run can all get flushed if and only if this did not happen in it (`FlushedIfHarmless`).

## Model

| member | source | states |
|---|---|---|
| RingBuffer.ReachableInv | include/LockFreeRingBuffer.h:30-86 | in every state reachable by any interleaving of pushes and pops on two or more slots, every slot counter tells the phase of the ticket that owns the slot |
| RingBuffer.SlotsExclusive | include/LockFreeRingBuffer.h:41-86 | each write ticket has one producer and at most one consumer, no slot is written and read at once, and readIndex <= writeIndex <= readIndex + capacity |
| RingBuffer.StepRefinesQueue | include/LockFreeRingBuffer.h:41-86 | every step is, on an abstract FIFO queue of bounded length, an append of the pushed value, a removal of the head, or nothing |
| RingBuffer.PopReturnsHead | include/LockFreeRingBuffer.h:64-86 | a pop returns what was at the head of the queue when it won its ticket, whatever all threads do until it returns |
| RingBuffer.ExecKeepsTickets | include/LockFreeRingBuffer.h:43-60 | value and winner of a write ticket never change |
| RingBuffer.PushRefusalJustified | include/LockFreeRingBuffer.h:43-58 | push gives up if and only if its ticket is still the next one and the ticket one buffer earlier was not released |
| RingBuffer.PopRefusalJustified | include/LockFreeRingBuffer.h:67-82 | pop gives up if and only if its ticket is still the next one to read and was not published |
| RingBuffer.IdxIsRemainder | include/LockFreeRingBuffer.h:47 | the recursive slot index used in the proofs is the remainder the code computes |
| RingBuffer.OneSlotOverflows | include/LockFreeRingBuffer.h:41-62 | with one slot, two pushes in a row succeed and the first value is lost |
| PageStack.RunKeepsInv | kernel/phmem.cpp:58-87 | every run of allocations, frees and writes by page owners keeps the chain in memory equal to the abstract stack and every page with one owner |
| PageStack.StepRefinesStack | kernel/phmem.cpp:58-87 | a successful 128-bit exchange takes the top page and installs the true next one, or puts the caller's page on top, although head and counter are loaded apart and a stale head page may be overwritten; no other step changes the stack |
| PageStack.PanicJustified | kernel/phmem.cpp:66-68 | the allocator panics only if the stack was empty when the head was loaded |
| PageStack.PagesConserved | kernel/phmem.cpp:58-87 | free, allocated and in-flight pages always add up to the boot pages, and the stack lists each free page once |
| PageStack.RamAllocator.constructor | kernel/phmem.cpp:30-56 | the constructor leaves the memory image, size and largest address that the regions determine |
| PageStack.RamAllocator.LinkRegion | kernel/phmem.cpp:47-54 | the pages of a region are linked in ascending order in front of the old head |
| PageStack.BootLinked | kernel/phmem.cpp:30-56 | the list that starts at the head after boot is the list of all pages of all regions |
| PageStack.BootPagesDistinct | kernel/phmem.cpp:30-56 | disjoint regions give distinct pages |
| PageStack.BootInv | kernel/phmem.cpp:30-56 | boot leaves a state with the invariant, whatever memory held before |
| SpinLock.ReachableInv | kernel/SpinLock.cpp:51-64 | for any number of locks and agents sharing entry pools, every reachable state has the queue, ownership and link invariant |
| SpinLock.MutualExclusionInOrder | kernel/SpinLock.cpp:78-142 | a lock has at most one holder, and it is the agent next in the order of tail exchanges |
| SpinLock.OrderOverRuns | kernel/SpinLock.cpp:86-138 | from any point of a run to any later one the order of arrival at a lock is only extended, and the lock only moves on in that order |
| SpinLock.HandOverInOrder | kernel/SpinLock.cpp:86-138 | over every run, whoever holds a lock later arrived no earlier: the holders are the agents at the lock's places in the order of tail exchanges |
| SpinLock.NoStaleWrite | kernel/SpinLock.cpp:84-89 | the entry an agent is about to write is in use, by itself, by its predecessor when it links, by its successor when it passes the lock on |
| SpinLock.UnlockFindsOwnEntry | kernel/SpinLock.cpp:114-126 | unlock reads the holder's own entry from m_lastLockEntry |
| FreeLists.Insert | kernel/Heap.cpp:158-166 | inserting at the front keeps heads and links in agreement with lists sorted by class, with the node added |
| FreeLists.Delete | kernel/Heap.cpp:128-142 | unlinking a node from its bucket does so with the node removed |
| FreeLists.Log2Bounds | kernel/Heap.cpp:146 | the bucket index is the logarithm rounded down |
| Heap.Heap.constructor | kernel/Heap.cpp:37-40 | an empty heap satisfies the invariant |
| Heap.Heap.DeleteMemRegion | kernel/Heap.cpp:128-142 | the block leaves its bucket list; nothing else changes |
| Heap.Heap.AddMemRegion | kernel/Heap.cpp:158-166 | the block becomes first in the list of its size |
| Heap.Heap.UpdateMemRegion | kernel/Heap.cpp:144-156 | a block that grew moves to the list of its new size, if that is another one |
| Heap.Heap.AllocEqual | kernel/Heap.cpp:53-68 | a block of the exact size becomes busy |
| Heap.Heap.AllocMore | kernel/Heap.cpp:70-87 | a larger block is split, the rest listed |
| Heap.Heap.AllocNew | kernel/Heap.cpp:89-112 | a new unit starts with a busy block and a free rest, and is charged 0x101000 |
| Heap.Heap.AllocHuge | kernel/Heap.cpp:114-126 | a huge request gets a unit of its own, charged in whole pages; it faults if and only if the virtual memory manager returned null |
| Heap.Heap.CleanMemRegion | kernel/Heap.cpp:168-174 | pages released next to busy neighbours lie in the freed block behind its header |
| Heap.Heap.CleanMemRegionUN | kernel/Heap.cpp:176-183 | pages released when the next block is joined lie in the merged block behind its header |
| Heap.Heap.CleanMemRegionUNP | kernel/Heap.cpp:185-194 | pages released when both neighbours are joined lie in the merged block behind its header |
| Heap.Heap.CleanMemRegionUP | kernel/Heap.cpp:196-204 | pages released when the previous block is joined lie in the merged block behind its header |
| Heap.Heap.FindRegion | kernel/Heap.cpp:215-246 | best fit among the first 32 of the bucket, else the first block of the next non-empty bucket, else none |
| Heap.Heap.Alloc | kernel/Heap.cpp:206-249 | exactly one block is handed out, of the rounded size, chosen as documented, and at least as large as asked for if and only if the rounding did not wrap around; all other payloads keep their contents; the invariant and the size accounting hold again |
| Heap.Heap.Free | kernel/Heap.cpp:251-336 | the block is merged with its free neighbours, or its unit goes back if it was the last busy block; released pages lie in the merged block behind its header; the accounting holds again |
| HeapGuarantees.LiveBlocksDisjoint | kernel/Heap.cpp:206-336 | live allocations are 32-byte aligned and pairwise disjoint |
| HeapGuarantees.UnitCovered | kernel/Heap.cpp:89-112 | the blocks of a unit tile it up to its sentinel |
| HeapGuarantees.AddressLinksInverse | kernel/Heap.cpp:70-112 | m_addrNext and m_addrPrev are inverse; the last block points to the sentinel, the first to null |
| HeapGuarantees.BucketExact | kernel/Heap.cpp:144-166 | bucket k holds exactly the free blocks with sizes from 2^k up to 2^(k+1), below the 21-entry table bound |
| HeapGuarantees.NoAdjacentFree | kernel/Heap.cpp:259-335 | no two neighbouring blocks are free |
| HeapGuarantees.FreeKeepsOthers | kernel/Heap.cpp:251-336 | free changes no other live payload, and returns the unit if and only if no other busy block is left in it |
| HeapGuarantees.CallerWriteHarmless | kernel/Heap.cpp:206-249 | whatever a caller writes into its payload, the heap stays consistent |
| HeapGuarantees.StandardRun | kernel/Heap.cpp:89-112 | without huge requests, a condition the constructor establishes and all other calls keep, m_virtualMemorySize is 0x101000 times the live units |
| HeapGuarantees.HugeRoundTrip | kernel/Heap.cpp:114-126 | allocating and freeing a huge block restores the units; the size counter is back if and only if block and sentinel fill whole pages, else too high, by 0xFC0 for 0x100000 bytes |
| Heap.RoundingWraps | kernel/Heap.cpp:211 | the rounded size leaves room for the request if and only if it does not wrap around |
| PageRuns.TakePartition | kernel/VirtualMemoryManager.cpp:163-219 | taking pages from a free run leaves a partition into busy runs and maximal free runs |
| PageRuns.GivePartition | kernel/VirtualMemoryManager.cpp:234-282 | so does giving a busy run back, joined with its free neighbours |
| PageRuns.TakeThenGive | kernel/VirtualMemoryManager.cpp:172-282 | freeing a fresh allocation restores the runs there were before |
| PageRuns.SameFreeRuns | kernel/VirtualMemoryManager.cpp:234-282 | the free runs are determined by the set of free pages |
| PageRuns.TagTellsBusyBase | kernel/VirtualMemoryManager.cpp:236-242 | the two tag tests of freePages hold if and only if a busy run starts at the page |
| PageRuns.TakeTags | kernel/VirtualMemoryManager.cpp:163-219 | the tags written by an allocation agree with the new partition |
| PageRuns.GiveTags | kernel/VirtualMemoryManager.cpp:244-280 | the tags written and cleared by freePages agree with the new partition, zero end sentinel included |
| VirtualMemory.UnlinkStocked | kernel/VirtualMemoryManager.cpp:147-161 | unlinking an item keeps lists, counters, pool and bump allocation in agreement |
| VirtualMemory.EnlistStocked | kernel/VirtualMemoryManager.cpp:122-141 | so does listing a run under a recycled or new item |
| VirtualMemory.FreeRunsBound | kernel/VirtualMemoryManager.cpp:105-131 | one list item is in use for every free run, and there are never more free runs than pages |
| VirtualMemory.FoundFits | kernel/VirtualMemoryManager.cpp:172-229 | whatever search stage finds an item, it is that of a free run that is large enough |
| VirtualMemory.NotFoundComplete | kernel/VirtualMemoryManager.cpp:172-232 | if the staged search finds nothing, no free run is large enough, in spite of the 32-node limit |
| VirtualMemory.RestLost | kernel/VirtualMemoryManager.cpp:220-229 | when the rest of a larger run is not listed, no partition agrees with the tags any more |
| VirtualMemory.LateSplitExact | kernel/VirtualMemoryManager.cpp:172-229 | that happens if and only if stage three took pages from a run of another size |
| VirtualMemory.LateSplitRun | kernel/VirtualMemoryManager.cpp:172-282 | 66 allocations and 33 frees from the constructor on lead to a valid state in which a request for five pages makes stage three split a run of six |
| VirtualMemory.PagesLost | kernel/VirtualMemoryManager.cpp:220-229 | after that request no partition of the pages agrees with the tags |
| VirtualMemory.VirtualMemoryManager.constructor | kernel/VirtualMemoryManager.cpp:95-120 | one free run of all pages, with all structures in agreement, and an item area large enough for one item per page |
| VirtualMemory.VirtualMemoryManager.DeleteFreeRegion | kernel/VirtualMemoryManager.cpp:147-161 | the item leaves its list and becomes the top of the pool |
| VirtualMemory.VirtualMemoryManager.AddFreeRegion | kernel/VirtualMemoryManager.cpp:122-145 | a run is listed under the next item, and its two end tags name that item |
| VirtualMemory.VirtualMemoryManager.SetBusyRegion | kernel/VirtualMemoryManager.cpp:163-170 | the run's item is recycled and the busy tags are written |
| VirtualMemory.VirtualMemoryManager.FindInBucket | kernel/VirtualMemoryManager.cpp:174-208 | best fit among the first 32 items of the bucket |
| VirtualMemory.VirtualMemoryManager.FindInLarger | kernel/VirtualMemoryManager.cpp:209-219 | the first item of the next bucket that has one |
| VirtualMemory.VirtualMemoryManager.FindInRest | kernel/VirtualMemoryManager.cpp:220-229 | the first fit among the rest of the bucket |
| VirtualMemory.VirtualMemoryManager.AllocPages | kernel/VirtualMemoryManager.cpp:172-232 | fails if and only if no free run is large enough; else takes pages from the run the search found; keeps the invariant if and only if stage three did not drop a rest; the largest number of free runs at once is recorded |
| VirtualMemory.VirtualMemoryManager.FreePages | kernel/VirtualMemoryManager.cpp:234-282 | returns 0 and changes nothing if and only if the page is not the start of a busy run; else the run is merged with its free neighbours and all structures agree again; the largest number of free runs at once is recorded |
| VirtualMemory.VirtualMemoryManager.FreeExactly | kernel/VirtualMemoryManager.cpp:234-282 | the same, with the tags, lists, counters and pool it leaves |
| VirtualMemory.VirtualMemoryManager.SetAllocFlag | kernel/VirtualMemoryManager.cpp:322-333 | the flag is set in the tag and in the partition; structures that agreed still agree, and if no partition agreed with the tags none does afterwards |
| VirtualMemory.VirtualMemoryManager.ItemsFit | kernel/VirtualMemoryManager.cpp:105-131 | the items ever taken from the bump pointer are exactly as many as the largest number of free runs there were at once, which never exceeds the pages |
| PageTables.WithDirValid | kernel/paging.cpp:103-114 | a new zeroed directory changes no leaf entry, and keeps the tree and the ownership of frames |
| PageTables.WalkIsView | kernel/paging.cpp:216-222 | following entries in memory from the root reaches exactly the leaf entries of the tree |
| PageTables.OneOwner | kernel/paging.cpp:253-370 | when no code holds a frame, every frame is free, a directory or mapped by one present leaf entry: one of these, and once |
| PageTables.FirstValid | kernel/paging.cpp:116-128 | tables built by the boot loader with a stack of other frames have exactly one owner for every frame |
| PageTables.RootHandedOver | kernel/paging.cpp:116-128 | a root directory that is empty in its slots is such a table |
| PageTables.InstallExact | kernel/paging.cpp:300-309 | mapping a frame keeps the ownership if and only if the entry did not map a frame before |
| PageTables.ReleaseLeaf | kernel/paging.cpp:261-271 | releasing the frame of a leaf entry moves it to the free stack and keeps everything else |
| PageTables.DirsTaken | kernel/paging.cpp:103-175 | a walk over pages a to b takes at most as many frames for directories as were missing for them, and exactly that many if and only if all directories they need are there in the end |
| PageTables.WalkExact | kernel/paging.cpp:103-221 | so a walk that fails only for want of frames fails if and only if fewer frames are free than directories are missing; else it takes exactly as many |
| PageTables.MissingBound | kernel/paging.cpp:135-175 | n pages miss at most 3n directories |
| PageTables.PushedExact | kernel/VirtualMemoryManager.cpp:361-377 | after a run of frames was put on the stack every frame has one owner if and only if none of them was owned, mapped or null |
| KernelPaging.PagingManager.constructor | kernel/paging.cpp:116-128 | the kernel starts with every frame owned and none held |
| KernelPaging.PagingManager.AccessToChildDir | kernel/paging.cpp:103-114 | the child directory is found or created; it panics if and only if there is none and the flags are clear or no frame is left; no frame changes its owner but from the stack to that directory |
| KernelPaging.PagingManager.ProcessPagesLevel | kernel/paging.cpp:135-175 | the recursive walk calls the callback on exactly the leaf entries of the pages of the range, each once, in ascending order, changes no other leaf entry, and notices whether one was present; it adds only directories the range needs, each for one frame, and succeeds if and only if it gets all of them; without directory flags it adds none |
| KernelPaging.PagingManager.ProcessPages | kernel/paging.cpp:177-204 | the same for a range of bytes; with directory flags it panics if and only if fewer frames are free than directories are missing, without them if and only if one is missing |
| KernelPaging.PagingManager.WalkToLeaf | kernel/paging.cpp:216-221 | the one-page walk reaches the leaf directory of the tree; it adds only directories of the page, and fails if and only if one of them is missing in the end, with no frame left |
| KernelPaging.PagingManager.ProcessPage | kernel/paging.cpp:206-227 | the one-page walk does to its page exactly what the range walk does to a range of one page, and panics under the same condition |
| KernelPaging.PagingManager.MapPages | kernel/paging.cpp:229-239 | page i of the range maps physBase + i*4096, and no other leaf entry changes; it panics if and only if fewer frames are free than directories are missing; ownership is kept if and only if every page maps the RAM it mapped before |
| KernelPaging.PagingManager.SetPagesFlags | kernel/paging.cpp:241-251 | mask and flags are applied to exactly the pages of the range; it panics if and only if fewer frames are free than directories are missing; ownership is kept if and only if every page goes on to map the RAM it mapped |
| KernelPaging.PagingManager.ReplaceFlags | kernel/paging.cpp:241-251 | with the mask `alloc` uses and flags without PAGE_FLAG_PRESENT: all flags are replaced, and ownership is kept if and only if no page of the range had RAM |
| KernelPaging.FreedFrames | kernel/paging.cpp:253-273 | after such a walk the stack holds what it held and exactly the frames the range mapped |
| KernelPaging.PagingManager.FreeRamPages | kernel/paging.cpp:253-273 | exactly the present pages of the range give their frames back, and these are on the stack besides those that were there; it panics if and only if a directory is missing |
| KernelPaging.PagingManager.FreeRamPage | kernel/paging.cpp:275-293 | the same for one page, by the one-page walk |
| KernelPaging.PagingManager.AllocPage | kernel/phmem.cpp:58-75 | the top frame of the stack is held by the caller, and no other frame |
| KernelPaging.PagingManager.FreePage | kernel/phmem.cpp:77-87 | the frame becomes the top of the stack |
| KernelPaging.PagingManager.MapPage | kernel/paging.cpp:300-309 | a frame the caller holds becomes owned by the leaf entry of the page, and is held no more; it panics if and only if fewer frames are free than directories are missing for the page; ownership is kept if and only if the page had no RAM before |
| KernelPaging.PagingManager.OnPageFault | kernel/paging.cpp:329-370 | a fault on an on-demand page gives it a frame and clears the flag; all other faults change nothing; the result says whether the access can be retried |
| AddressSpace.Start | kernel/VirtualMemoryManager.cpp:95-120 | from the boot loader's tables on, with the areas for tags and list items reserved, page allocator and page tables agree and every frame has its owner; it panics if and only if fewer frames are free than directories are missing for these areas |
| AddressSpace.MemoryManager.constructor | kernel/VirtualMemoryManager.cpp:95-120 | one free run without RAM agrees with the page tables |
| AddressSpace.MemoryManager.OneOwner | kernel/VirtualMemoryManager.cpp:284-357 | between any two calls every frame of RAM is free, a directory or mapped by one present leaf entry: one of these, and once |
| AddressSpace.FramesAccounted | kernel/VirtualMemoryManager.cpp:284-357 | a call takes frames from the stack only for directories and for the pages it changes, and puts back only frames of such pages |
| AddressSpace.MemoryManager.Commit | kernel/VirtualMemoryManager.cpp:300-323 | every page of the run gets a frame of its own, and no further frame is held; it panics if and only if fewer frames are free than pages and missing directories together, else it takes exactly as many |
| AddressSpace.MemoryManager.Reserve | kernel/VirtualMemoryManager.cpp:324-333 | every page of the run is allocated on demand; it panics if and only if fewer frames are free than directories are missing, else it takes exactly as many |
| AddressSpace.MemoryManager.Alloc | kernel/VirtualMemoryManager.cpp:284-336 | null if and only if the size rounds to no pages or no run fits; else a run backed as requested, or a panic if and only if the frames do not suffice for that run; the page allocator stays in order if and only if stage three drops no rest; every frame keeps one owner if and only if no page of the run had RAM, and else exactly the frames of such pages are lost; from an agreeing state none has, and page tables and runs agree again |
| AddressSpace.EnoughFrames | kernel/VirtualMemoryManager.cpp:284-336 | four free frames a page are always enough for `alloc`, and three if nothing is committed |
| AddressSpace.AllocatedKeeps | kernel/VirtualMemoryManager.cpp:284-336 | an allocation leaves pages of flagged runs served and all other pages without RAM if they were, and keeps the ownership of frames if and only if the run had no RAM |
| AddressSpace.BackingLoses | kernel/VirtualMemoryManager.cpp:300-333 | the frame of a page that already had one when its run is backed is afterwards neither free nor a directory nor mapped |
| AddressSpace.MemoryManager.Free | kernel/VirtualMemoryManager.cpp:338-357 | succeeds if and only if the address is that of a busy run; then no page of it has RAM, the stack holds what it held and exactly the frames of the run, on-demand flags of untouched pages stay, and everything agrees; it never panics |
| AddressSpace.MemoryManager.FreePagedMemory | kernel/VirtualMemoryManager.cpp:379-383 | pages with directories that map RAM if anything, as pages of runs with VMM_REG_ALLOC_FLAG do, give their frames back and become on-demand again if so asked for; exactly these frames are on the stack besides those that were; it does not panic, and runs and page tables stay in agreement |
| AddressSpace.MemoryManager.FreeBootMemory | kernel/VirtualMemoryManager.cpp:361-377 | panics if and only if the address is not that of a page; else exactly the frames of the range go on top of the stack, and every frame has one owner afterwards if and only if nobody owned or mapped these |
| AddressSpace.MemoryManager.FreeRamPages | kernel/VirtualMemoryManager.cpp:359-383 | what `FreeBootMemory` does for addresses in the window onto RAM, and `FreePagedMemory` for all others; runs and page tables stay in agreement whenever ownership is kept |
| AddressSpace.MemoryManager.PageFault | kernel/paging.cpp:329-370 | for every address in the walked root slots: the top frame of the stack goes to the page if it is on demand, else nothing changes; it panics if and only if a frame is needed and none is left; every frame keeps one owner; page tables and runs stay in agreement if and only if no frame went to a page of the allocator's range outside the runs with VMM_REG_ALLOC_FLAG |
| AddressSpace.MemoryManager.FaultAfterFree | kernel/VirtualMemoryManager.cpp:284-357 | reserving pages, freeing them and touching one ends that agreement, from every valid state with room for them, and always succeeds with more than three free frames a page |
| AddressSpace.MemoryManager.LoseFrame | kernel/VirtualMemoryManager.cpp:284-357 | if no other free run fits, reserving these pages again loses the frame of the page that was touched |
| TlbShootdown.ReachableInv | kernel/paging.cpp:416-460 | every interleaving of senders and the handler keeps the mailbox invariant |
| TlbShootdown.NoRequestDropped | kernel/paging.cpp:416-460 | every request is flushed after it was sent, queued, held by the handler, or covered by a full flush; the queue never exceeds 63 items |
| TlbShootdown.SlotIsSafe | kernel/paging.cpp:89-97 | no sender writes the slot the handler reads after unlocking, so it flushes what was requested |
| TlbShootdown.QuietMeansFlushed | kernel/paging.cpp:75-101 | when the mailbox is empty and the handler idle, every request was flushed |
| TlbShootdown.StepAnnounced | kernel/paging.cpp:441-458 | an interrupt stays outstanding for pending work, except exactly when a sender falls back to a full flush while the handler drains a queue that is not empty |
| TlbShootdown.HandlerDrains | kernel/paging.cpp:75-101 | with an interrupt outstanding the handler alone empties the mailbox in a bounded number of steps |
| TlbShootdown.EveryRequestFlushed | kernel/paging.cpp:75-101 | after every run without that exception, 193 steps of the handler flush every request that was sent |
| TlbShootdown.StrandedForever | kernel/paging.cpp:441-442 | a request that waits for a full flush without an interrupt outstanding waits for ever, whatever senders and handler do |
| TlbShootdown.FlushedIfHarmless | kernel/paging.cpp:75-101 | the requests of a run can all get flushed if and only if no sender of the run met that exception, and then the handler alone gets them flushed |
| TlbShootdown.StuckForever | kernel/paging.cpp:441-442 | once the handler is idle in such a state, nothing is flushed any more |
| TlbShootdown.InterruptLost | kernel/paging.cpp:75-101 | six steps that lead there |
| BootMemory.AddRange | uefi/memory.cpp:109-163 | a range is united with the regions it touches: the regions stay disjoint and never touch, and cover what they did and the range |
| BootMemory.InitMemoryMap | uefi/memory.cpp:74-168 | for disjoint descriptors the regions are disjoint, never touch, and cover exactly the usable memory above 1 MB |
| BootMemory.InOneRegion | uefi/memory.cpp:195-204 | a covered range lies in a single region |
| BootMemory.KernelAllocator.StoreBusyRegion | uefi/memory.cpp:190-226 | panics if and only if the boot allocation is not free memory; else exactly its bytes are removed, and regCnt is the number of live regions, at most one more than before |
| BootMemory.KernelAllocator.StoreBusyRegions | uefi/memory.cpp:232-239 | the same for all boot allocations |
| BootMemory.KernelAllocator.StoreParams | uefi/memory.cpp:228-260 | succeeds if and only if all boot allocations, the table included, are free memory; the "Recursively increasing" panic is unreachable; the table holds exactly the live regions, is large enough, and the count passed on is theirs |
| BootMemory.KernelRegions | uefi/memory.cpp:74-260 | the table lists exactly the usable memory above 1 MB that is not in use, in regions the kernel's page stack can be built from |
| BootPaging.PagingManager.constructor | uefi/paging.cpp:27-33 | an empty upper half over the firmware's lower half |
| BootPaging.PagingManager.MapAllRam | uefi/paging.cpp:34-37 | RAM_VIRTUAL_BASE + x translates to x for all RAM, with 1 GB pages and without; it fails if and only if there are fewer frames than one per 512 GB and, without 1 GB pages, one per gigabyte; else it takes exactly as many |
| BootPaging.PagingManager.Map1GbPage | uefi/paging.cpp:39-60 | one more gigabyte becomes visible; the "Multiple allocation" panic is unreachable; it fails if and only if the frames do not suffice for the tables it adds |
| BootPaging.PagingManager.WindowPtr | uefi/paging.cpp:62-76 | the page-directory-pointer table of a gigabyte is found, or created for one frame if the gigabyte is the first of 512; it fails if and only if that frame is missing |
| BootPaging.WindowTranslates | uefi/paging.cpp:45-59 | 1 GB pages and tables of 2 MB pages denote the same identity offset |
| BootPaging.PagingManager.AccessToPageTableEntry | uefi/paging.cpp:78-112 | the cached lookup returns the entry of the page table an uncached walk reaches; lookups change no leaf entry; it fails if and only if there are fewer frames than directories are missing; the panic about large pages is unreachable in the kernel's slot |
| BootPaging.PagingManager.MapPage | uefi/paging.cpp:114-118 | exactly one leaf entry changes; it fails under the same condition |
| BootPaging.PagingManager.MapToKernel | uefi/paging.cpp:131-146 | the pages are mapped in order at the next free kernel addresses; all other leaf entries and the rest of the tables stay; it fails if and only if there are fewer frames than directories are missing for these pages, else it takes exactly as many |
| BootPaging.MappedBytes | uefi/paging.cpp:131-146 | the processor translates ret + i to frame + i, and every other kernel address as before |
| BootPaging.TranslateByView | uefi/paging.cpp:78-112 | the processor's walk through memory agrees with the leaf entries of the tree |
| BootPaging.WindowStays | uefi/paging.cpp:131-146 | kernel mappings leave the window onto RAM as it is |
| BootPaging.HandsOver | uefi/paging.cpp:131-146 | the tables the loader leaves are tables the kernel can take over with any stack of frames that are neither directories nor mapped |
| Config.ParseFile | uefi/config.cpp:103-268 | the loop terminates on every input, and computes the specification |
| Config.RankFalls | uefi/config.cpp:120-265 | a transition that does not read a character lowers the rank of the state |
| Config.CallsAreNamed | uefi/config.cpp:103-268 | on every input parameters have non-empty names of letters, digits and underscores, and at least one value |
| Config.RoundTrip | uefi/config.cpp:103-268 | parsing printed lines, with any blanks, comments, quoted and plain values, makes one call per parameter, in order, with its values and one empty value |

## Left out

- AddressSpace.MemoryManager.FreeRamPages: requires that pages outside the window onto RAM have directories and map RAM if anything, as pages of allocated runs do.
- AddressSpace.MemoryManager.Free: requires an address at a page boundary, as `alloc` returns it; for others the page range of the release is shifted.
- KernelPaging.PagingManager.SetPagesFlags: the mask holds all bits of the frame address or none.
- KernelPaging.PagingManager.FreeRamPages: requires that the pages it frees map RAM, as `alloc` and page faults leave them.
- Heap.Heap.Alloc: the 32 sizes that round to zero are excluded, because the bucket index of zero is undefined.
- BootPaging.PagingManager.AccessToPageTableEntry: covers the kernel's root slot, where all 4 KB mappings of the loader are.
- The success path of spin `try_lock`, and `QueuedSpinLockIntLock`.
- `unmapMmio`, `VirtualMemoryManager::setPagesFlags` and unaligned `mapMmio`, which mix pages and bytes.
- Large pages in the kernel's own walks: root slots that hold them are not walked, and the panic of `onPageFault` on them is not modelled.
- Delivery of inter-processor interrupts other than that one is outstanding, and the choice of CPUs they go to.
- Local TLB flushes, cache attributes, and user address spaces.
- Stability of element addresses in `kvector` when it grows: regions are addressed by index.
- `processParam`, number parsing and file input of the configuration.
- kmutex, semaphores, condition variables, tasks and scheduling, containers, PE loading, ACPI, PCI, APIC, HPET, consoles, boot assembly.
- Weak memory ordering and wrap-around of 64-bit counters.
