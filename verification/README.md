# ARMv7-OS: a verified model of its heap, its processes and its formatter

Three parts of the system are modelled and proved.

**The heap** (`HeapBlocks`, `HeapWords`, `HeapAllocator`, `HeapLaws`, `UserThread`). A first-fit `malloc` and a
coalescing `free` work in place on the words of one megabyte. Each block has a control word (size, free bit, top bit),
the size of the block before it and, when free, a link laid over its payload. `HeapAllocator` follows the code store by
store; every method is proved against the sequence of blocks it leaves. The headers are kept right by every call
(`Heap.Valid`); the links can go wrong while the scans are off, so they are a claim of their own (`Heap.AllLinked`).
`HeapLaws` proves what follows for runs of calls, mostly from one fact: a coalesced heap is determined by its live
blocks. `UserThread` is the endless client with 64 slots, shown never to be refused.

**Processes** (`PageTable`, `ProcessView`, `Kernel`). Eight processes share one window of virtual addresses and one
physical memory; a context switch rewrites two page table entries. `ProcessView` says what this is for: eight private
memories, one owner per thread, nothing else. `Kernel` proves that the page table, the counters and the reserved flags
implement it, call by call and over whole runs.

**The formatter** (`Kprintf`). The scanner and the digit printers print exactly the rendering of the format string, and
numerals read back as their numbers.

`Overlap` states where the first two meet: the heap's last words lie in the data of process 0. `Machine` holds the
machine word. Stores into words are checked to be in range, so no modelled arithmetic wraps around.

## Assumptions

- The heap's client does not write through the pointers it gets: `malloc` returns the address of the header, so a
  store there would replace the block's control word.
- The kernel calls its hooks as `ProcessView.Legal` says: a created thread has no process yet and is created by a
  running thread of some process, or during boot; a child is created while the process created last is alive; an
  exiting thread has a process; the next thread is idle or has a process; `old` is the thread scheduled last. Thread 1
  is never detached by the code, so its slot stays in use.
- That a running thread creates is what the dispatcher does: only a thread's supervisor call reaches
  `scheduler_new_thread` (`system/exceptions.c:98-101`). It is also what keeps a creation from copying a section onto
  itself: without it, idle after the last exit of the process in the windows, the source would be the section to be
  filled (`Kernel.CreationSource`, with the exact condition).
- The dispatcher passes r7 as the creation's flags (`system/exceptions.c:100`), which is the number of the call, 1, and
  so always means a child. At a first creation no process is alive, so the tree's own dispatcher does not keep the
  discipline there, and the tables are wrong after it (`Kernel.ChildFirst`). The proofs are about callers that do keep
  it.
- The section descriptor layout is that of section B3.5.1 of the ARM Architecture Reference Manual ARMv7-A and
  ARMv7-R (DDI 0406C).

## What the code does, where its comments say otherwise

- `copy_userdata_template` reads through the user data window, so outside boot a new process starts from its creator's
  data and not from the template (`ProcessView.StartsFromTemplate`, `ProcessView.SecondInheritsWrite`).
- It copies 10000 bytes, the value the source gives to `MB`. The rest of the section, and the whole heap section, keep
  what the slot's previous process left, byte for byte (`ProcessView.SurvivesCreation`), and the new process can read
  it (`ProcessView.PredecessorRead`).
- A process's heap window is section 24 + p (`memory/mmu.c:80`), not one of the sections 48 to 55 that
  `init_heap_sections` sets aside.
- A child thread joins the process that was created last (`scheduler/scheduler.c:38-40`). That is its creator's exactly
  if no process has been started since (`ProcessView.ChildJoinsCreator`); `ProcessView.ChildJoinsOther` is a run in
  which it is not.
- Until 15 allocations after the first have been made, `find_next_free` looks at the neighbour only. A block freed by
  then, unless it lies directly below the top block, links to the reserved block above it (`HeapLaws.FreeKeepsChain`),
  and a request too large for the freed block that fits this live one is given it again
  (`HeapLaws.EarlyFreeMisleads`, `HeapLaws.EarlyFreeHandsOutTwice`).
- The top block can be taken whole, after which it is handed out again to the same request and to every smaller one
  (`HeapLaws.TopHandedOutTwice`). With 4 or 8 bytes to spare the top mark is lost (`HeapWords.ReservedWordDescribes`),
  and the next scan leaves the heap (`HeapLaws.TopMarkLost`).
- The heap is 8 bytes longer than its section, and the code uses two words behind it. These 16 bytes are the first ones
  of section 8, the data of process 0, whichever process runs (`Overlap.HeapReach`), so private memory fails there for
  the system as a whole: a store of any process's allocator to one of them is a write to process 0's data
  (`Overlap.SlackIsForeign`), harmless exactly if it stores the byte that was there (`Overlap.FirstKeeps`). The size of
  the top block goes to bytes 12 to 15. It is stored exactly by a request that splits the top block, the first one
  excepted (`HeapAllocator.Heap.Malloc`), and by freeing the block directly below a free top block
  (`HeapAllocator.Heap.Free`); bytes 8 to 11 are only looked at, when a reserved top block is freed. `Kernel` and the
  heap's modules each take their memory for their own.
- The branch that would set `no_free_space` (`user/heap.c:120-124`) is dead: its test is what the loop condition denies.

## Model

| member | source | states |
|---|---|---|
| HeapBlocks.TakeWellFormed | user/heap.c:155-192 | handing out a block keeps the tiling of the heap and leaves no two free neighbours; the top block stays free unless it is taken whole |
| HeapBlocks.ReleaseWellFormed | user/heap.c:208-253 | freeing a block, the reserved top block included, keeps the tiling, with no two free neighbours, in all four merge cases |
| HeapBlocks.TakeLive | user/heap.c:162-192 | one block is handed out, at the picked place, with 0 to 2 spare words; the live blocks grow by it, and lose the picked one if that was reserved |
| HeapBlocks.ReleaseLive | user/heap.c:256-298 | the live blocks shrink by exactly the freed one |
| HeapWords.SpliceEncodes | user/heap.c:162-198 | rewriting one run of blocks, one link below it and one prev_size above it turns a correct heap into a correct heap |
| HeapWords.MergedRelinked | user/heap.c:280-292 | if the links were right, then after the merges and two right link repairs the memory is a correct heap again, the temporary self-link gone |
| HeapWords.MergedLinked | user/heap.c:283-292 | the repairs are right exactly if the scans are on, or the block joins the top and no link from below needs a repair |
| HeapWords.ReservedWordDescribes | user/heap.c:183-192 | the header of a block taken whole is right exactly if the flag in memory says whether it is the top block: an exact fit sets it, 4 or 8 spare bytes do not |
| HeapWords.FreeBitDecides | user/heap.c:261-264 | the free bit at a pointer tells freed pointers, absorbed ones included, from live ones |
| HeapWords.FreedStayFree | user/heap.c:239-246 | a pointer that tests free still does after any other block is freed, also when its header is absorbed |
| HeapWords.WalkPicks | user/heap.c:149-154 | if the links are right, or only the top block is free, the walk along the links is a first fit |
| HeapWords.WalkMisled | user/heap.c:149-154 | a free block linked to its reserved neighbour leads the walk to that live block |
| HeapAllocator.Heap.FindNextFree | user/heap.c:90-100 | the next free block above if the scan is on, else the neighbour; right exactly if the scan is on or not needed |
| HeapAllocator.Heap.FindPrevFree | user/heap.c:102-112 | the block itself if free, else the nearest free block below, or NULL |
| HeapAllocator.Heap.UpdateFirstFreeBlock | user/heap.c:114-128 | first_free_block points to the lowest free block, or to the top block if none is free |
| HeapAllocator.Heap.InitHeap | user/heap.c:135-147 | the first call lays out a block and a free top block as if the heap had been one free block, exactly if 4 bytes of payload remain for the top; nothing checks that |
| HeapAllocator.Heap.Search | user/heap.c:149-154 | following the links, right or wrong, stops at the first block with room, or at the top with NULL |
| HeapAllocator.Heap.WriteAbove | user/heap.c:163-169 | the header of a split's upper part, and the prev_size after it; no other word changes |
| HeapAllocator.Heap.LinkAbove | user/heap.c:171-181 | the upper part is linked to what find_next_free answers, whether its scan is on or off; only its link and the one below it change |
| HeapAllocator.Heap.MarkReserved | user/heap.c:183-192 | the control word left on the block for every remainder, the stale top flag, and the free block below |
| HeapAllocator.Heap.Carve | user/heap.c:155-192 | for every granted request: the headers of the heap with the block taken, but for the block's own control word, which is given for every remainder |
| HeapAllocator.Heap.TakeBlock | user/heap.c:155-202 | the memory holds the headers with the block taken and first_free_block; other live blocks keep their payload; right links stay right when the scans are on, and become right when only the top was free |
| HeapAllocator.Heap.Malloc | user/heap.c:132-205 | a block of nbytes to nbytes + 11 bytes, where the walk stops, the first fit if the links are right; every other live block keeps place, size and payload; NULL and no change exactly if that block has no room, and on right links with a free top only if every free block has less than nbytes bytes; the word behind the heap gets the new top's size exactly if the top block is split after the first call |
| HeapAllocator.Heap.CheckMergeWithTop | user/heap.c:208-231 | a free block above is absorbed, its header still marked free; nothing changes if it is reserved |
| HeapAllocator.Heap.CheckMergeWithBottom | user/heap.c:233-253 | the block is absorbed by a free one below, keeping its free bit; merge_flag says so |
| HeapAllocator.Heap.RelinkFreed | user/heap.c:283-292 | the freed block and the free block below it link to what find_next_free answers, joined or not |
| HeapAllocator.Heap.FreeWhole | user/heap.c:275-278 | the heap taken as one block becomes one free block again exactly if the word behind the heap has no size |
| HeapAllocator.Heap.Free | user/heap.c:256-298 | any live block, at any time, is joined with its free neighbours and all else is kept; right links stay right exactly if the scans are on or not needed; NULL and freed pointers change no word; every pointer freed since the last allocation tests free; the word behind the heap gets the joined size exactly if the block lies directly below a free top |
| HeapLaws.Canonical | user/heap.c:208-298 | two coalesced heaps with the same live blocks are the same block sequence |
| HeapLaws.Disjoint | user/heap.c:132-205 | no two blocks share a word, headers included |
| HeapLaws.FirstFitLeast | user/heap.c:149-154 | with the top block free, the pick is the lowest free block that is large enough |
| HeapLaws.HandsOutFresh | user/heap.c:149-192 | a block of the size asked for, at a place that was nobody's exactly if the top block was free |
| HeapLaws.ScanReads | user/heap.c:93-98 | a scan over the headers in memory stops at the next free block, or the top mark, or leaves the heap |
| HeapLaws.ServedIffScansStop | user/heap.c:183-199 | on the memory that a granted request leaves, the scans that follow end within the heap exactly for the requests the contract of malloc admits |
| HeapLaws.TopMarkLost | user/heap.c:183-199 | 4 bytes, then 0xFFFF0: not served, and on the memory the code leaves the scan from the heap's start leaves the heap |
| HeapLaws.FreeScanStops | user/heap.c:285-291 | after a free the scan for the next free block ends within the heap exactly if the top block is free |
| HeapLaws.MallocFree | user/heap.c:160-298 | freeing what was just allocated gives back the same block sequence: split, whole, or the top block |
| HeapLaws.NewHeap | user/heap.c:10-21 | where every run begins: one free block, no link to be wrong |
| HeapLaws.PerformAll | user/heap.c:132-298 | over any run of calls, early wrong links included, the allocator's blocks and answers are those of the run |
| HeapLaws.EarlyLinks | user/heap.c:94-98 | in every state of a run, until the scans are on, the links are right exactly if only the top block is free |
| HeapLaws.HistoryIndependent | user/heap.c:132-298 | any two runs that leave the same blocks live leave the same block sequence |
| HeapLaws.TwoHistories | user/heap.c:132-298 | two allocators after two runs with the same live blocks hold the same blocks, first_free_block and, with right links, the same chain |
| HeapLaws.FreesCommute | user/heap.c:256-298 | freeing two live blocks in either order gives the same heap |
| HeapLaws.FreeingAllEmpties | user/heap.c:256-298 | freeing all live blocks leaves one free block over the whole heap; the calls are a run for every order if the top block is free, and else exactly for the orders that begin with it and whose first free stays in the heap |
| HeapLaws.ParseReads | user/heap.c:114-128 | walking the control words from the heap's start reads off the blocks, the top bit on the last one only |
| HeapLaws.EncodesOne | user/include/heap.h:14-29 | the headers in memory are those of one block sequence and no other |
| HeapLaws.ChainLists | user/heap.c:90-128 | the links are right exactly if they chain the free blocks, in rising order, and end in NULL |
| HeapLaws.HeapReads | user/heap.c:132-298 | between any two calls the walk reads the allocator's blocks, and the chain its free blocks exactly if the links are right |
| HeapLaws.HeaderNumbers | user/include/heap.h:8-29 | every word of a header in numbers: four times the length, plus 2 if free, plus 1 if top; the size before it; the address of the next free block or zero |
| HeapLaws.MallocThenFree | user/heap.c:132-298 | malloc and then free restore the blocks, the chain and first_free_block, split, whole or over the whole heap |
| HeapLaws.UndoableUnless | user/heap.c:275-285 | what free can take back: everything but a top block taken whole, for which the word behind the heap decides |
| HeapLaws.FreeKeepsChain | user/heap.c:283-292 | on right links, free leaves the chain equal to the free list exactly if the scans are on or the block joins the top with nothing left to repair; with only the top free that is the block directly below it |
| HeapLaws.EarlyFreeMisleads | user/heap.c:94-154 | after an early free further down, every request that is too large for the freed block and takes the live block above it whole is given that one |
| HeapLaws.EarlyFreeHandsOutTwice | user/heap.c:94-154 | malloc(4), malloc(8), free of the first, malloc(8): the second pointer is handed out twice |
| HeapLaws.TopHandedOutTwice | user/heap.c:183-191 | after a request that fits the top block exactly, that request and every smaller one gets the same pointer |
| UserThread.PlaceBound | user/heap.c:162-182 | free blocks below any block are at most as many as live ones, plus one at its edge, which bounds its address |
| UserThread.TopIsLarge | user/user_thread.c:26-45 | when only the top block fits one of the client's requests, it has at least 531220 bytes |
| UserThread.StepTakes | user/user_thread.c:41-43 | a request of the client is granted, the slots stay the live blocks, and the top keeps half of the heap |
| UserThread.StepReleases | user/user_thread.c:31-33 | freeing a slot leaves the other 63 slots as the live blocks |
| UserThread.ReduceTo4Bit | user/user_thread.c:17-23 | each bit of the result is the parity of that bit over the eight hexadecimal digits |
| UserThread.XorEight | user/user_thread.c:17-23 | the result is the exclusive-or of ptr % 16, ptr / 16 % 16 and so on up to ptr / 0x10000000 % 16 |
| UserThread.FreeSlot | user/user_thread.c:31-41 | the slot's block is freed, and the next request is 0x111 times the digits' exclusive-or, or 0x111 if that is 0 |
| UserThread.InitPtrsArray | user/user_thread.c:10-14 | 64 allocations give 64 distinct live blocks, more than enough to switch the scans on |
| UserThread.FreeAgain | user/user_thread.c:39 | the second free of a pointer changes no word |
| UserThread.Round | user/user_thread.c:31-44 | a round replaces one slot by a new block, never NULL, of the size that the old pointer's digits ask for, up to 11 bytes more, and keeps the other slots |
| UserThread.MallocLoop | user/user_thread.c:26-57 | after any number of rounds the live blocks are exactly the 64 distinct slots, the top block holds at least half of the heap, and find_next_free was never asked with its scan off |
| PageTable.OrBelow | memory/mmu.c:153-175 | setting low bits of a descriptor leaves its section number alone |
| PageTable.InitProcessSections | memory/mmu.c:132-141 | sections 8 to 47 get full access, no other entry changes |
| PageTable.InitHeapSections | memory/mmu.c:144-148 | sections 48 to 55 get full access, no other entry changes |
| PageTable.L1TableInit | memory/mmu.c:150-180 | every section is mapped to itself, each descriptor given in numbers with its region's permissions; the template is section 6 |
| PageTable.EntryDescribes | memory/mmu.c:52-153 | every descriptor is of section type, without execute-never bits, and names its own section |
| PageTable.PermissionNames | memory/mmu.c:105-129 | the name of every combination of the three permission bits |
| PageTable.RegionNames | memory/mmu.c:105-129 | the permission names of all regions, and that each descriptor names its own section |
| ProcessView.ByteKept | memory/mmu.c:77-100 | over any run, a byte of a process changes only by a write to it or by a creation in its slot whose copy covers it |
| ProcessView.MemoryKept | memory/mmu.c:77-100 | over any run that touches none of its bytes, a process's memory stays the same |
| ProcessView.LastWriteRead | memory/mmu.c:77-81 | a read returns the last write to that address made in the same process, whatever else it and the others did in between |
| ProcessView.CreatedReadBack | memory/mmu.c:98-100 | until it is written, a new process reads each of its first 10000 bytes as its source had it at the creation |
| ProcessView.SurvivesCreation | memory/mmu.c:98-100 | a byte of a reused slot survives the creation exactly if it lies behind the first 10000 bytes or the source holds the same value |
| ProcessView.PredecessorRead | memory/mmu.c:98-100 | a run in which a new process reads, behind the copy, any byte at any address that its slot's previous process wrote |
| ProcessView.ChildJoinsCreator | scheduler/scheduler.c:28-40 | over any run from boot, a child joins its creator's process exactly if no process was started after that one |
| ProcessView.ChildJoinsOther | scheduler/scheduler.c:38-40 | a run in which a child joins a process that is not its creator's |
| ProcessView.LastExitFrees | scheduler/scheduler.c:10-19 | a process is freed exactly by its last thread's exit |
| ProcessView.RefusedWhenFull | system/process.c:20-36 | a parent thread is refused exactly if all eight processes have threads |
| ProcessView.CreationCode | scheduler/scheduler.c:23-44 | a creation answers 0 exactly if its thread has a process afterwards, else -1; the idle id and other flags answer 0 and attach nothing |
| ProcessView.ExitDetaches | scheduler/scheduler.c:10-19 | an exiting thread has no process afterwards, but for thread 1 and the idle thread, which change nothing |
| ProcessView.ScheduleRuns | scheduler/scheduler.c:47-61 | a schedule changes only who runs; when nobody does, no access is possible |
| ProcessView.CopiedBytes | memory/mmu.c:98-100 | byte 9999 of a new process's data comes from its source, byte 10000 and every other process do not change |
| ProcessView.VacantElsewhere | system/process.c:31-40 | a new process never gets its creator's slot |
| ProcessView.StartsFromTemplate | memory/mmu.c:98-100 | a new process starts from the template exactly if created during boot or from an unchanged creator |
| ProcessView.SecondInheritsWrite | memory/mmu.c:98-100 | a byte the first process writes is what the second one starts with |
| Kernel.Kernel.constructor | memory/mmu.c:150-180 | after boot the tables and windows implement the view with no process |
| Kernel.Kernel.Kmemcpy | memory/mmu.c:88-92 | through the page table, exactly n bytes of one section are copied to another, or to itself |
| Kernel.Kernel.FindFreeProcessAddress | system/process.c:20-27 | the lowest process without a thread, or -1 |
| Kernel.Kernel.CopyUserdataTemplate | memory/mmu.c:98-100 | the first 10000 bytes behind the current window reach the new section |
| Kernel.CreationSource | memory/mmu.c:98-100 | a creation during boot or by a running thread copies between two sections; the exact state in which it would copy a section onto itself |
| Kernel.Kernel.ProcessCreate | system/process.c:31-43 | the slot, the attachment and the copy of a creation, or -1 and no change |
| Kernel.ChildAttach | scheduler/scheduler.c:38-41 | a child keeps counters and flags right exactly if the process created last is alive |
| Kernel.ChildFirst | system/exceptions.c:98-101 | a child's creation as the very first one leaves the tables wrong |
| Kernel.Kernel.SchedulerOnCreate | scheduler/scheduler.c:23-44 | implements a creation in the view; 0 exactly if the thread has a process afterwards, else -1; counters equal thread counts and flags say which processes live |
| Kernel.Kernel.SchedulerOnExit | scheduler/scheduler.c:10-19 | implements an exit in the view |
| Kernel.Kernel.ProcessSwitch | system/process.c:7-9 | both windows show the process's sections, every other entry is kept |
| Kernel.Kernel.SchedulerOnSchedule | scheduler/scheduler.c:47-61 | implements a schedule in the view, skipped switches and idle gaps included |
| Kernel.Kernel.StoreByte | memory/mmu.c:77-81 | a write through a window changes the running process's own memory, one byte of it |
| Kernel.Kernel.LoadByte | memory/mmu.c:77-81 | a read through a window returns the running process's own byte |
| Kernel.Kernel.PerformAll | scheduler/scheduler.c:10-61 | over any legal run, from boot or any later state, all answers are those of eight private memories |
| Kernel.WindowsShowOwner | memory/mmu.c:77-81 | in every reachable state entries 6 and 7 are the running process's, within sections 8 to 15 and 24 to 31, all others are the initial ones, and every entry is a section descriptor |
| Overlap.SlackAddress | user/heap.c:5-8 | the size of the top block is stored 12 bytes into section 8 |
| Overlap.HeapReach | user/heap.c:5-8 | every byte of the heap is in the running process's heap section, but for the last 16, which are the first of process 0's data |
| Overlap.SlackIsForeign | user/heap.c:166-169 | a store to one of those is a write to process 0's data and to nothing else |
| Overlap.FirstKeeps | user/heap.c:166-169 | process 0 keeps its memory exactly if the byte stored is the one it had |
| Kprintf.NumeralReads | user/user_kprintf.c:128-152 | a numeral reads back as its number and has no leading zero |
| Kprintf.SignedReads | user/user_kprintf.c:97-126 | a signed numeral reads back as its number |
| Kprintf.Printer.PrintDigits | user/user_kprintf.c:136-151 | the digits stored lowest first are sent as the numeral |
| Kprintf.Printer.DecToHexStr | user/user_kprintf.c:58-94 | the hexadecimal numeral, a pointer's prefix exactly once, whatever the width flags |
| Kprintf.Printer.IntToStr | user/user_kprintf.c:97-126 | sign and decimal numeral |
| Kprintf.DirectiveSpells | user/user_kprintf.c:174-240 | x reads back in base 16 and u in base 10, without leading zero and in lower case; i as the signed value; p behind 0x; c is the character of that code; any other letter is echoed behind the percent sign |
| Kprintf.PlainRenders | user/user_kprintf.c:241-244 | a format without a percent sign is sent as it is |
| Kprintf.RenderJoins | user/user_kprintf.c:169-251 | a format renders piece by piece, each piece with the arguments the ones before it leave |
| Kprintf.RenderStep | user/user_kprintf.c:169-251 | one turn of the scanner prints one directive of the rendering and goes on behind it |
| Kprintf.Printer.UsrKprintf | user/user_kprintf.c:162-253 | the whole output is the rendering of the string up to its zero character, independent of earlier calls, and that is what the format asks for, letter by letter |
| Kprintf.RenderMeans | user/user_kprintf.c:169-251 | a rendering consists of the format's plain characters and, for each directive, of what its letter asks for |
| Kprintf.Printer.PrintAround | user/user_kprintf.c:162-253 | a directive anywhere in a format, with a width of any length, is sent as what its letter asks for, between what stands before and behind it |

## Left out

- HeapAllocator.Heap.Malloc: requires nbytes > 0 and no overflow in rounding up; a block of size 0 has no room for its link, which would overlay its neighbour's control word.
- HeapAllocator.Heap.Malloc: for the first call requires that a top block of at least 4 bytes remains; HeapAllocator.Heap.InitHeap shows that the layout is right for no other request. Larger first requests than the heap store behind the modelled words.
- HeapAllocator.Heap.Malloc: requests that leave a free top block with 4 or 8 spare bytes, or take it whole while a lower block is free, are outside the contract, because the scans then leave the heap (HeapLaws.ServedIffScansStop shows that these are all) or, where a scan is still off, would have to.
- HeapAllocator.Heap.Malloc: on wrong links, a walk that leaves the blocks, by reading a live block's payload as a link, is outside the contract, and so is splitting a live block below the top that a wrong link led to.
- HeapAllocator.Heap.Free: with the top block reserved only that block itself can be freed, because for any other the scan leaves the heap (HeapLaws.FreeScanStops); and that only if the word behind the heap, which is not the allocator's, is not taken for the header of a free block (for the heap as one block: has no size).
- HeapLaws.PerformAll: on wrong links, a run goes on allocating only before the scans are on, and only requests that fit where the search stops, because the code would go on in a live block's payload; what a later request gets on links that were never repaired is said by HeapAllocator.Heap.Malloc call by call.
- HeapAllocator.Heap.Free: on a heap that was never allocated from, only NULL is inside the contract, because any other pointer reads memory that was never written.
- Stores through a null pointer (user/heap.c:171-173) have no effect on the heap and are modelled as none; the two words after the heap that the code writes are part of the model's memory.
- The counter of allocations is unbounded; its wrap-around after 2^31 calls is not modelled.
- Kernel.Kernel.SchedulerOnCreate: a refused creation counts a thread of process -1 in the code, a write before the process array that the model does not have.
- Kernel.Kernel.SchedulerOnSchedule: scheduling a thread without a process reads before the process array in the code and is outside the calling discipline.
- Kernel.Kernel.StoreByte: only accesses in the two windows are modelled; sections 8 to 47 are also open at their own addresses, where nothing keeps processes apart.
- Kprintf.Printer.UsrKprintf: a percent sign without a letter after it, a missing argument and the most negative integer for %i are outside the contract: the code reads past the string, past its arguments or before its digit table.
- Kprintf.Printer.UsrKprintf: the width accumulator is an unbounded integer, so its overflow on very long widths is not modelled; its value never reaches the output.
- Address translation uses the section number only: permissions are proved of the table but not enforced on modelled accesses; TLB and control register writes are left out.
- The round-robin scheduler, exceptions, drivers, boot assembly, debug printing and the demonstration threads are not part of this model.
