# Norlit OS: proofs about the kernel

A Dafny model of four parts of the Norlit kernel, with proofs of what they are for.

**The buddy allocator** (`Bits`, `Blocks`, `Ranges`, `FreeLists`, `MallocSize`, `Memory`, `MemoryInit`,
`MemorySmp`, `Paging`). Managed memory is an array of words, the 28 free lists are threaded through the first
words of the free blocks, and ghost sequences say what the lists are. Coalescing makes the lists a canonical form
of the set of free bytes. From that follow exact restoration, independence of the order of calls, and the
completeness of failure: out of memory means that no aligned run of that size is free. `MemorySmp` is the same
heap with any number of CPUs that interleave wherever the lock is released, and its steps are the critical sections of
the allocator's methods. `Paging` builds the kernel's page tables in memory taken from the allocator, between the two
passes of `init_memory`.

**Processes, page-moving messages and the scheduler** (`Pages`, `Ipc`, `Effects`, `Fifo`, `Dispose`, `Stacks`,
`Kernel`, `Ring`, `Scheduler`, `SchedulerSmp`, `Rings`). A message is a physical page that moves from one address
space to another. `Pages` says where a page can be, in directories of 1024 entries whose upper quarter is copied from
process to process. `Ipc` takes each system call as one step and proves over whole runs that every managed page has
exactly one owner; `Effects` says of each what a caller finds afterwards, `Fifo` that messages are handed over exactly
once and in order. `Kernel` has the calls statement by statement, with the ring buffers of `Ring`, and proves each to
be its step. `Dispose` accounts for the end of a process, `Stacks` for the table it relies on. `Scheduler` proves when
`schedule` ends and how it shares out the CPU; `SchedulerSmp` that CPUs never share a process; `Rings` is the linked
lists and the identifiers of processes and threads.

**The file system** (`FsBlocks`, `FsRuns`, `FsTree`, `FsDisk`, `FsPath`, `FsFormat`, `FsVolume`). The disk is an
array of sectors reached through one shared buffer. `FsBlocks` is the block allocator on the contents of the disk,
`FsTree` the tree of directories by hash, `FsDisk` files and entries on the disk, `FsVolume` the driver's routines.

**Arithmetic** (`Division`, `Calendar`, `Format`): 64-bit division, calendar conversion, number printing and
reading.

Shifts and masks on unsigned words are written as multiplication, division and remainder by powers of two, and
every word that can wrap is wrapped explicitly.

Where the code does not do what it is meant to do, the model does what the code does, one member says exactly when
the intended property holds, and another gives an input, or a run, for which it does not:

- A request of 0xFFFFFFFD bytes or more gets a block of 4: `MallocSize.RoomExactly`, `MallocSize.LargeIsSmall`.
- An available range whose end wraps at 4 GB is clipped wrongly: `MemoryInit.ClipFirst` and `MemoryInit.ClipSecond`,
  `MemoryInit.WholeMemory`.
- ALLOC_MEMORY in an empty entry of a kernel table, such as the APIC's, gives one page to all processes:
  `Ipc.AllocShares`, `Ipc.ApicShared`.
- A process that ends hands back pages that are not its own, or keeps some of its own: `Dispose.RecycledOnce`;
  `Ipc.OpenedInStack` for OPEN_PHYSICAL_MEMORY in the stack window, `Ipc.AllocatedHigh` for ALLOC_MEMORY at
  PAGE_OFFSET or above.
- A process with memory at PAGE_OFFSET or above shares it with those it creates: `Ipc.CreateShares`,
  `Ipc.AllocatedHigh`.
- `schedule` never ends: `Scheduler.ScansTwiceAtMost` and `Scheduler.NeverEnds`, `Scheduler.InitAlone`.
- A ready process waits longer than the sum of the priorities: `Scheduler.RunsSoon` and `Scheduler.RunsWithin`,
  `Scheduler.WaitsLonger`.
- Two CPUs run the process of one that comes up: `SchedulerSmp.AdoptKeeps`, `SchedulerSmp.TakenTwice`.
- seekDataBlock finds the wrong block: `FsDisk.SeekLocates`, `FsDisk.SeekMisses`.
- createFileBlock blanks the superblock: `FsDisk.CreateKeepsSuper`, `FsVolume.LastBlockLost`.
- A write past the end of a file goes over block 0, superblock included: `FsVolume.Volume.WriteContents`.
- mkfs loses blocks of the partition: `FsVolume.Volume.CutPartition`, `FsFormat.BigChunk`.
- 31 January is 0 February: `Calendar.Gmtime`, `Calendar.January31`.
- mktime does not undo gmtime: `Calendar.ThereAndBack`, `Calendar.TooLate`.
- atoi does not undo itoa: `Format.AtoiOfItoa`, `Format.BlanksLose`.

## Model

| member | source | states |
|---|---|---|
| `Memory.Allocator.BlockFree` | kernel/memory/memory.c:43-72 | freeing a block leaves the lists spelling out the coalesced set: the block merged with its buddy as often as that is free; the counter is the sum of the listed blocks, and no byte outside free memory is written |
| `Memory.Allocator.Scan` | kernel/memory/memory.c:47-68 | the scan finds the buddy if and only if it is listed, and otherwise the place that keeps the list sorted by address |
| `Memory.Allocator.FreeLevel` | kernel/memory/memory.c:47-68 | what happens under one hold of the lock: if the buddy is listed it leaves its list and the merged block is next, otherwise the block enters the lists; the counter stays their sum |
| `Memory.Allocator.FreeNoCheck` | kernel/memory/memory.c:74-89 | freeing any 4-aligned range inside the kernel mapping frees exactly its bytes, and the lists stay canonical |
| `Memory.Allocator.MemoryFree` | kernel/memory/memory.c:91-103 | freeing an arbitrary range frees the bytes of the whole 4-aligned words inside it and nothing else |
| `Memory.Trim` | kernel/memory/memory.c:92-101 | the alignment arithmetic yields exactly the 4-aligned words inside a range, or shows that there are none |
| `Memory.Allocator.MemoryAlloc` | kernel/memory/memory.c:105-133 | allocation fails exactly when no aligned run of that size is free anywhere; otherwise it takes the start of the lowest-addressed block of the smallest sufficient order |
| `Memory.Allocator.FindList` | kernel/memory/memory.c:112-120 | the search up the lists ends at the least sufficient order, or shows that no aligned run of free bytes exists |
| `Memory.Allocator.Malloc` | kernel/memory/memory.c:135-147 | malloc stores the size in the header and hands out the rest of the block; it refuses a request exactly when its order is above 29, and runs out exactly when no run of that order is free |
| `Memory.Allocator.Free` | kernel/memory/memory.c:149-152 | free gives back just what the header says |
| `Memory.Allocator.MallocThenFree` | kernel/memory/memory.c:135-152 | malloc and then free restores heads, lists and counter exactly |
| `Memory.HeapDetermined` | kernel/memory/memory.c:43-152 | equal sets of free bytes have identical list heads, lists and counters, whatever calls led there |
| `Memory.EmptyMeansNoRun` | kernel/memory/memory.c:112-120 | if the lists from an order on are empty, no aligned run of that many free bytes exists, however the bytes lie |
| `Memory.SplitFacts` | kernel/memory/memory.c:121-126 | what is put back after a split is one block at each order from the one asked for to just below the one split, none of which coalesces |
| `Blocks.RunInsideBlock` | kernel/memory/memory.c:51-70 | maximality: in a canonical set every aligned run of free bytes lies inside one free block |
| `Blocks.CanonicalUnique` | kernel/memory/memory.c:43-72 | a set of bytes has at most one canonical set of blocks |
| `Blocks.InsertCanonical` | kernel/memory/memory.c:43-72 | coalescing upwards keeps the set aligned, disjoint and without buddies, adds just the block's bytes, and never goes past order 29 |
| `Blocks.TotalIsBytes` | kernel/memory/memory.c:50-63 | the sum of the block sizes is the number of free bytes |
| `Ranges.CutTiles` | kernel/memory/memory.c:74-89 | the blocks a range is cut into tile it exactly and are all aligned |
| `Ranges.CutNoBuddies` | kernel/memory/memory.c:74-89 | no two of them are buddies |
| `Ranges.CutCanonical` | kernel/memory/memory.c:74-89 | they are the canonical blocks of the range |
| `Ranges.CutAtMostTwo` | kernel/memory/memory.c:74-89 | there are at most two of each order |
| `Ranges.SplitCanonical` | kernel/memory/memory.c:121-126 | the rest of a split block, with the other free blocks, is canonical as it stands |
| `FreeLists.ListsDetermined` | kernel/memory/memory.c:47-70 | the address-sorted lists are a function of the set of free blocks |
| `MallocSize.OrderLeast` | kernel/memory/memory.c:137-139 | the order malloc chooses is the least whose block holds the request and its header |
| `MallocSize.RoomExactly` | kernel/memory/memory.c:137-146 | the block has room for the request exactly when the request is below 0xFFFFFFFD; above that the size wraps |
| `MallocSize.LargeIsSmall` | kernel/memory/memory.c:137-146 | for 0xFFFFFFFD bytes malloc takes a block of 4, which the header fills |
| `MallocSize.ChooseOrder` | kernel/memory/memory.c:137-139 | the shifting loop computes that order |
| `MemoryInit.ClipFirst` | kernel/memory/memory.c:166-176 | the first pass clips an entry of any base and length to its available bytes between the kernel's end and what the loader mapped exactly if the entry begins beyond, ends below 4 GB, or has an end that as a 32-bit word is still past the window; an entry of whole words then leaves whole words |
| `MemoryInit.ClipSecond` | kernel/memory/memory.c:197-209 | the second pass clips an entry to its available bytes between there and the end of the kernel mapping under just the same condition on its window |
| `MemoryInit.EndAtWord` | kernel/memory/memory.c:166-176 | a range that begins inside a window, or before it, and ends exactly at 4 GB never meets the condition |
| `MemoryInit.WholeMemory` | kernel/memory/memory.c:166-176 | all 4 GB in one entry is passed over, available bytes and all; an entry from 2 MB to 4 GB keeps its whole length |
| `MemoryInit.FirstPass` | kernel/memory/memory.c:159-186 | for any map of such entries in whole words, including some above 4 GB, the first pass frees each available byte of its window once and nothing else, and the size it finds is the end of the last entry of kind 1, 3 or 4, in 64 bits, or 0 |
| `MemoryInit.SecondPass` | kernel/memory/memory.c:196-213 | the second pass does the same for its window |
| `MemoryInit.WindowsJoin` | kernel/memory/memory.c:159-213 | the windows of the two passes are disjoint and make up everything between the kernel's end and the end of the mapping |
| `MemorySmp.StepKeeps` | kernel/memory/memory.c:43-72 | with any number of CPUs, every step between two releases of the lock keeps the listed blocks, the ranges in flight and the owned bytes tiling managed memory, and the counter equal to the listed sizes |
| `MemorySmp.StartInvariant` | kernel/memory/memory.c:41-48 | empty lists with the counter at 0, and all of memory held by the kernel, is such a state |
| `MemorySmp.RunKeeps` | kernel/memory/memory.c:43-133 | so does every run of any interleaving |
| `MemorySmp.QuiescentBytes` | kernel/memory/memory.c:43-133 | with nothing in flight the free bytes are managed memory without what is owned |
| `MemorySmp.RunsConverge` | kernel/memory/memory.c:43-133 | two runs that end quiescent with the same bytes owned end in the same heap |
| `MemorySmp.RunRestores` | kernel/memory/memory.c:43-133 | when everything handed out has come back, in any order and interleaving, the heap is the one at the start |
| `MemorySmp.CounterInRange` | kernel/memory/memory.c:50-63 | the counter never leaves the range of its word |
| `MemorySmp.LevelProgress` | kernel/memory/memory.c:53-67 | each level of a coalescing takes an in-flight block further, so every one ends |
| `MemorySmp.FinishIsInsert` | kernel/memory/memory.c:53-67 | undisturbed, the levels one after the other are one coalescing insertion |
| `MemorySmp.TakeHands` | kernel/memory/memory.c:111-126 | an allocation owns just the first 2^bit bytes of the block it takes off the lists; what its CPU goes on to free covers the rest exactly, one block at each order from the one asked for to just below the one taken, and no other CPU's blocks change |
| `MemorySmp.TakeFinished` | kernel/memory/memory.c:105-133 | and if nobody disturbs it, the free bytes in the end are those before without just the bytes handed out |
| `MemorySmp.FreeTakes` | kernel/memory/memory.c:74-89 | a free takes just its bytes from their owner, and its CPU has blocks that make them up |
| `MemorySmp.FreeFinished` | kernel/memory/memory.c:74-89 | undisturbed, it adds just these bytes to the free ones |
| `MemorySmp.BlockTakes` | kernel/memory/memory.c:43-52 | freeing one block does so with that block |
| `MemorySmp.FinishedBytes` | kernel/memory/memory.c:43-72 | a CPU left alone adds the bytes of the blocks it has taken on, whatever the lists hold |
| `MemorySmp.TakePossible` | kernel/memory/memory.c:105-133 | an allocation has a block to take whenever an aligned run is free |
| `MemorySmp.LevelSection` | kernel/memory/memory.c:43-72 | the allocator's statements for one level of a coalescing are one Level step of the heap with many CPUs |
| `MemorySmp.TakeSection` | kernel/memory/memory.c:105-126 | its search and removal are one Take step, and the range it frees behind the request is what that step leaves its CPU to free; if they find nothing, no Take step is possible |
| `Paging.WalkBuilt` | kernel/memory/paging.c:49-88 | walking the built tables sends every address from PAGE_OFFSET to the mapped limit to that address minus PAGE_OFFSET, but for the one per-CPU page, and maps nothing else |
| `Paging.InitPaging` | kernel/memory/paging.c:49-88 | init_paging leaves tables with that mapping; directory, tables, flat array and per-CPU page are all that it takes from the allocator, whose lists stay in order |
| `Paging.TablesKept` | kernel/memory/paging.c:49-88 | whatever the allocator then writes leaves the tables as they are |
| `Paging.TakeFlat` | kernel/memory/paging.c:51-55 | the flat array keeps just the entries rounded up to whole tables; the rest of the 4 MB is free again |
| `Paging.FillDirectory` | kernel/memory/paging.c:70-85 | the loops fill the directory entry by entry as the mapping needs |
| `Paging.InitMemory` | kernel/memory/memory.c:154-214 | both passes with the tables built in between for that size in 32 bits: each available byte between the kernel's end and the end of the mapping is managed once and no other; at the end the tables are still there, and every managed byte in a whole page below the memory size translates to itself less PAGE_OFFSET; memory of less than 16 MB is refused |
| `Ipc.StepKeeps` | kernel/process/proc.c:171-196 | every send, receive, interrupt, physical mapping at any address, stack growth and switch keeps each managed page in exactly one place and the process records in order; so does a one-page allocation unless it fills an empty entry of a table to which another directory entry leads, creation if the creator has nothing of its own at PAGE_OFFSET or above, and exit if besides no marked page lies in the stack window |
| `Ipc.TraceKeeps` | kernel/process/proc.c:332-513 | so it is after any run of such steps |
| `Ipc.BootInv` | kernel/process/proc.c:311-330 | the state init_proc leaves, with the tables of init_paging and init_apic, empty entries included, has the invariant |
| `Ipc.AllocShares` | kernel/process/page.c:178-198 | after ALLOC_MEMORY every page still has one owner exactly if the entry it was to fill was taken, or in a table to which no other directory entry leads; below PAGE_OFFSET that is always so |
| `Ipc.ApicShared` | kernel/driver/apic.c:59-73 | a run from boot, with the table of init_apic in the directory, at the end of which a page allocated at 0xFEC01000 is mapped in two processes |
| `Ipc.CreateShares` | kernel/process/proc.c:110-142 | after creation every page still has one owner exactly if the creator had no table of its own at PAGE_OFFSET or above, nor a page in the kernel's tables: createProcessPDE copies that quarter of the directory |
| `Ipc.OpenedInStack` | kernel/process/proc.c:490-495 | after OPEN_PHYSICAL_MEMORY in the stack window the end of the process hands that page back once more than the process owns it |
| `Ipc.AllocatedHigh` | kernel/process/proc.c:496-505 | a page of ALLOC_MEMORY at PAGE_OFFSET or above is mapped in every process whose directory leads to the same table and in every process created afterwards, and no process hands it back when it ends, but for a mark in its stack window |
| `Ipc.SendAccepts` | kernel/process/proc.c:360-419 | send returns 1 exactly when the message was accepted; otherwise only the result register changed |
| `Ipc.AcceptedLog` | kernel/process/proc.c:383-410 | an accepted message joins the newest end of its receiver's log, with the sender's identity and page, and no other log changes |
| `Ipc.SentAway` | kernel/process/proc.c:391-399 | the page of an accepted message is at its new place and mapped nowhere in the sender |
| `Ipc.ReceiveGets` | kernel/process/proc.c:420-468 | receive hands over the oldest message, sender and page; with none queued the process waits, with nothing mapped where it wants one |
| `Fifo.StepGrows` | kernel/process/proc.c:332-463 | the logs say what happened: a call adds to what a process was sent just the message it accepted for it, and to what it received just the message whose page and sender it finds afterwards |
| `Fifo.TraceLogs` | kernel/process/proc.c:332-463 | over a run the logs grow by the messages of its calls, in their order |
| `Fifo.TraceFifo` | kernel/process/proc.c:332-463 | exactly once and in order: between any two moments of a life, the ring at the first and the messages then accepted are the messages then handed over and the ring at the second |
| `Fifo.HandedFirst` | kernel/process/proc.c:332-463 | from an empty ring, what is handed over is the beginning of what was accepted, and the rest of it is in the ring |
| `Ipc.DeliverKeeps` | kernel/process/proc.c:383-394 | direct delivery never fails: the page arrives at the entry the receiver asked for |
| `Effects.SendResults` | kernel/process/proc.c:360-419 | send returns -2 for an address with no page to give, -1 for a process not in the list, 0 for a full ring, with nothing else changed, and 1 otherwise |
| `Effects.SendWakes` | kernel/process/proc.c:370-394 | a waiting receiver has the page at its address and in its result register the sender: the identifier of the caller whose entry lost the page if ebx is 0, ebx otherwise; the caller's entry has a fresh page, and no other translation, record or page changes |
| `Effects.SendQueues` | kernel/process/proc.c:370-410 | otherwise that page and that sender join the receiver's queue, and the log, and nothing else changes |
| `Effects.ReceiveRefused` | kernel/process/proc.c:420-468 | receive at a bad address or a marked page returns -2 and changes nothing else |
| `Effects.ReceiveTakes` | kernel/process/proc.c:450-468 | the oldest message leaves the queue, its sender is the result, its page is at the address, and what was mapped there is free |
| `Effects.ReceiveSleeps` | kernel/process/proc.c:432-449 | with none queued the caller sleeps, receiving, at that address, now empty, and the process picked runs |
| `Effects.InterruptWakes` | kernel/process/proc.c:332-356 | an interrupt for a waiting process maps a fresh page at its address and returns -1 there |
| `Effects.InterruptQueues` | kernel/process/proc.c:332-356 | otherwise a message of sender -1 is queued, or nothing happens if 256 are |
| `Effects.AllocRefused` | kernel/process/proc.c:496-505 | ALLOC_MEMORY at a taken entry returns -1 and takes no page |
| `Effects.AllocMaps` | kernel/process/proc.c:496-505 | otherwise it returns 0, and in a table not shared that entry alone gets the page, which leaves the free list with that of a missing table |
| `Effects.OpenRefused` | kernel/process/proc.c:490-495 | OPEN_PHYSICAL_MEMORY at a taken entry returns -1 and changes nothing else |
| `Effects.OpenMaps` | kernel/process/proc.c:490-495 | otherwise it returns 0 with the frame asked for mapped, marked, and at most the page of a missing table taken |
| `Effects.GrowMaps` | kernel/process/page.c:138-150 | stack growth maps one free page where the fault was; no other translation changes, and only that page and one for a missing table leave the free list |
| `Effects.SwitchRuns` | kernel/process/proc.c:286-294 | after a switch the process picked is current and running, the one before ready, and all else as it was |
| `Effects.CreateMakes` | kernel/process/proc.c:110-142 | a new process is ready, with one page at the top of its stack, nothing else below PAGE_OFFSET and the directory entries of its creator above |
| `Effects.ExitLeaves` | kernel/process/proc.c:144-196 | after exit the process is gone, the one picked runs, what disposal hands back is free, and no other address space has changed |
| `Effects.BootMakes` | kernel/process/proc.c:311-330 | after init_proc the one process runs, with one page at the top of its stack and the kernel's directory entries |
| `Kernel.Machine.Send` | kernel/process/proc.c:360-419 | the statements of SEND are the send step of the process machine |
| `Kernel.Machine.DeliverTo` | kernel/process/proc.c:383-394 | delivery to a waiting receiver, statement by statement, is that step's direct delivery |
| `Kernel.Machine.PostPage` | kernel/process/proc.c:396-405 | joining the ring, statement by statement with the receiver's buffer, is that step's posting |
| `Kernel.Machine.PutMessage` | kernel/process/proc.c:397-404 | writing at the head and stepping it around the end appends to that process's queue and touches no other ring |
| `Kernel.Machine.TakeMessage` | kernel/process/proc.c:453-458 | reading at the tail and stepping it takes the oldest message |
| `Kernel.Machine.Receive` | kernel/process/proc.c:420-468 | the statements of RECEIVE, ring buffer included, are the receive step |
| `Kernel.Machine.SendInterrupt` | kernel/process/proc.c:332-356 | the statements of sendInterrupt, ring buffer included, are the interrupt step: a blank page from sender -1, dropped if the ring is full |
| `Kernel.Machine.AllocMemory` | kernel/process/proc.c:496-505 | one-page ALLOC_MEMORY at any address, in whatever table, is the allocation step; the page goes back if the entry is taken |
| `Kernel.Machine.OpenPhysical` | kernel/process/proc.c:490-495 | one-page OPEN_PHYSICAL_MEMORY at any address, in whatever table, is the mapping step |
| `Kernel.Machine.OpenPage` | kernel/process/page.c:178-198 | open_physical_page makes the table if it is missing and sets the entry exactly if it is empty |
| `Kernel.Machine.GrowStack` | kernel/process/page.c:138-150 | the stack-growth branch maps one fresh page |
| `Kernel.Machine.Nice` | kernel/process/proc.c:506-512 | NICE switches away and resets the flag afterwards; the caller is never its own choice |
| `Kernel.Machine.CreateProcess` | kernel/process/proc.c:110-142 | a new process gets one stack page, the creator's upper quarter of the directory, an empty ring and the least unused identifier |
| `Kernel.Machine.InitProc` | kernel/process/proc.c:311-330 | init_proc with its four pages is the boot state |
| `Kernel.Machine.RecycleThreadStack` | kernel/process/page.c:91-113 | recycleThreadStack hands back the pages of the two stack tables, marked or not, and the tables, and strikes them out |
| `Kernel.Machine.RecycleProcessPDE` | kernel/process/page.c:73-89 | recycleProcessPDE hands back all unmarked pages, the tables and the directory |
| `Kernel.Machine.DrainRing` | kernel/process/proc.c:180-191 | the queued pages go back, oldest first, as the tail steps around the buffer |
| `Kernel.Machine.Exit` | kernel/process/proc.c:144-196 | exit is the exit step for any process, and hands back the pages that Dispose.RecycledOnce compares with those it owned |
| `Dispose.RecycledOnce` | kernel/process/page.c:73-113 | disposal hands back what the process owned without what it has at PAGE_OFFSET and above, in tables of its own or the kernel's, and every page marked PAGE_TYPE_PHY in the stack window besides, whose loops do not look at the mark; with nothing above it is each owned page once exactly when no marked page is in the window, and with no marked page there exactly when nothing is above |
| `Dispose.CleanExactly` | kernel/process/proc.c:171-196 | leaving marked pages alone everywhere would hand back what the process owns below PAGE_OFFSET, each page once |
| `Stacks.TraceStacked` | kernel/process/page.c:91-101 | every process of every run has the topmost stack table that recycleThreadStack takes for granted |
| `Stacks.BootStacked` | kernel/process/proc.c:311-330 | so has the first process |
| `Ring.PushedQueue` | kernel/process/proc.c:396-404 | a write at the head appends to the queue and overwrites nothing queued; the head stays the tail plus the count around the buffer |
| `Ring.PoppedQueue` | kernel/process/proc.c:453-458 | a step of the tail drops just the oldest message |
| `Scheduler.Cpu.Scan` | kernel/process/proc.c:265-273 | one scan finds the first ready process with the most ticks, if any is ready with ticks left |
| `Scheduler.Cpu.RefillAll` | kernel/process/proc.c:275-283 | the refill sets the ticks of every ready process to its priority |
| `Scheduler.Cpu.Schedule` | kernel/process/proc.c:255-290 | schedule ends with that process running; it needs a second scan exactly if the first finds none |
| `Scheduler.Cpu.Tick` | kernel/process/timer.c:98-116 | a timer tick charges the running process one tick and schedules |
| `Scheduler.ScansTwiceAtMost` | kernel/process/proc.c:264-284 | the scan ends, and within two goes, exactly when some ready process has ticks left or a positive priority as a signed word; otherwise it never does |
| `Scheduler.NeverEnds` | kernel/process/proc.c:264-284 | schedule(2) never ends when no other process is ready |
| `Scheduler.InitAlone` | kernel/process/proc.c:506-512 | so it is when init calls NICE while the other process waits for a message |
| `Scheduler.PickExists` | kernel/process/proc.c:265-273 | a first process with the most ticks exists as soon as any is ready with ticks left |
| `Scheduler.TickEnds` | kernel/process/proc.c:264-284 | with positive priorities a tick always ends |
| `Scheduler.Round` | kernel/process/timer.c:98-116 | a round of ticks charges every ready process all it had left and ends in a refill |
| `Scheduler.FairRound` | kernel/process/timer.c:98-116 | between two refills every ready process is charged exactly its priority, and the second refill restores the state of the first |
| `Scheduler.FairWindow` | kernel/process/timer.c:98-116 | once there has been a refill, any as many ticks in a row as the priorities sum to charge every ready process exactly its priority |
| `Scheduler.RunsSoon` | kernel/process/proc.c:255-290 | once there has been a refill, no ready process waits longer than the sum of the priorities |
| `Scheduler.FairLater` | kernel/process/timer.c:98-116 | from any state, every such window is fair that begins after as many ticks as the ready processes have left |
| `Scheduler.RunsWithin` | kernel/process/proc.c:255-290 | from any state, no ready process waits longer than those ticks and the sum of the priorities together |
| `Scheduler.WaitsLonger` | kernel/process/proc.c:255-290 | a run before any refill in which a ready process waits nine ticks although the priorities sum to six |
| `SchedulerSmp.StepKeeps` | kernel/process/proc.c:48-73 | any CPU's schedule(0), (1) or (2), wake-up, late flag reset and creation keeps every process in one role with the flag of that role |
| `SchedulerSmp.StartInv` | kernel/process/proc.c:311-330 | one CPU with the first process is such a state |
| `SchedulerSmp.AdoptKeeps` | kernel/process/proc.c:297-309 | a CPU that comes up lists its process, ready, before it marks it running without the lock; that keeps the roles apart exactly if no other CPU took the process up in between |
| `SchedulerSmp.TakenTwice` | kernel/process/proc.c:297-309 | a run from the first state at the end of which two CPUs run one process |
| `SchedulerSmp.RunKeeps` | kernel/process/proc.c:255-290 | over every interleaving in which that does not happen the CPUs run distinct processes |
| `SchedulerSmp.PicksReady` | kernel/process/proc.c:265-272 | schedule picks a ready process, never a sleeping one or another CPU's |
| `SchedulerSmp.ResetKeeps` | kernel/process/proc.c:506-512 | the late reset in NICE finds its process on no CPU |
| `SchedulerSmp.CurrentsDistinct` | kernel/process/proc.c:286-288 | each CPU's process is its own and marked running, or on its way to sleep |
| `SchedulerSmp.SwitchRoles` | kernel/process/proc.c:255-290 | the process picked runs on the CPU that picked it; the one before is ready after a tick, late after NICE, dozing after RECEIVE and gone after its end; every other process is as it was |
| `SchedulerSmp.LoneRoles` | kernel/process/proc.c:48-73 | woken or reset a process is ready, marked asleep it still runs, a new one is listed ready, and that of a CPU coming up runs there; a tick charges one |
| `SchedulerSmp.PrioritiesStay` | kernel/process/proc.c:110-142 | no step changes a priority |
| `Rings.ListInsert` | kernel/include/list.h:70-76 | inserting between neighbours inserts in the ring |
| `Rings.ListAddHead` | kernel/include/list.h:83 | adding at the head puts the node right behind it |
| `Rings.ListAddTail` | kernel/include/list.h:84 | adding at the tail puts the node right before the head |
| `Rings.ListHide` | kernel/include/list.h:90-94 | hiding takes one node out and leaves its own links |
| `Rings.ListConcat` | kernel/include/list.h:110-115 | concatenation appends the other ring without its head, also when either is empty |
| `Rings.ListSlice` | kernel/include/list.h:117-122 | slicing makes the run and the rest two rings |
| `Rings.ListEmpty` | kernel/include/list.h:49-52 | a list is empty exactly when its ring is the head alone |
| `Rings.ScanLeast` | kernel/process/proc.c:131-137 | the scan stops at the first identifier out of turn |
| `Rings.InsertLeast` | kernel/process/proc.c:129-140 | a new process, or thread, gets the least identifier not in use and the list stays strictly sorted |
| `Rings.FindId` | kernel/process/proc.c:245-253 | getProcessById finds an identifier exactly if it is in the list |
| `FsVolume.Volume.FileRead` | kernel/proclib.c:76-84 | a read fills the first sectors of the shared buffer and leaves the rest |
| `FsVolume.Volume.FileWrite` | kernel/proclib.c:90-97 | a write changes just those sectors of the disk |
| `FsVolume.Volume.FreeBlock` | kernel/driver/filesystem/filesystem.c:316-324 | freeBlock through the shared buffer: the new head, the new count, and in the block a copy of the superblock with the link in front |
| `FsVolume.Volume.MallocBlock` | kernel/driver/filesystem/filesystem.c:284-314 | mallocBlock through the shared buffer, with its re-reads, takes the head of the least non-empty list and gives the upper halves back |
| `FsBlocks.FreedGood` | kernel/driver/filesystem/filesystem.c:316-324 | freeing keeps the lists acyclic, zero-terminated and pairwise disjoint |
| `FsBlocks.MallocGood` | kernel/driver/filesystem/filesystem.c:284-314 | allocation does too, and what it hands out overlaps nothing free |
| `FsBlocks.MallocFails` | kernel/driver/filesystem/filesystem.c:287-304 | mallocBlock returns 0, with the disk unchanged, exactly when every list of that order or above is empty |
| `FsBlocks.MallocFree` | kernel/driver/filesystem/filesystem.c:284-314 | what is handed out was free, and it is all that stops being free |
| `FsBlocks.MallocSkew` | kernel/driver/filesystem/filesystem.c:284-324 | the difference between freeSize and the free blocks never changes |
| `FsBlocks.MallocTouches` | kernel/driver/filesystem/filesystem.c:284-314 | only the superblock and free blocks are written |
| `FsRuns.RunKeeps` | kernel/driver/filesystem/filesystem.c:284-324 | all this over every run of mallocBlock and freeBlock; nothing is handed out twice |
| `FsRuns.RunConserves` | kernel/driver/filesystem/filesystem.c:284-324 | over any run every block stays free or handed out; a run that gives back what it took leaves the same blocks free |
| `FsRuns.MallocLends` | kernel/driver/filesystem/filesystem.c:284-314 | what mallocBlock hands out is recorded as handed out and leaves the free blocks, and nothing else does |
| `FsRuns.FreeReturns` | kernel/driver/filesystem/filesystem.c:316-324 | what freeBlock gets is free, and handed out no longer |
| `FsVolume.Volume.SeekDataBlock` | kernel/driver/filesystem/filesystem.c:244-259 | the loop is the search of the extents in order, with 0 for an offset past the last |
| `FsDisk.SeekLocates` | kernel/driver/filesystem/filesystem.c:244-259 | seekDataBlock finds the block of every offset of a file exactly when each of its extents is one block long |
| `FsDisk.SeekMisses` | kernel/driver/filesystem/filesystem.c:244-259 | in an extent of two blocks the second is not found |
| `FsVolume.Volume.CreateFileBlock` | kernel/driver/filesystem/filesystem.c:261-283 | the two allocations and the two block writes, for any state of the lists |
| `FsDisk.CreateKeepsSuper` | kernel/driver/filesystem/filesystem.c:261-271 | createFileBlock spares signature, size and root in the superblock exactly unless one block is left, when the second allocation is not checked and block 0 is blanked; with none left it changes nothing |
| `FsVolume.LastBlockLost` | kernel/driver/filesystem/filesystem.c:197-283 | a partition of three blocks behind the kernel after mkfs has one left; the next createFileBlock zeroes its superblock |
| `FsDisk.CreateHolds` | kernel/driver/filesystem/filesystem.c:261-283 | with two blocks left, the new file has its name, hash and a blank data block, in two blocks that were free, and every block that was not free has its contents still |
| `FsDisk.FileBlockSays` | kernel/driver/filesystem/filesystem.c:272-280 | the file block reads back as the name, its hash and one data block |
| `FsDisk.HashCollides` | kernel/lib.c:190-198 | different names can have the same hash |
| `FsVolume.Volume.StringHash` | kernel/lib.c:190-198 | the hash is the sum of the bytes times powers of 31, the last one's being 1, in 32 bits |
| `FsDisk.HashTells` | kernel/lib.c:190-198 | names of one length that differ in a single byte, wherever, have different hashes |
| `FsVolume.Volume.ScanDirectory` | kernel/driver/filesystem/filesystem.c:131-133 | the scan finds the first entry with the hash in a directory of up to 256 entries, or the first free place |
| `FsVolume.Volume.Step` | kernel/driver/filesystem/filesystem.c:123-145 | one component of a path in a directory: found, with nothing changed, or created in free blocks and linked in, when the one entry of the directory's block is all that changes outside them |
| `FsVolume.Volume.Open` | kernel/driver/filesystem/filesystem.c:113-155 | opening a path through directories resolves it, creating just what is missing for two blocks each, file blocks with the names of the path; every path that resolved before resolves to the same file, every block that was not free keeps its contents but for the directories linked into; a path that resolved already writes nothing |
| `FsVolume.Volume.OpenTwice` | kernel/driver/filesystem/filesystem.c:113-155 | opening a path twice gives the same file, and the second time the disk does not change |
| `FsVolume.Volume.ReadContents` | kernel/driver/filesystem/filesystem.c:157-162 | HD_READ gets the file's data block for offset 0, and block 0 for any other |
| `FsVolume.Volume.WriteContents` | kernel/driver/filesystem/filesystem.c:163-169 | HD_WRITE at offset 0 changes that data block alone, whatever is written, and the volume stays in order; at any other offset it goes over block 0 |
| `FsTree.PathsDistinct` | kernel/driver/filesystem/filesystem.c:123-145 | different paths of hashes lead to different files, so two names are one file exactly when their hashes agree |
| `FsTree.AddedResolves` | kernel/driver/filesystem/filesystem.c:135-142 | a new entry changes no other resolution, and adds none but its own |
| `FsPath.ComponentsJoin` | kernel/driver/filesystem/filesystem.c:119-148 | the components of a path, joined by slashes, are the path, and none has a slash in it |
| `FsVolume.Volume.CutPartition` | kernel/driver/filesystem/filesystem.c:206-232 | mkfs frees the partition but for a rest, and there is no rest exactly when no aligned run of 2^20 blocks lies in it |
| `FsFormat.BigChunk` | kernel/driver/filesystem/filesystem.c:206-232 | a partition that takes in blocks 2^20 to 2^21, its second 2 GB, has such a run |
| `FsVolume.Volume.Mkfs` | kernel/driver/filesystem/filesystem.c:197-238 | mkfs makes a file system of one empty directory if two blocks came free, with the signature, the size and the number of that directory in the superblock |
| `Division.DivMod64` | kernel/lib.c:39-61 | the true quotient and remainder for every divisor but 0 |
| `Division.Justify` | kernel/lib.c:47-50 | shifting the divisor up loses no bit, and ends |
| `Calendar.Gmtime` | kernel/lib.c:149-183 | every field of gmtime for every 64-bit time; the date is the day-by-day calendar's, except that 31 January is 0 February |
| `Calendar.January31` | kernel/lib.c:169-182 | so it is on the 31st day of the calendar |
| `Calendar.YearAndDay` | kernel/lib.c:162-168 | the year loop ends, never goes below the first year, and finds the year and the day in it |
| `Calendar.MonthAndDay` | kernel/lib.c:169-182 | the divisions by 30 and 31 find month and day of every day but the 31st |
| `Calendar.DateOfNumber` | kernel/lib.c:160-182 | counting days one by one agrees with the closed formula |
| `Calendar.KnownDays` | kernel/lib.c:140-183 | two days known from elsewhere fall where the calendar has them |
| `Calendar.Mktime` | kernel/lib.c:140-147 | mktime gives the seconds of a date and time of day counted in the day-by-day calendar, before the product of the years and 365 outgrows a word; in general, also for days that are none of their month's, just the overflow of that product is missing |
| `Calendar.ThereAndBack` | kernel/lib.c:140-183 | mktime of gmtime gives back the whole seconds exactly up to the end of February 11767034, when 365 times the year no longer fits a word |
| `Calendar.TooLate` | kernel/lib.c:140-183 | the first time that does not come back |
| `Format.Itoa` | kernel/format.c:65-107 | itoa writes sign, prefix, padding and digits in that order, in any radix, turning digits and padding round in place |
| `Format.ReverseRange` | kernel/format.c:97-102 | the swapping loop reverses its range and leaves sign and prefix alone |
| `Format.TextLength` | kernel/format.c:93-105 | the output is as long as the width or as the number needs, whichever is more |
| `Format.LowReversed` | kernel/format.c:84-87 | the digits of the division loop are those of the number in reverse |
| `Format.DigitsStand` | kernel/format.c:68-87 | in every radix, with letters for digits from 10 on, the digits stand for the number by the powers of the radix, and no zero comes before them |
| `Format.SignStands` | kernel/format.c:70-77 | sign and digits together are the signed number, or its unsigned word when no sign is asked for |
| `Format.Printed` | kernel/format.c:65-107 | three numbers as they are printed, with sign, prefix, zeros and blanks |
| `Format.Atoi` | kernel/format.c:225-233 | atoi gives the sum of the leading digits times powers of ten, as a signed word, and negated after a minus |
| `Format.AtoiOfItoa` | kernel/format.c:65-107 | atoi gives back every signed 32-bit number itoa printed in radix 10, signed or not, exactly unless blanks come before the digits of a number other than 0 |
| `Format.BlanksLose` | kernel/format.c:65-107 | 7 in a field of five characters padded with blanks is not read back as 7 |

## Left out

- Processes with more than one thread: threadSleep assigns where it means to compare (kernel/process/proc.c:54) and rotation among threads is commented out (kernel/process/timer.c:99-106); DISPOSE_THREAD of another thread and the choice of a stack by allocThreadStack go with them.
- Messages between processes on several CPUs: RECEIVE releases the lock before it records that it waits (kernel/process/proc.c:446-449), so each call is one step on one CPU; the scheduler alone is modelled with several.
- ALLOC_MEMORY and OPEN_PHYSICAL_MEMORY of a page count other than 1; for the first only one page is allocated (kernel/process/proc.c:498-500).
- MemoryInit.FirstPass: requires, as MemoryInit.SecondPass and Paging.InitMemory do, that available ranges are whole words, do not overlap, and meet the condition of MemoryInit.ClipFirst; with others memory_free_nocheck gets a range it is not meant for.
- Ipc.StepKeeps: does not keep the invariant through an allocation in an empty entry of a shared table, the creation and the exit of a process with something of its own at PAGE_OFFSET or above, nor the exit of one with marked pages in its stack window, because the code does not: Ipc.AllocShares, Ipc.CreateShares and Dispose.RecycledOnce say exactly what happens then. Ipc.TraceKeeps, and what `Fifo` says of runs, is about the runs without such steps.
- SchedulerSmp.RunKeeps: is about the runs in which no CPU takes up the process of a CPU that comes up before that has marked it, because distinctness fails otherwise, as SchedulerSmp.AdoptKeeps says; the removal of processes from the list while several CPUs schedule, and where a new one enters the order of the scan, are not modelled.
- Scheduler.RunsSoon: the bound by the sum of the priorities needs a refill earlier in the run, without which it fails (Scheduler.WaitsLonger); Scheduler.RunsWithin has the bound for every state. Both are about ticks without sleep, wake-up or creation in between.
- Kernel.Machine: process records, with the ring buffer of each, are values in maps, so aliasing between records is not captured; which free page serves as table and which as page is left open.
- Kernel.Machine.Schedule: takes any ready process; which one is the matter of Scheduler.
- Kernel.Machine.AllocMemory: does not model that the page is taken before a missing table.
- Kernel.Machine.LeastPid: counts up identifiers; the scan of the sorted list is Rings.InsertLeast.
- What the kernel's own tables map is not distinguished from marked pages: no call hands it on.
- The directory entry schedule copies from one process to the next (kernel/process/proc.c:292): it is the one of the kernel tables that all processes share, and the same on one CPU.
- The memory of the Process record itself, which malloc and free handle, and its name, privilege and registers other than ax and cx.
- Paging.InitMemory: requires that a size of 4 GB or more, which the code passes on in one word, is not less than 16 MB in that word.
- Halting: where the kernel stops because memory ran out, the model returns no page and nothing is said of the state.
- The spin lock itself: a step is what happens while it is held.
- init_paging_ap, the interrupt entry and exit paths, and loading of CR3.
- Scheduler.Cpu.Schedule: requires that some process is eligible; otherwise the code scans for ever, as Scheduler.ScansTwiceAtMost proves.
- The copying of boot records and kernel by mkfs, and the messages between driver and file system, which are calls here; HD_READ and HD_WRITE have the block they move as buffer and argument.
- FsVolume.Volume.WriteContents: does not keep a file that is written to among the directories, even if what is written has the form of entries.
- FsVolume.Volume.Open: requires that what is walked through are directories, that each directory to be added to has a place free among its 256, that two blocks are free for each missing component, and that names are shorter than 256 bytes. The code has no notion of directories and takes a text file's words for entries; without a free entry it scans past the end of the block, and longer names run over the fields behind.
- Division by zero in do_divmod64, which the code turns into a fault.
- vsprintf: its directive parsing differs from the C standard in `*` and in where it puts blanks; only itoa and atoi are modelled. Signed overflow in atoi is taken to wrap.
- list_del and the list_move functions: compositions of the operations proved.
- Video, keyboard, mouse, ACPI, the APIC but for the table it leaves in the directory, PIT, real-time clock registers, ATA commands, boot code.
