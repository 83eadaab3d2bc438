# ForikOS kernel model

A Dafny model of the parts of the ForikOS kernel that carry its hard guarantees, with
proofs about every input, every reachable state or every run:

- **Scheduler, semaphores and locks** (`Scheduler*`, `LockCalls`, `Kernel`, `KernelLists`, `IntrusiveList`). A step
  system in which each thread has a program counter inside `thread/sync.c`; code between
  `intr_disable` and the restore is one step and everything else interleaves with the
  timer, other threads and device interrupts. Failing `ASSERT`s are an explicit `Panic`
  outcome, and the theorems show that no run reaches one. `Kernel` is the same code as
  methods on fields, proved equal to the steps, and `KernelLists` its list work on the
  linked lists.
- **Keyboard queue and disk handshake** (`Ring`, `IoQueueProtocol`, `DiskProtocol`,
  `IdeTransfer`) over every interleaving of that step system.
- **Memory** (`Bitmap`, `SelfMap`, `Vm`, `PageAllocator`, `Memory`, `HeapModel`,
  `HeapSteps`, `Heap`, `Fork`). Pools, virtual bitmaps and page table entries change in
  place; the size-class heap works on the page allocator, and so does fork's copy of an
  address space. Paging is the 32-bit scheme of section 4.3 of the Intel SDM, Volume 3A.
- **File system** (`Words`, `FsModel`, `FileData`, `FileGrowth`, `FileWriting`, `Files`,
  `DirModel`, `DirSync`, `Directories`, `Release`, `FsSteps`, `InodeTable`, `Records`,
  `StaleWrites`, `InodeSyncs`, `FsRuns`, `Remount`, `BitmapCopies`, `FileCalls`, `Format`,
  `InodeCache`) down to the bytes of sectors, table entries and records.
- **Paths and the working directory** (`Paths`, `WorkingDirectory`), on the trees that the
  file system makes (`TreeShape`, `FsTree`).

How the code is represented:

- A call that meets a failing `ASSERT` or `PANIC` outside the step system halts the
  machine, and a call that leaves one of its own buffers or lists overruns it; each is a
  result of its own (`Halt`, `Stuck`, `Halts`, `Died`, `Overrun` and the like) and its
  contract says exactly when it occurs. What the machine does after that is not modelled.
- `bitmap_scan` asserts on a full bitmap before it can return -1 (lib/bitmap.c:40-50). So
  `palloc`, `block_bitmap_alloc` and `inode_bitmap_alloc` never report failure: they
  return a free bit or halt. `malloc_page` therefore never returns half done.
- The disk is a sequence of 512-byte sectors, `switch_to` is a change of the current
  thread, and values the source reads before setting them are inputs named `stale`.
- Memory and file-system calls are atomic and sequential.
- `past` is the bit behind the end of a bitmap, which `bitmap_scan` also reads; it may have
  either value.
- `uint32_t` sums that users control are taken modulo 2^32.

## Places where the code misses its intent

The code is modelled as it is, and the exact condition is proved.

- `bitmap_scan` for two or more bits accepts a run that ends one bit past the bitmap:
  `Bitmaps.PastEnd`, `Bitmaps.ScanIs`; `malloc_page`, `sys_malloc` and fork then overrun.
- `file_write` that grows a file within its direct blocks clears a sector at an address that
  was never set. What this costs the file itself, each other file, each directory and each
  record of the inode table: `StaleWrites.StaleOwn`, `StaleWrites.StaleFile`,
  `StaleWrites.StaleDir`, `StaleWrites.StaleRecord`, and all of it together with the rest of the
  disk `StaleWrites.WriteExact`. Inputs that lose data: `FileWriting.StaleLoses`,
  `StaleWrites.StaleRecordLost`.
- Growing a file that has a table never gets out of its loop, and a final size of exactly
  71680 passes the first test and fails the assertion: `FileWriting.WriteFails`,
  `Files.Partition.ClaimForever`.
- The sums `i_size + count` and `fd_pos + count` wrap around: `FileWriting.WriteFails` with
  `FileWriting.WrapNotRefused`, and `Files.Partition.FileRead` with `Files.ReadWraps`. A write
  of no bytes to an empty file leaves the position at 2^32 - 1, from where every read halts.
- `file_read` halts when a range reaches block 139, although files may have 140:
  `Files.Partition.FileRead`.
- `inode_sync` cuts the inode number to 8 bits: `InodeTable.SyncThenOpen`,
  `InodeTable.Inode256Lost`, `Remount.ReopenKeeps`. Which inodes are found again after a run:
  `Remount.RunReadable`; creating inode 256 loses the root's record: `Remount.Create256`.
- `file_write` does not sync the bit of a new table: `BitmapCopies.WriteCopies`,
  `BitmapCopies.LastBitLost`. When a mount brings everything back: `BitmapCopies.MountExact`.
- For some numbers `inode_sync` reads two sectors into the one-sector buffer of `file_write`:
  `InodeTable.BufferOverrun`, `FileCalls.FileWriteOverruns`.
- fork halts on a process name of 11 characters or more, and appends 5 to the child's:
  `Forks.Fork`, `Forks.Generations`, `Forks.NoGrandchild`.
- `wash_path` drops a name together with the `..` behind it without looking whether it exists:
  `WorkingDirectory.WashResolves`, `WorkingDirectory.WashForgets`.
- `inode_open` does not compare the number in the record: `InodeCache.OpenExact`.
- `sync_dir_entry` never reads an existing table and replaces it: `DirSync.SyncAdds`.
- `partition_format` leaves one bit too many clear: `Format.FormatBitmap`; where the block of
  that bit lies and when it is handed out: `Format.ExtraBlock`, `Format.ExtraHandedOut`.
- `search_file` on a path without components other than `/` returns an unset inode number,
  and it halts on paths of 512 characters and more: `WorkingDirectory.SearchFile`.
  `sys_getcwd` and `make_clear_abs_path` overrun their buffers on such paths:
  `WorkingDirectory.GetCwd`, `Paths.MakeClearAbsPath`, `WorkingDirectory.Shell.Cd`.
- `search_dir_entry` does not look at the type, so the empty name matches a free entry, exactly
  when there is one: `Directories.EmptyNameFound`.

## Model

| member | source | states |
|---|---|---|
| SchedulerProofs.ScheduleKeeps | thread/thread.c:206-240 | `schedule` always finds a thread to run and keeps the invariant of lists, statuses, ticks, locks and wakeups |
| SchedulerProofs.StepKeeps | thread/sync.c:32-105 | every allowed step (timer, yield, block, unblock, spawn, and each statement of the semaphore and lock functions) succeeds and keeps the invariant |
| SchedulerProofs.SemaDownKeeps | thread/sync.c:32-55 | one pass of `sema_down`, taking the value or going to sleep in the waiters, keeps the invariant |
| SchedulerProofs.RelUpKeeps | thread/sync.c:92-105 | the last statement of `lock_release`, the `sema_up` of its semaphore, cannot fail its assertion and keeps the invariant, in which a lock at 1 has no owner |
| SchedulerProofs.ThreadStartKeeps | thread/thread.c:171-192 | a started thread is READY, last in the ready list, with a full slice and no lock; the invariant is kept |
| SchedulerRuns.BootInv | thread/thread.c:429-445 | the state after `thread_init` satisfies the invariant |
| SchedulerRuns.RunInv | thread/thread.c:206-283 | the invariant holds in every state of every run |
| SchedulerRuns.OneRunningEachTagOnce | thread/thread.c:206-283 | in every run exactly one thread is RUNNING and in no list, the ready list is exactly the READY threads, and no tag is in two lists or twice in one |
| SchedulerRuns.NeverPanics | thread/sync.c:32-105 | from boot, no assertion of the thread and lock code ever fails |
| SchedulerRuns.MutualExclusion | thread/sync.c:76-105 | at most one thread is inside a lock; outside the lock functions it is the holder and `holder_repeat_nr` is its nesting depth; the value stays 0 or 1 |
| SchedulerRuns.WindowExclusion | thread/sync.c:76-105 | the same over the windows between `sema_down` and setting `holder` and between clearing `holder` and `sema_up` |
| SchedulerRuns.NoLostWakeup | thread/sync.c:32-73 | a semaphore at 1 with sleepers has a thread, no longer among them, that is ready or running and will test the value again |
| SchedulerRuns.DispatchOrder | thread/thread.c:206-283 | a thread at index k of the ready list is dispatched after exactly k+1 dispatches plus one for each unblock in between |
| SchedulerRuns.SliceBound | device/timer.c:44-61 | a slice without a dispatch takes no more timer interrupts than the ticks left, and ticks never exceed the priority |
| SchedulerRuns.TicksCycle | thread/thread.c:206-240 | over every run the tick count of a thread is its first one less the timer interrupts it took, modulo its priority plus one: a slice that ran out starts again in full, one given up goes on where it was |
| SchedulerRuns.SliceExact | device/timer.c:44-61 | a slice that the timer ends has lasted exactly its ticks plus one interrupts, and its thread has a full slice again |
| SchedulerRuns.BlockDoes | thread/thread.c:243-253 | a blocked thread has the status asked for and is in no ready list, and the head of that list runs, or idle |
| SchedulerRuns.YieldDoes | thread/thread.c:274-283 | a yielding thread is last in the ready list and the head runs |
| LockCalls.AcquireFree | thread/sync.c:76-89 | a whole `lock_acquire` of a free lock: the caller holds it once and nothing else changes |
| LockCalls.ReleaseLast | thread/sync.c:92-105 | a whole `lock_release` then restores the state before, when nobody waits |
| LockCalls.Nested | thread/sync.c:76-105 | the holder acquires again, a level more, and its release restores the state before |
| LockCalls.AcquireTaken | thread/sync.c:32-89 | acquiring a lock that is taken puts the caller to sleep, last among the waiters, and another thread runs |
| LockCalls.ReleaseWakes | thread/sync.c:58-105 | the last release with waiters frees the lock and makes the first of them ready, at the head of the list |
| SchedulerEffects.StepEffect | thread/sync.c:32-105 | a step changes only the running thread, the thread it wakes and the one semaphore it is about |
| Kernels.Kernel.ThreadUnblock | thread/thread.c:256-271 | the woken thread is READY at the head of the ready list |
| Kernels.Kernel.Schedule | thread/thread.c:206-240 | the whole new state is the one the step `Schedule` gives; its assertions hold |
| Kernels.Kernel.ThreadBlock | thread/thread.c:243-253 | the running thread sleeps and another one runs, as the step says |
| Kernels.Kernel.ThreadYield | thread/thread.c:274-283 | the running thread goes to the tail, as the step says, and the invariant is kept |
| Kernels.Kernel.TimerTick | device/timer.c:44-61 | the handler counts a tick or dispatches, as the step says |
| Kernels.Kernel.SemaDown | thread/sync.c:32-55 | one pass through the loop, as the step says |
| Kernels.Kernel.SemaUp | thread/sync.c:58-73 | the first waiter is woken and the value is 1, as the step says |
| KernelLists.ScheduleList | thread/thread.c:206-240 | on the linked list: the running tag is appended if it was in no list, idle is pushed on an empty one, and the first tag is taken |
| KernelLists.ScheduleIs | thread/thread.c:206-240 | that is what the step does to the ready sequence and the current thread |
| KernelLists.SemaDownLists | thread/sync.c:32-55 | going to sleep on linked lists: the tag joins the waiters and the next one leaves the ready list, both well linked |
| KernelLists.SemaUpLists | thread/sync.c:58-73 | the linked lists after the first waiter is woken are those of the step |
| IntrusiveLists.InsertBefore | lib/list.c:22-36 | the links form the old list with the element at this place |
| IntrusiveLists.Push | lib/list.c:39-42 | the element is first and the others keep their order |
| IntrusiveLists.Append | lib/list.c:45-48 | the element is last and the others keep their order |
| IntrusiveLists.Remove | lib/list.c:51-59 | the links form the list without the element |
| IntrusiveLists.Pop | lib/list.c:62-67 | the first element is returned and the links form the rest |
| IntrusiveLists.Find | lib/list.c:70-85 | true exactly for elements of the list |
| IntrusiveLists.Length | lib/list.c:110-121 | the number of elements |
| IntrusiveLists.IsEmpty | lib/list.c:124-127 | true exactly for the empty list |
| IntrusiveLists.MoveFirst | thread/sync.c:58-73 | the one tag of a thread leaves the waiters before it enters the ready list, and both lists stay well linked |
| DiskProtocol.EventKeeps | device/ide.c:417-436 | a command, an interrupt or any scheduler step keeps the account of commands, completions and the expecting flag |
| DiskProtocol.HandshakeHolds | device/ide.c:185-290 | in every run commands issued equal completed downs plus the semaphore value plus the expecting flag, the handler's `sema_up` assertion holds, and a free channel has no stale completion |
| DiskProtocol.InterruptActs | device/ide.c:417-436 | an expected interrupt clears the flag, raises the semaphore and makes the sleeping thread ready; any other does nothing |
| DiskProtocol.CommandActs | device/ide.c:122-127 | a command is expected and counted, on a channel without an open one |
| DiskProtocol.ChannelStarts | device/ide.c:466-477 | after boot and the set-up of a channel the handshake starts balanced |
| IdeTransfer.SelectArrives | device/ide.c:103-119 | the byte-wide registers carry every address up to the limit and every count up to 256, sent as 0 |
| IdeTransfer.TilesCover | device/ide.c:196-233 | every sector of a request is in a command, and commands follow one another without overlap |
| IdeTransfer.Disk.IdeRead | device/ide.c:185-237 | one contiguous copy of the requested sectors, cut into tiling commands; exactly when it halts |
| IdeTransfer.Disk.IdeWrite | device/ide.c:240-290 | the requested sectors are replaced and no other changes; exactly when it halts |
| Rings.RingIsFifo | device/ioqueue.c:25-42 | storing appends to and fetching drops from a sequence of at most 63 bytes; full and empty are its two ends |
| Rings.IoBuffer.PutByte | device/ioqueue.c:101-102 | the contents gain the byte at the end |
| Rings.IoBuffer.TakeByte | device/ioqueue.c:75-76 | the first byte of the contents is returned and removed |
| IoQueueProtocol.QueueStarts | device/ioqueue.c:15-22 | after boot and `ioqueue_init` the invariant of the queue holds |
| IoQueueProtocol.EventKeeps | device/ioqueue.c:45-108 | every statement of the queue code, the keyboard interrupt and every scheduler step keep the invariant of stages, waiter slots and contents |
| IoQueueProtocol.SlotsEmpty | device/ioqueue.c:45-50 | a thread about to wait finds both waiter slots empty, so the assertion of `ioq_wait` holds |
| IoQueueProtocol.QueueHolds | device/ioqueue.c:61-108 | in every run bytes fetched are a prefix of bytes stored, at most 63 wait, no assertion fails, and a set slot names a sleeping thread that owns the queue's lock, so at most one is set |
| IoQueueProtocol.EventBytes | device/ioqueue.c:61-108 | a key stores its byte exactly with room in the ring, a call stores its byte when it completes, and a call completes exactly when the ring lets it |
| IoQueueProtocol.RunBytes | device/keyboard.c:238-241 | over every run the bytes stored are those typed with room in the ring and those of completed `ioq_putchar` calls, in order, and one is fetched for each completed `ioq_getchar` |
| IoQueueProtocol.ReadersGetTyped | device/ioqueue.c:61-108 | so readers get a prefix of what was typed |
| IoQueueProtocol.EventWakes | device/ioqueue.c:53-58 | a stored byte leaves no consumer waiting and a fetched one no producer: whoever was in the slot is ready |
| IoQueueProtocol.StepWaits | device/ioqueue.c:67-73 | a caller that must wait takes the lock, sleeps in its slot, gives the lock back and tests again |
| IoQueueProtocol.SoleConsumer | device/keyboard.c:238-241 | with one consumer and the keyboard handler as producer, a waiting consumer means an empty queue |
| Bitmaps.PastEnd | lib/bitmap.c:68-88 | the scan sees one bit too many, and this changes the result exactly when no run fits, the tail is clear and that bit is clear |
| Bitmaps.ScanIs | lib/bitmap.c:35-92 | every outcome of the scan for every bitmap: a halt exactly when it is full, one bit past the end exactly in the case of `PastEnd`, else the least run or none |
| Bitmaps.Bitmap.Test | lib/bitmap.c:23-32 | the bit at this place of the bitmap, or the one behind its end |
| Bitmaps.Bitmap.Set | lib/bitmap.c:95-109 | this bit has the value and all others keep theirs |
| Bitmaps.Bitmap.FirstByte | lib/bitmap.c:40-50 | every byte before the result is full, and the byte at it is not unless the end is reached |
| Bitmaps.Bitmap.FindRun | lib/bitmap.c:68-92 | the least start of a run of clear bits in the bitmap and the one bit behind it |
| Bitmaps.Bitmap.BitmapScan | lib/bitmap.c:35-92 | halts exactly on a full bitmap, else the least start of a run or not found |
| Bitmaps.ScanInside | lib/bitmap.c:35-92 | with the bit behind the end harmless, the result is the least run inside the bitmap, and not found exactly when none exists |
| Bitmaps.Bitmap.SetRange | mm/memory.c:70-73 | a scan followed by setting the bits changes only those bits |
| SelfMap.PtePtrFinds | mm/memory.c:98-105 | `pte_ptr(v)`, translated by the processor through the self-map, is the table entry of v |
| SelfMap.PdePtrFinds | mm/memory.c:107-114 | `pde_ptr(v)`, translated by the processor, is the directory entry of v |
| SelfMap.AddrV2PTranslates | mm/memory.c:301-307 | `addr_v2p` is the processor's translation |
| Vms.PageInvariant | mm/memory.c:57-205 | a virtual bit is set exactly when its page is mapped; no frame backs two pages or also serves as a table; kernel pages and tables use kernel frames and user pages user frames |
| Vms.KernelFramesCounted | mm/memory.c:134-170 | set kernel-pool bits equal mapped kernel pages plus user page tables |
| PageAllocator.KRunInv | mm/memory.c:172-205 | mapping the pages of a run keeps the invariant, and halts exactly when the pool has too few frames |
| PageAllocator.URunInv | mm/memory.c:172-205 | the same for user pages and the tables they need |
| PageAllocator.URunCost | mm/memory.c:134-205 | user pages cost exactly one user frame each and one kernel frame for each missing page table, and the loop halts exactly when one of them runs out |
| PageAllocator.FreeCounted | mm/memory.c:57-205 | no frame leaks: free frames and pages and tables make up the pools, and free bits and pages the bitmap |
| Memories.Memory.constructor | mm/memory.c:610-674 | the pools after `mem_pool_init`: half of the free pages each, up to 7 lost to whole bytes of bitmap, all free, inside memory, with the page invariant |
| Memories.Memory.PallocK | mm/memory.c:118-131 | the first free frame, now claimed, or a halt |
| Memories.Memory.AddPageU | mm/memory.c:134-170 | a frame and, if missing, a table are taken and the page is mapped to the frame |
| Memories.Memory.VaddrGetK | mm/memory.c:57-73 | the bits of the run that the scan finds are set, the last one behind the bitmap if the run ends there |
| Memories.Memory.VaddrGetU | mm/memory.c:74-95 | the same in one address space |
| Memories.Memory.MallocPageK | mm/memory.c:172-205 | a halt exactly when the count is out of range or bits or frames run out, an overrun exactly when the scan overruns, NULL exactly when no run is free and nothing changed, else exactly the new pages are mapped and the invariant is kept |
| Memories.Memory.MallocPageU | mm/memory.c:172-205 | the same for one address space, with the frames that missing page tables cost |
| Memories.Memory.Pfree | mm/memory.c:438-455 | for frame number x of either pool, exactly bit x of that pool is cleared |
| Memories.Memory.MfreePageK | mm/memory.c:492-551 | exactly these pages are unmapped, their frames and bits given back, the assertions hold and the invariant is kept |
| Memories.Memory.MfreePageU | mm/memory.c:492-551 | the same for user pages; page tables stay |
| HeapModel.AllocationsDisjoint | mm/memory.c:310-319 | live allocations are large enough, do not overlap and stay clear of every arena header |
| HeapModel.AllocationsMapped | mm/memory.c:322-435 | every byte of a live allocation is in a mapped page |
| HeapModel.FreeListsExact | mm/memory.c:322-435 | each free list is exactly the free blocks of its arenas without repetition, and each small arena has an allocated block |
| HeapModel.PagesAreLive | mm/memory.c:322-435 | a heap holds exactly the pages that its live allocations need |
| HeapSteps.GoneWith | mm/memory.c:554-607 | the pages that go with an allocation: all of a large one, the page of the last small one in it, else none |
| HeapSteps.TakeKeeps | mm/memory.c:425-433 | handing out the first free block keeps the heap invariant |
| HeapSteps.GiveKeeps | mm/memory.c:584-590 | putting a block back keeps all of it but the last clause for its own arena |
| HeapSteps.DropArenaKeeps | mm/memory.c:589-602 | an arena whose count says it is all free really is, and goes without a trace |
| Heaps.BlockDescInit | mm/memory.c:677-692 | the seven sizes 16 to 1024 and how many blocks of each fit an arena |
| Heaps.FindClass | mm/memory.c:381-392 | the smallest class that holds the size |
| Heaps.HeapManager.constructor | mm/memory.c:677-692 | the empty heap satisfies the invariant |
| Heaps.HeapManager.MallocLarge | mm/memory.c:356-380 | whole pages with room for the header, NULL with nothing changed, or a halt or overrun exactly when the pages meet one |
| Heaps.HeapManager.NewArena | mm/memory.c:394-423 | a new page cut into blocks that were on no list, all now on theirs |
| Heaps.HeapManager.SysMalloc | mm/memory.c:322-435 | NULL changes nothing and has a stated cause, a halt or an overrun occurs exactly when the pages it needs meet one, else exactly one new live allocation, the first free block of the smallest class that fits or new pages; the pages mapped follow the live allocations, and both invariants are kept |
| Heaps.HeapManager.SysFree | mm/memory.c:554-607 | freeing a live allocation removes exactly it and unmaps exactly the pages no allocation needs any more; no assertion fails and both invariants are kept |
| Heaps.MallocThenFree | mm/memory.c:322-607 | allocating and freeing restores allocations, pages, free bits and free frames, but for new page tables of a process |
| Heaps.MallocBeside | mm/memory.c:322-435 | any other heap on the same page allocator, the kernel's or a process's, stays valid and keeps its allocations, which keep their frames and contents |
| Heaps.FreeBeside | mm/memory.c:554-607 | the same for a free |
| Forks.CopyRunInv | user/fork.c:55-88 | after k bits the child has the parent's pages below k with equal contents, in frames of its own, and everyone else sees what they saw |
| Forks.CopyRunCost | user/fork.c:55-88 | the copy costs one user frame for each page and one kernel frame for each new page table, and halts exactly when one of them runs out |
| Forks.CopyBodyStack3 | user/fork.c:55-88 | the loops over bytes and bits copy exactly the pages whose bit is set |
| Forks.GetKernelPages | mm/memory.c:208-219 | every outcome follows from the virtual bitmap and the free frames; new pages are cleared, and no user frame is touched |
| Forks.Fork | user/fork.c:19-180 | every outcome follows from the virtual bitmap, the free frames and the length of the name; on success the child sees exactly what the parent sees, its name is 5 characters longer, nobody else sees a change, the page invariant is kept and the buffer page is given back; a failed one keeps its pages |
| Forks.Generations | user/fork.c:47-49 | a descendant passes the assertion on its name exactly when the first name and 5 characters for each fork stay below 11 |
| Forks.NoGrandchild | user/fork.c:47-49 | two forks below a name of one character or more, and below a name of 11 or more, no fork succeeds, whatever memory there is |
| Forks.Isolation | user/process.c:65-85 | under any interleaving of writes every address space behaves as if its pages were its own |
| Forks.ForkIsolates | user/fork.c:145-180 | after a fork, parent and child each go on from the parent's memory at the fork |
| Words.DecodeEncode | fs/file.c:440-449 | addresses written to a table sector are read back |
| Words.EncodeDecode | fs/inode.c:58-91 | the words of a record determine its bytes |
| FsModel.ClaimFacts | fs/file.c:92-105 | n calls of the allocator return n different blocks that were free, set exactly their bits, and halt exactly when fewer are free |
| FileData.PutAllAppends | fs/file.c:470-497 | the transfer loop makes the bytes of the file the old ones and then the data, and writes no sector outside the file |
| FileData.TakeAllSlices | fs/file.c:599-623 | the read loop returns the slice of the file |
| FileGrowth.GrowBlocks | fs/file.c:342-468 | after growing the file has exactly the blocks it is about to use, the old ones unchanged, and a table exactly when it needs one |
| FileGrowth.GrowOwns | fs/file.c:342-468 | new blocks were nobody's; every block keeps at most one owner and all data is kept |
| FileGrowth.GrowFails | fs/file.c:342-468 | exactly when the growth cannot be done |
| FileWriting.FirstBlockKeeps | fs/file.c:316-331 | the first block of a new file is not the root directory's, so the assertion holds, and the file is still empty |
| FileWriting.WriteFails | fs/file.c:280-340 | exactly when a write is refused, exactly when its size wraps around, and exactly when it halts |
| FileWriting.WrapNotRefused | fs/file.c:283 | a write of 2^32 - 1 bytes to a file of one byte is not refused |
| FileWriting.WriteAppends | fs/file.c:280-504 | a write that returns appends exactly its data, keeps every other file's bytes, and keeps `i_size/512+1` distinct blocks in every written file |
| FileWriting.StaleExact | fs/file.c:467 | for a file with its first block, a write appends exactly its data if and only if the sector at the address never set is not used or holds nothing of the file but zeros |
| FileWriting.StaleLoses | fs/file.c:467 | a file whose own first block is at that address loses what it held |
| StaleWrites.StaleOwn | fs/file.c:280-504 | the same for every write, the first one included |
| StaleWrites.StaleFile | fs/file.c:467 | another file keeps its bytes if and only if the stray write is not made, or its sector is not the table of that file and holds nothing of it but zeros |
| StaleWrites.StaleDir | fs/file.c:467 | a directory keeps its entries, and stays in order, if and only if the stray write is not made or takes no live entry |
| StaleWrites.WriteForeign | fs/file.c:280-498 | a sector that is neither the file's nor a free block changes only by the stray write |
| StaleWrites.StaleRecord | fs/file.c:467 | the record of an inode in the inode table reads as before if and only if the stray write is not made, or its sector holds nothing of the record but zeros |
| StaleWrites.StaleRecordLost | fs/file.c:467 | a stray write into the sector where the record of another inode starts loses that record |
| StaleWrites.WriteExact | fs/file.c:280-498 | a write appends its data, keeps the tree and leaves every other file, directory and record in use and every sector outside table and blocks alone, if and only if the stray write is not made or touches nothing of all this but zeros |
| Files.Partition.BlockBitmapAlloc | fs/file.c:92-105 | the first free block, now claimed, or a halt |
| Files.Partition.AddDirect | fs/file.c:363-391 | situation 1: each new direct block goes to an empty slot, and the table buffer to the stale address |
| Files.Partition.AddTable | fs/file.c:393-440 | situation 2: table, direct blocks and indirect blocks, and the table on disk lists exactly the latter |
| Files.Partition.ClaimForever | fs/file.c:452-461 | situation 3: the loop claims every free block and halts |
| Files.Partition.WriteData | fs/file.c:280-498 | the code with its buffers and loops does exactly what `WriteOf` says, and leaves the position before the end |
| FileCalls.FileWrite | fs/file.c:280-504 | the whole call, with the record of the file written to the table, or an overrun of the one-sector buffer |
| FileCalls.FileWriteOverruns | fs/file.c:288-499 | a write overruns the buffer exactly when it would otherwise return and the record of its number, cut to 8 bits, lies in two sectors |
| Files.Partition.Gather | fs/file.c:546-597 | every block address a read uses is there |
| Files.Partition.FileRead | fs/file.c:507-629 | in range and without wrap-around exactly the slice of the file from the position on, cut at the end, -1 exactly at the end, and a halt exactly when the range reaches block 139; otherwise a halt or a run off the block list, exactly as stated |
| Files.Partition.TakeData | fs/file.c:599-623 | the loop ends exactly when the range ends within the 140 blocks of the list |
| Files.ReadCases | fs/file.c:507-540 | the 32-bit arithmetic is right in range and without wrap-around; otherwise the count is more than any file has |
| Files.ReadWraps | fs/file.c:514 | at position 1 a count of 2^32 - 1 is not cut at the end of the file |
| DirModel.SearchIsLookup | fs/dir.c:42-115 | the first entry met with a name is the entry of the directory's map, and none is met exactly when the map has none |
| DirModel.InsertMap | fs/dir.c:144-256 | one more live entry anywhere adds exactly its name to the map |
| DirSync.SyncAdds | fs/dir.c:144-256 | exactly one name is added and all others are kept, if and only if the direct blocks have room or no live entry is behind a table |
| DirSync.SyncOwns | fs/dir.c:144-256 | in every case each block keeps at most one owner and everyone else keeps blocks and bytes |
| Directories.SearchDirEntry | fs/dir.c:42-115 | equals lookup in the directory's map |
| Directories.EmptyNameFound | fs/dir.c:42-115 | the empty name, which is in no directory's map, is found exactly when a block of the directory has a free entry |
| Directories.SyncDirEntry | fs/dir.c:144-256 | the code with its loops does exactly what `SyncOf` says |
| Directories.DirRead | fs/dir.c:403-477 | at position 24k the k-th live entry, and NULL past the last; the assertion holds |
| Directories.ReadAll | shell/buildin_cmd.c:215-240 | reading from the start until NULL yields each live entry once, whatever the holes |
| Release.ReleaseKeeps | fs/inode.c:202-259 | clears exactly the bits of the blocks the inode owned and keeps the invariant for everyone else |
| Release.ReleaseBlocks | fs/inode.c:202-248 | the code with its loop does exactly that; its assertions hold |
| FileCalls.InodeRelease | fs/inode.c:172-259 | the whole call, with the record cleared in the table |
| FsSteps.EntryIs | fs/dir.c:133-141 | name, number and type of a created entry are read back |
| FsRuns.FormatKeeps | fs/fs.c:90-200 | a formatted partition satisfies the invariant |
| Format.LayoutFits | fs/fs.c:90-135 | the parts of a partition follow one another and the data blocks end inside it, with a bit for each |
| Format.FormatBitmap | fs/fs.c:144-161 | exactly the blocks of the partition are free but the first, and one bit too many |
| Format.ExtraBlock | fs/fs.c:90-135 | the block of that bit is the sector behind the partition exactly when the bitmap did not shrink, else the last of the partition; the bitmap has such a bit unless it ends with its sector |
| Format.ExtraHandedOut | fs/file.c:92-105 | it is handed out exactly when all blocks of the partition are taken |
| Format.FormatPartition | fs/fs.c:90-200 | the file system that formatting leaves is in order, with this bitmap and the root's record in its inode table |
| FsRuns.CreateKeeps | fs/file.c:132-204 | exactly the name is added to the parent, for an inode that was not in use and is an empty file; all other inodes, entries and bytes are kept, and so is the tree |
| FsRuns.DotsKeep | fs/fs.c:645-679 | a new directory maps `.` to itself and `..` to its parent |
| FsRuns.MkdirKeeps | fs/fs.c:632-701 | the same for a new directory, whose map is `.` for itself and `..` for the parent |
| FsRuns.NeedsIs | fs/dir.c:144-256 | the blocks a new entry needs: none when a block with a free entry comes before any missing one, one when a missing one comes first, two when all twelve are full |
| FsRuns.CreateFails | fs/file.c:132-204 | a create halts exactly when no inode is free or the blocks for its entry are not |
| FsRuns.MkdirFails | fs/fs.c:632-701 | a mkdir halts exactly when no inode is free or the blocks for its entry and one more are not |
| FsRuns.StepReturns | fs/file.c:132-504 | exactly when each operation returns |
| FsRuns.StepKeeps | fs/fs.c:632-701 | create, mkdir, write and release, each with its syncs of inodes, keep the tree; each file sees exactly what was written to it, each directory exactly the name entered in it, and exactly the right inodes are in use |
| FsRuns.RunInv | fs/file.c:280-468 | the invariant of the tree holds in every state of every run |
| FsRuns.RunOutside | fs/file.c:280-504 | over every run no sector outside the data area, the inode table and the copies of the bitmaps changes |
| FsRuns.RunContents | fs/file.c:280-504 | over every run a file that is not released holds what it held and then everything written to it, in order |
| FsRuns.RunNames | fs/dir.c:144-256 | over every run the map of a directory that is not released is the one it had with exactly the names created in it, each for the inode allocated then |
| FsRuns.OneOwner | fs/inode.c:202-259 | over every run each block belongs to at most one inode, in one slot, and its bit is set |
| Remount.ReopenKeeps | fs/inode.c:58-152 | `inode_sync` and a cold `inode_open` bring the inode, the bytes of a file and the entries of a directory back if and only if the number is below 256 or the table held the record before; nothing of anyone else changes |
| InodeSyncs.SyncedKeeps | fs/inode.c:58-91 | `inode_sync` of an inode in use changes the record at the number cut to 8 bits and nothing else: no other record, no file, no directory, no block |
| InodeSyncs.DeletedKeeps | fs/inode.c:173-199 | `inode_delete` clears the record of its number and nothing else |
| Remount.FormatTable | fs/fs.c:171-177 | after formatting the root's record is in its place and the rest of the table is clear |
| Remount.StepTable | fs/file.c:132-204 | create, mkdir, write and release leave every record in use that of the inode synced last to its place, and the places from 256 on clear |
| Remount.DropClears | fs/inode.c:172-259 | a release clears the place of its inode in the table and no other |
| Remount.RunReadable | fs/inode.c:58-152 | in every state of every run a cold open finds an inode as it is in memory if and only if its number is below 256 and no other inode was synced to its place since |
| Remount.RunReopensAll | fs/inode.c:58-152 | in every run in which no number reaches 256, every inode in use is found again in every state |
| Remount.RunReopen | fs/inode.c:94-170 | then closing an inode and opening it again changes nothing |
| Remount.Create256 | fs/inode.c:60 | creating inode 256 overwrites the root's record, and neither of the two is found again |
| Remount.RunThenReopen | fs/inode.c:58-152 | over every run, a file still in its place of the table and opened cold holds what it held and then everything written to it |
| BitmapCopies.LastBitLost | fs/file.c:393-440 | the bit of a new table that is the last of its sector is not in the disk copy of the bitmap, whatever is claimed after it |
| BitmapCopies.WriteCopies | fs/file.c:280-498 | after a write the disk copies of the bitmaps are the bitmaps if and only if a new table shares its sector of the bitmap with a later block, and the stray write hits neither the copy of the inode bitmap nor a copied sector with a bit set |
| BitmapCopies.StepCopiesExact | fs/file.c:107-129 | every operation keeps the copies equal to the bitmaps if and only if it is safe in this sense; create, mkdir and release always do |
| BitmapCopies.MountExact | fs/fs.c:29-86 | a mount brings back bitmaps and inodes as they are in memory if and only if the copies are the bitmaps and every inode in use is below 256 and was synced last to its place |
| BitmapCopies.RunMounts | fs/fs.c:29-86 | in every state of every run from a formatted partition, with safe writes and numbers below 256, mounting the partition afresh brings back exactly the file system in memory |
| TreeShape.InsertKeeps | fs/fs.c:632-701 | a new entry, file or directory, at any place behind the dots keeps a tree well formed |
| FsTree.LookupIsMap | fs/dir.c:42-115 | looking a name up in the tree is looking it up in the map of the directory on disk |
| FsTree.FormatShape | fs/fs.c:174-196 | a formatted partition has the tree of the root alone |
| FsTree.CreateShape | fs/file.c:132-204 | creating a file keeps the directories on disk a well-formed tree whose entries name inodes of their type |
| FsTree.MkdirShape | fs/fs.c:632-701 | so does creating a directory |
| FsTree.WriteShape | fs/file.c:280-504 | so does a safe write |
| FsTree.RunShaped | fs/fs.c:632-701 | over every run of create, mkdir and safe writes the directories on disk form a well-formed tree |
| FsTree.RunResolves | fs/fs.c:913-966 | in every state of such a run the names climbed for a directory lead `search_file` back to it, for every path that fits |
| FsTree.RunFinds | fs/fs.c:250-328 | in every state of such a run `search_file` finds every name of a directory's map under the directory's path, with its inode and type |
| FileCalls.NewInode | fs/file.c:77-89 | the first free inode number, now in use with an empty inode, or a halt |
| FileCalls.FileCreate | fs/file.c:132-204 | the code does exactly what the step `Create` says, with the parent and the new inode synced, and keeps the tree |
| FileCalls.SysMkdir | fs/fs.c:632-701 | the code does exactly what the step `Mkdir` says, with the parent and the new inode synced, and keeps the tree |
| InodeTable.PutSplices | fs/inode.c:58-91 | writing through one or two sectors is splicing the record into the bytes of the table |
| InodeTable.RecordCleared | fs/inode.c:114-150 | after a sector is cleared a record reads as before if and only if nothing of it but zeros was there |
| InodeTable.DeleteReads | fs/inode.c:173-199 | exactly the record of the number is cleared |
| InodeTable.ReadCuts | fs/inode.c:114-150 | reading through one or two sectors is cutting the record out of the bytes of the table |
| InodeTable.SyncRecords | fs/inode.c:58-91 | every record but the one at the number cut to 8 bits is as it was |
| InodeTable.SyncThenOpen | fs/inode.c:29-150 | sync and a cold open return the same number, size and sectors if and only if the number is below 256 or the table held that record before |
| InodeTable.SyncElsewhere | fs/inode.c:58-91 | no other record and no sector outside the table changes |
| InodeTable.Inode256Lost | fs/inode.c:60 | on a cleared table inode 256 is lost and overwrites inode 0 |
| InodeTable.BufferOverrun | fs/inode.c:75-84 | the numbers for which `inode_sync` needs more than one sector of buffer |
| InodeCache.RunCache | fs/inode.c:58-170 | over every run of opens, closes and changes with their syncs at most one entry for each number, whose count is the opens minus the closes and whose number, size and addresses are those of its record in the table |
| InodeCache.OpenExact | fs/inode.c:94-152 | opening keeps the cache in order if and only if the inode is open already or its record carries the number asked for |
| InodeCache.OpenInodes.InodeSync | fs/inode.c:58-91 | of all records exactly the one at the number cut to 8 bits is replaced, and no sector outside the table changes |
| InodeCache.OpenInodes.InodeOpen | fs/inode.c:94-152 | one more user of the first open inode with this number, or the record from disk, for one user, in front of the list |
| InodeCache.SyncAndOpen | fs/inode.c:58-152 | an inode below 256 that is synced and opened comes back with its number, size and addresses |
| InodeCache.OpenInodes.InodeClose | fs/inode.c:155-170 | one user less, and gone with the last one |
| Paths.PathParse | fs/fs.c:203-223 | the first component and the rest after it |
| Paths.WashPath | shell/buildin_cmd.c:20-72 | the edits of the buffer compute the fold of the components over a stack, printed, and never need more room than the input |
| WorkingDirectory.WashResolves | shell/buildin_cmd.c:20-72 | a path that leads to a directory, dots and all, leads there when washed |
| WorkingDirectory.WashForgets | shell/buildin_cmd.c:20-72 | the converse fails: `/x/..` leads nowhere without `x` and to the root when washed |
| WorkingDirectory.CdLeads | shell/buildin_cmd.c:75-93 | an argument that leads from the working directory, or from the root, to a directory leads there once absolute and washed |
| Paths.WashedIsClean | shell/buildin_cmd.c:20-72 | no empty, `.` or `..` component, re-parsing gives the stack back, and washing twice equals washing once |
| Paths.WashedIsShorter | shell/buildin_cmd.c:20-72 | the output fits wherever the input fits |
| Paths.ComponentsOfPrint | fs/fs.c:203-223 | parsing a printed stack gives the stack back |
| Paths.MakeClearAbsPath | shell/buildin_cmd.c:75-93 | an overrun exactly when the absolute path has 512 characters or more, else the washed path, which fits its buffer |
| Paths.RelativePath | shell/buildin_cmd.c:75-93 | a relative path acts on the stack of the working directory |
| WorkingDirectory.RootTree | fs/fs.c:182-196 | the tree of a formatted partition is well formed |
| WorkingDirectory.GetChildDirName | fs/fs.c:855-909 | the name of the first entry with this number |
| WorkingDirectory.Climb | fs/fs.c:936-951 | the climb through `..` ends in every well-formed tree, overruns its buffer exactly when the path has 512 characters or more, and has written the names child first |
| WorkingDirectory.Reverse | fs/fs.c:955-961 | the components in the opposite order |
| WorkingDirectory.GetCwd | fs/fs.c:913-966 | the names from the root, or an overrun or a halt exactly when they do not fit |
| WorkingDirectory.SearchFile | fs/fs.c:250-328 | a halt exactly when the path does not start with a slash or has 512 characters or more, else the walk along the components from the root, or the stale number |
| WorkingDirectory.WalkToDir | fs/fs.c:250-328 | following the names of a directory from the root leads to it |
| WorkingDirectory.WalkFromDir | fs/fs.c:250-328 | a walk along plain names ends in the directory of those names |
| WorkingDirectory.GetCwdResolves | fs/fs.c:913-966 | the printed path, whenever it fits, resolves through `search_file` to the same inode |
| WorkingDirectory.CachedPath | shell/shell.c:176-183 | only the path `sys_getcwd` prints leads to a directory |
| WorkingDirectory.Shell.Pwd | fs/fs.c:913-966 | `sys_getcwd` into 512 bytes equals the cached path |
| WorkingDirectory.Shell.ChDir | fs/fs.c:969-992 | halts exactly when `search_file` does, and succeeds exactly when that finds a directory, which becomes the current one |
| WorkingDirectory.Shell.Cd | shell/buildin_cmd.c:117-142 | overruns exactly when the absolute path has 512 characters or more; otherwise succeeds exactly when the washed path leads to a directory, and then that path is cached; an argument that leads to a directory makes it the current one, and `..` the parent; else nothing changes |

## Left out

- Boot, loader, `switch_to`, interrupt entry, port I/O and the console: hardware effects.
- `delete_dir_entry`, `sys_unlink`, `sys_rmdir`, `dir_remove`: the delete loop starts at block 12 and has an inner loop without progress; holes from deleted entries are allowed in the directory walks.
- `thread_exit`, wait and exit: the control block is read after it is unmapped.
- `write_deny` and descriptors shared after fork: `file_close` clears the flag for any closer.
- Failure and rollback paths of `file_open`, `file_create` and `sys_mkdir`, and `sys_malloc` returning NULL inside the file calls: buffers are taken to be there.
- `bitmap_sync` inside the methods: `BitmapCopies` follows its calls on the steps, with the copies apart from the other sectors.
- The contents of the super block, which no operation of a run touches (`FsRuns.RunOutside`).
- Concurrency of the memory and file calls: `page_table_add` takes kernel frames without the kernel pool's lock.
- The user's heap blocks inherited through fork, whose arenas still point at the parent's descriptors.
- Wrap-around of counters that users do not control: ticks, `holder_repeat_nr`, inode open counts.
- The failure of `busy_wait`.
- `path_depth_cnt`, and names of 16 characters or more, for which the source's name buffers have no room.
- Waiting with a non-empty queue when several consumers or producers use one `ioqueue`: only the case of one consumer and the keyboard handler is claimed.
- What the machine does after an overrun: each such result ends the call in the model.
- DiskProtocol.ChannelStarts: `identify_disk`, which issues a command without the channel lock during start-up, is not followed.
- Forks.Fork: says nothing of the rest of the control block, the kernel stack and the open files.
- Heaps.HeapManager.SysFree: a pointer that is not a live allocation is excluded, as the source trusts its callers.
- Heaps.HeapManager.SysMalloc: does not model the contents of the memory handed out, which the source clears.
- FileWriting.WriteAppends: for a stale address that is nobody's block; `StaleWrites.WriteExact` covers every address.
- FileWriting.StaleExact: for a file that has its first block; `StaleWrites.StaleOwn` covers every write.
- Files.Partition.WriteData: ends before the `inode_sync` of the source; `FileCalls.FileWrite` is the whole call.
- Release.ReleaseBlocks: ends before the record is cleared; `FileCalls.InodeRelease` is the whole call, except that the open and close of the inode in the cache are not followed.
- FileCalls.FileCreate: leaves out the descriptor and the list of open inodes.
- FileCalls.SysMkdir: starts after the search of the path.
- StaleWrites.StaleFile: speaks of the bytes of the file, not of its record in the inode table, which is `StaleWrites.StaleRecord`.
- StaleWrites.StaleDir: speaks of the entries, in the same way.
- Format.FormatPartition: asks for a sector for every bit of the bitmap, also for those behind the last block.
- FsRuns.FormatKeeps: takes any bitmap with its first bit set; `Format.FormatPartition` gives the one of the source.
- FsRuns.RunInv: entries go to directories with room in the sense of `DirSync.RoomFor`, and writes are safe in the sense of `StaleWrites.WriteSafe`, which are the exact conditions; the shape of the tree is `FsTree.RunShaped`. Inodes are those in memory; `Remount.RunReadable` says which of them the table holds.
- InodeCache.RunCache: for records that carry their own number, and changes of inodes below 256; `InodeCache.OpenExact` and `InodeTable.SyncThenOpen` say what happens otherwise.
