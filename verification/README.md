# Linux 0.11: verified models of its core

This project models the stateful core of the Linux 0.11 kernel in Dafny and proves properties of it. Each component
has a specification on values (what a state is, what a step does, what every step keeps) and, where the kernel changes
things in place, a class whose fields are the kernel's tables and whose methods have the kernel's loops and branches.
Each method is proved to do what the specification says; the specification is then proved to have the property the
component is there for.

| Modules | Kernel part | Main results |
|---|---|---|
| `PagingSpec`, `PagingProofs`, `ForkProofs`, `EagerProofs`, `TouchedPages`, `Memory` | `mm/memory.c`, `kernel/fork.c`, `kernel/exit.c` | any run of fork, store, share, map and free over shared read-only pages shows every task exactly what a machine that copies at fork shows it; reference bytes are exact; a failed fork restores them; no task is given a page another has written |
| `ElevatorSpec`, `BlockDev` | `kernel/blk_drv/ll_rw_blk.c`, `blk.h` | a device queue is at most two ascending sweeps; no request starves; reads go before writes |
| `CacheProtocol`, `BufferCache`, `CacheRun` | `fs/buffer.c` | whatever tasks run at each sleep, no block is cached twice, a counted buffer keeps its block, and the cache is invisible; bread reads and a write-back stores; every step is performed in place on hash chains and a circular list that stay in order |
| `FileSpec`, `FileSystem` | `fs/inode.c`, `bitmap.c`, `truncate.c`, `file_dev.c`, `read_write.c` | a file over direct, indirect and double indirect blocks is a byte sequence; block trees stay disjoint; a write gets exactly as far as the free blocks allow, and no block is lost |
| `Malloc` | `lib/malloc.c` | live objects are disjoint; free slots and live objects are exactly a page's slots |
| `Scheduler`, `SchedulerLaws`, `Timers` | `kernel/sched.c`, `fork.c` | one refill is enough; a task that stays able to run gets the processor in bounded time; timers are never early and never lost |
| `Exec`, `ExecLaws` | `fs/exec.c` | the packed argument block and its pointer tables give back the original strings |
| `Ring`, `Tty`, `TtyLaws`, `Pipe` | `kernel/chr_drv/tty_io.c`, `fs/pipe.c` | the line discipline refines a line editor; pipes are first in, first out for any readers and writers |
| `FileTable`, `FileTableLaws` | `fs/open.c`, `fcntl.c`, `pipe.c`, `inode.c` | file reference counts are exact; a pipe's end of file means nobody can write |
| `ConsoleSpec`, `ConsoleLaws`, `Console` | `kernel/chr_drv/console.c` | the window in video memory is the screen the bytes describe, whichever way the console scrolls; text shows as on paper, and each escape sequence moves and erases what its numbers say |

Where the kernel falls short of what its documentation or the obvious claim says, the model follows the code:

- `add_timer` does not shorten the timers behind the one it inserts, so they are put off. `Timers.PutOff` says exactly
  when nothing is put off, `Timers.PutOffExample` gives a list for which something is.
- `copy_strings` tests an unsigned number for being negative (`Exec.TestNeverHolds`), so strings that do not fit are
  written below the block. `Exec.ArgBlock.CopyStrings` and `Exec.AllCalledIs` say exactly when.
- `do_execve` decreases `argc` for a script even when it is 0. `Exec.PassedOn`: that is the only case in which
  arguments that fit are not passed on as they should be; `Exec.EmptyList` is such a case.
- `dup2` of a descriptor onto itself closes it (`FileTable.Dup2Self`); `FileTable.Dup2Shares`: it does what it should
  if and only if the two descriptors differ.
- `con_write` compares the cursor's column, not the byte, with '7' and '8' after ESC. `ConsoleSpec.SavesCursor` and
  `RestoresCursor` say exactly when ESC 7 and ESC 8 work, `CursorExample` is a screen on which they do not.
- `gotoxy` takes unsigned coordinates, so a relative move by a number near 2^32 goes the other way:
  `ConsoleLaws.RowMoves` and `ColumnMoves` say exactly when, `WrapExample` is such a move.
- `new_block` sets the bit it found before it checks that the block exists, and leaves it set. `FileSpec.LeaksBit` says
  exactly when, `LeakExample` is a device on which it does.
- `_bmap` returns 0 for a block behind an indirect block that cannot be read, so `file_read` gives zeros for it
  (`FileSpec.SeenByteIs`, `ZerosExample`), and `truncate` leaves such blocks marked used: `FileSpec.TruncatedLosesNone`.
- `tty_read` does not restore the alarm when EOF ends it: `Tty.CallIs` says exactly when, `Tty.AlarmExample` is a call
  that leaves one.
- `con_init` leaves the cursor address wrong when the cursor it is given is off the screen (`Console.Console.constructor`).
- `insert_into_queues` writes through `b_next` also when the chain was empty; the model writes only if there is a next
  buffer.

## Model

| member | source | states |
|---|---|---|
| Memory.PagedMemory.constructor | mm/memory.c:567-587 | after mem_init exactly the frames between start and end are free, all others are marked used, and the invariant holds |
| Memory.PagedMemory.GetFreePage | mm/memory.c:96-121 | the highest free frame, cleared and counted once, or 0 exactly when none is free; no task sees a difference |
| Memory.PagedMemory.FreePage | mm/memory.c:127-137 | one reference less to a managed frame, nothing for low memory |
| Memory.PagedMemory.FreePageTables | mm/memory.c:152-182 | the eager machine's free: those directory entries see nothing, all others what they saw; counts stay exact |
| Memory.PagedMemory.CopyPageTables | mm/memory.c:213-264 | succeeds if and only if there are enough free frames for the page tables, and has shared exactly the rows it got to |
| Memory.PagedMemory.CopyMem | kernel/fork.c:29-58 | on success memory looks as after a fork that copied every page; on failure every page is as it was and every reference byte is restored |
| Memory.PagedMemory.CopyProcess | kernel/fork.c:127-131 | fork succeeds if and only if there are frames for the task page and all page tables; if not, every page, every reference byte and what the kernel holds are as before |
| Memory.PagedMemory.PutPage | mm/memory.c:282-314 | the page is seen at the address, and the kernel's hold on it has become the mapping |
| Memory.PagedMemory.GetEmptyPage | mm/memory.c:411-421 | a page of zeros is seen at the address, or the call is refused and nothing has changed |
| Memory.PagedMemory.UnWpPage | mm/memory.c:322-351 | the word becomes writable and nobody sees a difference: a page with one reference is kept, another is copied first |
| Memory.PagedMemory.WriteVerify | mm/memory.c:391-406 | afterwards the page can be written without anyone else seeing it |
| Memory.PagedMemory.TryToShare | mm/memory.c:432-475 | shares a clean page of another task read-only: the new task sees the contents, the old one no difference |
| Memory.PagedMemory.StoreByte | mm/memory.c:322-351 | a store through a read-only word, with its fault, changes one byte of one page of one task |
| Memory.PagedMemory.Step | mm/memory.c:152-475 | every operation is the same step of the eager machine; it is refused if and only if the page words do not allow it or there are too few frames, and stores into kernel memory if and only if the word is writable and the page low |
| Memory.PagedMemory.Run | mm/memory.c:152-475 | after any run of forks, stores, faults, shares and frees every task sees what it would see had fork copied every page, and at each step exactly the operations that the state before it does not allow were refused |
| Memory.DirtyIsTouched | mm/memory.c:252-258 | over any run a page word has the dirty bit exactly if the page has been stored into since it was mapped, in this task or in the parent it was forked from, by the history of operations alone |
| Memory.SharesUntouched | mm/memory.c:445-476 | at any point of a run a page is shared if and only if its task sees it as its own, nobody has stored into it, the place is empty and there is room for a page table: no task is given what another has written |
| TouchedPages.ForkTouches | mm/memory.c:244-259 | fork passes the marks of written pages on to the child and leaves them with the parent |
| TouchedPages.AliasTouches | mm/memory.c:464-468 | sharing leaves a page as clean as it was, in both places |
| EagerProofs.Isolation | mm/memory.c:322-351 | in a whole run, what a task sees changes only by its own operations, and the bytes of kernel pages only by stores into kernel memory |
| PagingProofs.WritableAlone | mm/memory.c:322-351 | a writable word to a frame above low memory means the frame's count is 1 |
| PagingProofs.CountBound | mm/memory.c:244-251 | a mapped page has at most one reference for each task, so its reference byte never wraps |
| PagingProofs.MappedCounts | mm/memory.c:127-137 | a mapped page counts, so freeing it cannot panic |
| PagingProofs.TableCounts | mm/memory.c:172-176 | a page table in managed memory counts exactly one reference, so freeing it makes it free |
| PagingProofs.ClaimKeeps | mm/memory.c:96-121 | taking a free frame keeps all counts exact and is seen by nobody |
| PagingProofs.AliasKeeps | mm/memory.c:240-252 | sharing one page read-only keeps all counts exact and shows the child the parent's page |
| PagingProofs.LinkKeeps | mm/memory.c:462-474 | sharing one clean page between tasks keeps all counts exact |
| PagingProofs.DropKeeps | mm/memory.c:168-173 | giving up one page keeps all counts exact and hides just that page |
| PagingProofs.DropTableKeeps | mm/memory.c:174-176 | giving up an empty page table keeps all counts exact and is seen by nobody |
| PagingProofs.SplitKeeps | mm/memory.c:330-350 | copying a shared page for one task keeps all counts exact and is seen by nobody |
| PagingProofs.WriteKeeps | mm/memory.c:322-351 | a byte stored through a writable word changes that byte of that page and nothing else |
| PagingProofs.InitKeeps | mm/memory.c:567-587 | the invariant holds after mem_init |
| ForkProofs.ForkEnds | mm/memory.c:213-264 | a completed copy_page_tables looks like a fork by copying |
| ForkProofs.ForkUnseen | kernel/fork.c:51-56 | after a failed fork and free_page_tables every task sees what it saw |
| ForkProofs.ForkUncounted | kernel/fork.c:51-56 | and every reference byte is as it was |
| ForkProofs.CopyFails | mm/memory.c:236-239 | the copy fails only when the parent has more page tables than there are free frames |
| ForkProofs.ExitFrees | kernel/exit.c:145-146 | exactly the frames to which nothing else refers become free on exit |
| ElevatorSpec.InsertKeeps | kernel/blk_drv/ll_rw_blk.c:64-86 | inserting a request keeps at most two ascending sweeps, keeps the keys distinct and never displaces the head |
| ElevatorSpec.RemoveKeeps | kernel/blk_drv/blk.h:109-125 | taking the head off keeps at most two sweeps |
| ElevatorSpec.ArrivalIsFair | kernel/blk_drv/ll_rw_blk.c:78-84 | an arrival, wherever it goes, does not move the sweep away from a waiting request |
| ElevatorSpec.CompletionIsProgress | kernel/blk_drv/blk.h:109-125 | a completion brings the sweep nearer to a waiting request |
| ElevatorSpec.NoStarvation | kernel/blk_drv/ll_rw_blk.c:64-86 | a queued request is served before 2K completions, K the number of possible keys, however many requests arrive |
| ElevatorSpec.SweepsAscend | kernel/blk_drv/blk.h:40-43 | two sweeps means: with one exception at most each request is followed by one of a later command, or of the same for a higher device, or for the same device at a higher sector |
| ElevatorSpec.GoesBeforeLater | kernel/blk_drv/blk.h:36-43 | behind a request being served, one of the same command and device at a higher sector goes before every one of a later command, and in the order of sectors |
| BlockDev.ReadsGoFirst | kernel/blk_drv/blk.h:36-43 | a read that the sweep still comes to is served before all queued writes |
| BlockDev.NeededIs | kernel/blk_drv/ll_rw_blk.c:95-109 | only a buffer that is not up to date need be read, and only a dirty one written |
| BlockDev.SlotIs | kernel/blk_drv/ll_rw_blk.c:78-84 | the place the loop of add_request stops at is the elevator's |
| BlockDev.SpliceInserts | kernel/blk_drv/ll_rw_blk.c:84-85 | linking the slot in there inserts its key as the elevator does |
| BlockDev.KeyIsNew | kernel/blk_drv/ll_rw_blk.c:42-49 | because buffers are locked while their request is pending, keys in a queue are distinct |
| BlockDev.EnqueueKeeps | kernel/blk_drv/ll_rw_blk.c:130-142 | queueing a request keeps every queue two sweeps, holding exactly its device's pending requests |
| BlockDev.DequeueKeeps | kernel/blk_drv/blk.h:109-125 | completing one does too |
| BlockDev.BlockLayer.constructor | kernel/blk_drv/ll_rw_blk.c:157-165 | all slots free, all queues empty |
| BlockDev.BlockLayer.AddRequest | kernel/blk_drv/ll_rw_blk.c:64-86 | the request goes into its queue where the elevator puts it; the device is started if it was idle |
| BlockDev.BlockLayer.MakeRequest | kernel/blk_drv/ll_rw_blk.c:88-142 | a request is dropped when its buffer needs none, sleeps on a locked buffer, is queued if and only if a slot is free for it, and otherwise sleeps or, read ahead, is dropped; the queue afterwards; tasks waiting for a slot go on waiting |
| BlockDev.BlockLayer.Repeat | kernel/blk_drv/ll_rw_blk.c:109-142 | the search for a slot, first or after the sleep: queued if and only if one is free |
| BlockDev.EnqueueWaits | kernel/blk_drv/ll_rw_blk.c:122-128 | queueing another request keeps a sleeping task's buffer locked and free of requests, so it can go on when woken |
| BlockDev.DequeueWaits | kernel/blk_drv/blk.h:109-125 | so does a completion |
| BlockDev.BlockLayer.FindSlot | kernel/blk_drv/ll_rw_blk.c:113-121 | the last free slot, for a write one of the first two thirds, NULL if and only if there is none |
| BlockDev.BlockLayer.EndRequest | kernel/blk_drv/blk.h:109-125 | the head leaves the queue, its buffer is unlocked and marked, its slot is free |
| CacheProtocol.NextKeeps | fs/buffer.c:187-285 | every step of every task and of the disk keeps: no block in two buffers, counts exact, a dirty buffer up to date |
| CacheProtocol.WakeFinds | fs/buffer.c:187-205 | a buffer counted before the sleep in get_hash_table still holds the block after it |
| CacheProtocol.CountedStays | fs/buffer.c:210-255 | a buffer with a count is never given to another block |
| CacheProtocol.ReleaseNeverPanics | fs/buffer.c:257-265 | brelse never finds a count of zero |
| CacheProtocol.HolderReads | fs/buffer.c:271-285 | a task that has read a block reads the logical disk |
| CacheProtocol.TakeIsUnseen | fs/buffer.c:231-254 | reusing a buffer loses no write |
| CacheProtocol.TransferIsUnseen | fs/buffer.c:63-86 | writing back, reading in and completions leave the logical disk alone |
| CacheProtocol.Coherent | fs/buffer.c:63-86 | only a user's write changes the logical disk, at its own block, to what it wrote; a block given up by free_block is what was last written back; the device changes only by writing back, to what users see |
| CacheProtocol.CacheIsInvisible | fs/buffer.c:187-285 | after any interleaving every block reads as on a disk without a cache, which goes by the writes, write-backs and discards of that block alone, and the device has what was last written back |
| CacheProtocol.ReadFills | fs/buffer.c:271-285 | bread of a buffer that is not up to date locks it, and the request and the transfer then leave it unlocked, up to date and with the contents of its block; one that is up to date is left alone |
| CacheProtocol.WriteBackStores | fs/buffer.c:63-86 | a write-back ends with the buffer clean and unlocked and the device holding what users see of the block |
| CacheProtocol.LocksEnd | fs/buffer.c:40-46 | whatever holds the lock of a buffer, the requests and the disk by themselves unlock it |
| CacheProtocol.GetblkGets | fs/buffer.c:210-255 | getblk with nobody in the way ends with the block's own buffer, or with the one chosen, empty, counted and under the block |
| CacheProtocol.BreadReads | fs/buffer.c:271-285 | bread with nobody in the way ends with the task holding an unlocked buffer with what users see of the block |
| CacheProtocol.BrelseReleases | fs/buffer.c:257-265 | brelse takes back just the one reference |
| CacheProtocol.VictimIsBest | fs/buffer.c:208-227 | a clean buffer is reused before a dirty one, and of two alike in that the one that is not locked |
| CacheProtocol.InitKeeps | fs/buffer.c:352-385 | the invariant holds after buffer_init |
| CacheRun.FindIs | fs/buffer.c:170-178 | find_buffer over the hash chains finds the buffer the protocol finds |
| CacheRun.ChoiceIs | fs/buffer.c:217-227 | the buffer getblk chooses from the circular list is one the protocol allows |
| CacheRun.RunningCache.constructor | fs/buffer.c:352-385 | buffer_init starts the protocol, with the chains and the list in order |
| CacheRun.RunningCache.Look | fs/buffer.c:187-230 | find_buffer and the choice of a buffer are the protocol's step |
| CacheRun.RunningCache.Check | fs/buffer.c:231-254 | the rechecks of getblk and the reuse are the protocol's step |
| CacheRun.RunningCache.Perform | fs/buffer.c:40-285 | every step of the protocol, in any interleaving, is performed on the buffer heads, whose chains and circular list stay in order |
| CacheRun.RunningCache.PerformAll | fs/buffer.c:40-285 | a whole run on the buffer heads is a run of the protocol with the buffers getblk chose, and after it every block reads as on a disk without a cache |
| BufferCache.RemoveKeeps | fs/buffer.c:135-151 | unlinking a buffer leaves every chain and the circular list as lists of all the others; an only buffer stays linked to itself |
| BufferCache.InsertKeeps | fs/buffer.c:153-168 | linking it in again puts it at the end of the list and at the front of its block's chain |
| BufferCache.FieldsKeep | fs/buffer.c:245-252 | changing the other fields of a buffer leaves its place in the queues right |
| BufferCache.Buffers.constructor | fs/buffer.c:352-385 | after buffer_init all buffers are in the circle, in order, and every chain is empty |
| BufferCache.Buffers.RemoveFromQueues | fs/buffer.c:135-151 | the pointer operations do exactly that in place |
| BufferCache.Buffers.InsertIntoQueues | fs/buffer.c:153-168 | the same for linking in |
| BufferCache.Buffers.FindBuffer | fs/buffer.c:170-178 | the buffer that holds the block, NULL if and only if none does or the device is 0, which marks unused buffers |
| BufferCache.Buffers.ChooseBuffer | fs/buffer.c:217-227 | a free buffer with the least badness, the first such in the list; NULL if and only if all are in use |
| BufferCache.Buffers.Reuse | fs/buffer.c:244-254 | the buffer is found under its new block only, which no other buffer holds |
| FileSpec.HungKeeps | fs/inode.c:86-185 | hanging a new block into a tree keeps all trees disjoint and marked used, and changes no byte of any file |
| FileSpec.AllocatedCounts | fs/inode.c:86-185 | each block taken fills one missing place: the free blocks and the missing places go down by the same number |
| FileSpec.PathOutcome | fs/inode.c:86-185 | an allocation along a path fails if and only if more places on it are without a block than blocks are free |
| FileSpec.WriteOutcome | fs/file_dev.c:95-130 | how far a write gets: the first k bytes, if and only if no block on their paths fails to be read and the blocks free before are enough for the places missing on them |
| FileSpec.AllocatedLosesNone | fs/inode.c:86-185 | no block of the data zone is ever marked used without being in a file's tree, also when an allocation fails halfway |
| FileSpec.TruncatedLosesNone | fs/truncate.c:11-65 | truncate loses no block if and only if it can reach all of the file's tree: blocks behind an indirect block that cannot be read stay marked used |
| FileSpec.TruncatedFree | fs/truncate.c:11-65 | a block is free after truncate if and only if it was, or is one of the tree that truncate can reach |
| FileSpec.WrittenByte | fs/file_dev.c:92-107 | bytes written into a block of one file are bytes of that file only |
| FileSpec.WrittenKeeps | fs/file_dev.c:92-107 | a chunk written within one block keeps the forest and the zeros beyond each end |
| FileSpec.WriteIsWriteAt | fs/file_dev.c:71-143 | a write that is right byte by byte is the write into a plain byte sequence |
| FileSpec.WriteAtReads | fs/read_write.c:96-101 | after it the bytes written are read back, a gap reads as zeros, everything else as before |
| FileSpec.LeafOrder | fs/inode.c:98-185 | the blocks of a file are the places for data of its tree from left to right: zones 0 to 6, then the entries of zone 7, then those behind zone 8 |
| FileSpec.LeafOnto | fs/inode.c:98-185 | and all such places are blocks of the file |
| FileSpec.NumberedIs | fs/inode.c:98-185 | what _bmap finds is the number in the zone, or in the entry of the block named by zone 7, or in the entry of the block named in the block named by zone 8 |
| FileSpec.ByteIs | fs/file_dev.c:35-56 | the bytes of a file are those of the blocks named by these numbers |
| FileSpec.SeenByteIs | fs/inode.c:121-138 | a byte is read as it is stored if and only if no indirect block before it fails to be read, or it is zero: behind such a block everything reads as a hole |
| FileSpec.ZerosExample | fs/inode.c:124-125 | a file for which a read goes on and gives a zero where a one is stored |
| FileSpec.TruncatedKeeps | fs/truncate.c:47-65 | truncate empties this file and leaves all others their bytes and blocks, whatever blocks cannot be read |
| FileSystem.Device.FindFirstZero | fs/bitmap.c:31-45 | the first zero bit of one bitmap block |
| FileSystem.Device.constructor | fs/super.c:199-223 | a device whose files are all empty: the bit that stands for no block is set, and trees, bitmap and contents agree |
| FileSystem.Device.NewBlock | fs/bitmap.c:75-105 | the first free block, marked used and cleared, or 0 exactly when there is none in the data zone; the bitmap afterwards in every case |
| FileSpec.LeaksBit | fs/bitmap.c:89-95 | a call that finds no block sets a bit all the same if and only if a bit is clear and the first clear one stands for a block beyond the device |
| FileSpec.LeakExample | fs/bitmap.c:89-95 | a full device for which that happens |
| FileSystem.Device.Bmap | fs/inode.c:86-185 | the number of a file's n-th block, 0 behind an indirect block that cannot be read; with create, missing blocks on the way are filled in, every other mapping and every byte is kept, and the result agrees with a later bmap; with create it is 0 if and only if the path is cut by a failed read or more blocks are missing on it than were free; each block taken was free and goes to one missing place |
| FileSystem.Device.FileRead | fs/file_dev.c:20-66 | up to the first block that cannot be read: k bytes come if and only if their blocks can be read, each as _bmap finds it, holes as zeros; -ERROR if there are none, nothing changed |
| FileSystem.Device.SysRead | fs/read_write.c:96-101 | the slice of the byte sequence from the position, no further than its end or the first block that cannot be read, with zeros behind an indirect block that cannot |
| FileSystem.Device.FileWrite | fs/file_dev.c:71-143 | the byte sequence with the bytes written put in at the position, or at the end; all other files as before; the first k bytes are written if and only if no block on their paths fails to be read and the blocks free before the call are enough for the places missing on them; what was allocated is on those paths |
| FileSystem.Device.FreeInd | fs/truncate.c:11-27 | exactly the bits of an indirect block and, if it can be read, of the blocks it names are cleared |
| FileSystem.Device.FreeDind | fs/truncate.c:29-45 | the same for a double indirect block |
| FileSystem.Device.Truncate | fs/truncate.c:47-65 | exactly the bits of the file's tree, so far as it can be read, are cleared and the file is empty |
| Malloc.LiveApart | lib/malloc.c:117-175 | live objects do not overlap, lie inside their page and are not at address 0 |
| Malloc.SomeLive | lib/malloc.c:214-226 | a page whose refcnt is not 0 has a live object |
| Malloc.OpenedKeeps | lib/malloc.c:139-163 | a new page is one free list of all its slots |
| Malloc.AllocatedKeeps | lib/malloc.c:164-175 | taking the first free slot keeps: free slots and live objects are exactly the slots, refcnt the live ones |
| Malloc.AllocatedLive | lib/malloc.c:164-175 | it makes one object live that was not, and no other changes |
| Malloc.ReleasedKeeps | lib/malloc.c:211-214 | giving a slot back keeps the same |
| Malloc.ClosedKeeps | lib/malloc.c:214-229 | so does giving an empty page back |
| Malloc.ClientWrites | lib/malloc.c:164-175 | a client's write into its own object leaves every free list and every other object as they are |
| Malloc.Allocator.FindBucket | lib/malloc.c:127-137 | the smallest size that holds len bytes |
| Malloc.Allocator.Alloc | lib/malloc.c:117-175 | an object of at least the asked size that was not live; it is live now and every other object is as before |
| Malloc.Allocator.Free | lib/malloc.c:182-231 | the object is not live any more, every other is as before; the page is given back exactly when it was the last |
| Scheduler.BestIsOne | kernel/sched.c:169-186 | what the scan finds is one task: the largest counter, the highest number among equals |
| Scheduler.RefillIsEnough | kernel/sched.c:190-193 | after one refill some task that can run has a positive counter |
| Scheduler.NextKeeps | kernel/sched.c:419-498 | in every reachable state counters lie between 0 and 2P - 1, P the largest priority the task has held, and priorities are positive |
| Scheduler.PidsStayDistinct | kernel/fork.c:148-160 | no two tasks ever have the same process number |
| Scheduler.WaitIsPaid | kernel/sched.c:433-449 | every step in which a task waits uses up what the others have left, by one for each user-mode tick |
| Scheduler.GetsTheProcessor | kernel/sched.c:169-193 | in a run without fork a task that stays able to run with a positive counter runs before the others' user-mode ticks exceed the sum of their counters |
| SchedulerLaws.ScheduleWakes | kernel/sched.c:150-164 | after schedule a task that slept interruptibly is running if and only if a signal it does not or cannot block has reached it, SIGALRM too when its alarm has gone off; nothing else changes but counters |
| SchedulerLaws.ScheduleRefills | kernel/sched.c:169-193 | every task is given half of what it has left and its priority, if and only if some task can run and all that can have used up their time |
| SchedulerLaws.SleeperGains | kernel/sched.c:189-192 | a task that sleeps while the others use up their time comes to have almost twice its priority: what it lacks is halved each time |
| SchedulerLaws.TimeSlice | kernel/sched.c:446-449 | a task with n left runs on through n - 1 ticks in user mode, one less each time |
| SchedulerLaws.SliceEnds | kernel/sched.c:446-449 | with the last one another that can run and has time left is switched to |
| SchedulerLaws.ForkedChild | kernel/fork.c:89-96 | the child can run, with its parent's priority and all of it to use, and none of its signals and alarm |
| SchedulerLaws.NiceLowers | kernel/sched.c:492-497 | nice lowers the priority by the increment, if it stays positive, and nothing else |
| Scheduler.TaskTable.constructor | kernel/sched.c:499-515 | only task 0, and the invariant |
| Scheduler.TaskTable.Scan | kernel/sched.c:170-184 | the task that can run with the largest counter, the highest-numbered of several; 0 when none can run |
| Scheduler.TaskTable.Schedule | kernel/sched.c:141-198 | wakes whom a signal reaches, refills at most once and only if every task that can run has used up its time, and switches to the best task |
| Scheduler.TaskTable.DoTimer | kernel/sched.c:433-449 | a tick charges the running task and schedules when it came in user mode and the counter is used up |
| Scheduler.TaskTable.SysNice | kernel/sched.c:492-497 | the priority changes only if it stays positive |
| Scheduler.TaskTable.FindEmptyProcess | kernel/fork.c:148-160 | a positive number that no task has, and the first free slot, if and only if there is one |
| Scheduler.TaskTable.CopyProcess | kernel/fork.c:88-95 | the child can run, with its priority as counter and no signal or alarm |
| Timers.InsertDue | kernel/sched.c:398-415 | a new timer is due in exactly the ticks asked; those before it keep their time, those behind are put off by its delta |
| Timers.PutOff | kernel/sched.c:405-414 | no timer is put off if and only if the new one is due after all others |
| Timers.PutOffExample | kernel/sched.c:405-414 | with one timer due in 10 ticks, adding one of 4 ticks makes it due in 14 |
| Timers.TickedDue | kernel/sched.c:433-443 | each tick brings every timer one tick nearer and calls exactly the one that was due in one |
| Timers.NeverEarly | kernel/sched.c:386-443 | over any run no timer is called before its time, none twice, and each is either pending or has been called |
| Timers.TimerList.AddTimer | kernel/sched.c:386-417 | trading contents down the list inserts the timer there; the slots on the list stay exactly those with fn set |
| Timers.TimerList.Tick | kernel/sched.c:433-443 | the list after a tick, and whom it called |
| Timers.NamedInsert | kernel/sched.c:398-415 | the list in place, which knows handlers only, is the list of registrations |
| Timers.RunningTimers.AddTimer | kernel/sched.c:386-417 | in place, over any run, each registration is pending or was called once and not early |
| Timers.RunningTimers.DoTimer | kernel/sched.c:433-443 | the handlers called are those of the registrations that are due |
| Exec.TestNeverHolds | fs/exec.c:180 | for a string longer than what is left, the unsigned p - len is not even below p |
| Exec.PutBelow | fs/exec.c:185-199 | a byte put below the strings packed so far leaves them as they are |
| Exec.PackedHolds | fs/exec.c:156-204 | each string stands, ended by zero, at its offset in the packed block |
| Exec.ArgBlock.CopyStrings | fs/exec.c:156-204 | the strings end up below p, in order, above what is there, if and only if they are shorter than p and there are pages for them, and exactly the pages needed are taken; it writes below the block if and only if they are longer and there are pages for all of it |
| Exec.NeededJoin | fs/exec.c:185-197 | the pages taken by two calls are those one call would take |
| Exec.StringStops | fs/exec.c:169-200 | if one string cannot be copied, neither can all of them |
| Exec.TablePoints | fs/exec.c:81-95 | a table of the strings' offsets points at the strings, in order |
| Exec.UserMemory.CreateTables | fs/exec.c:63-97 | aligned tables below the strings whose i-th pointers address the i-th argument and environment string, each ended by NULL; the strings are untouched |
| Exec.Splice | fs/exec.c:365-376 | the spliced list of a script: interpreter, its argument, file name, then the rest, each call ending as it must |
| Exec.PackAll | fs/exec.c:357-422 | how the calls of copy_strings end, and the packed block |
| Exec.AllCalledIs | fs/exec.c:357-422 | they end well if and only if all strings together are shorter than the block and there are pages for them; below the block if and only if they are longer, there are pages for all of it and no call ends exactly at its bottom |
| Exec.DoExecve | fs/exec.c:357-455 | the program is started if and only if the strings fit and there are pages for them, and then finds its tables |
| Exec.Shares | fs/exec.c:357-376 | how the packed strings fall into arguments and environment, also for a script with an empty argument list |
| Exec.PassedOn | fs/exec.c:357-376 | what fits is passed on as wanted if and only if it is not a script with an empty argument list |
| Exec.EmptyList | fs/exec.c:357-376 | a script started with an empty argument list is started, and not with what it should get |
| ExecLaws.LongIs | fs/exec.c:77-94 | the counts and pointers are stored low byte first |
| ExecLaws.ProgramSees | fs/exec.c:63-97 | argc, argv and envp of a program lead to its arguments and its environment, each list ended by NULL |
| ExecLaws.InterpreterSees | fs/exec.c:357-376 | the interpreter of a script finds its own name, the argument from the first line, the file name and the rest of the arguments, in this order |
| Ring.Put | include/linux/tty.h:20-30 | a byte put at the head joins the queue at its end, also around the end of the ring |
| Ring.Take | include/linux/fs.h:73-77 | moving the tail takes bytes off the front |
| Ring.MaskIsWrap | include/linux/tty.h:20-30 | the masks are the wrap-around |
| Tty.CookShows | kernel/chr_drv/tty_io.c:106-189 | each character does to secondary what it does to the line editor: ERASE drops the last uncommitted character, KILL drops back to the last line end |
| Tty.DrainedIs | kernel/chr_drv/tty_io.c:220-230 | the inner loop ends at EOF in canonical mode, at nr characters or when nothing is left, and gives what it takes but for that EOF |
| Tty.EditorIsShown | kernel/chr_drv/tty_io.c:106-233 | over every run, in either mode, secondary is the edited text not yet read, data counts its line ends, and readers got exactly the text before it |
| TtyLaws.TypedIs | kernel/chr_drv/tty_io.c:110-121 | Enter ends the line with ICRNL, IGNCR drops it, INLCR and IUCLC do what they say, and any other character that is not special is added |
| TtyLaws.SpecialsDo | kernel/chr_drv/tty_io.c:152-169 | INTR and QUIT send their signals, STOP and START hold output and let it go on, and none of them is read |
| TtyLaws.EraseTakesBack | kernel/chr_drv/tty_io.c:138-151 | ERASE takes back the last character typed in the line |
| TtyLaws.KillTakesBack | kernel/chr_drv/tty_io.c:123-137 | KILL takes back all of it |
| TtyLaws.LineIsRead | kernel/chr_drv/tty_io.c:210-249 | a line typed and ended is read in one call, with its line feed, or without the EOF that ends it |
| TtyLaws.RawIsRead | kernel/chr_drv/tty_io.c:210-249 | in the other mode what there is is read at once, and is enough with VMIN characters |
| TtyLaws.NoLineWaits | kernel/chr_drv/tty_io.c:217-221 | without a complete line a reader waits |
| TtyLaws.TimedReadEnds | kernel/chr_drv/tty_io.c:201-214 | with VTIME alone a reader has an alarm in tenths of a second, and is let go by it with nothing, with its old alarm back and no signal |
| Tty.RoundIs | kernel/chr_drv/tty_io.c:210-249 | a round of tty_read takes what a read takes or nothing, and the call goes on with less than it needs or ends as it should |
| Tty.CallIs | kernel/chr_drv/tty_io.c:191-249 | every call, whatever is typed and whatever signals come between its rounds: it ends for a signal, an EOF, a line or VMIN characters, with -EINTR only if it has none and a signal is left, and restores the alarm unless an EOF ended it |
| Tty.AlarmExample | kernel/chr_drv/tty_io.c:224-225 | a call ended by EOF that leaves the reader an alarm it did not have |
| Tty.Terminal.CopyToCooked | kernel/chr_drv/tty_io.c:106-189 | takes characters until there are no more or secondary is full, each as specified |
| Tty.Terminal.ReadBegins | kernel/chr_drv/tty_io.c:191-209 | the beginning of a call: how many characters will do, and the alarm set for VTIME |
| Tty.Terminal.TtyRead | kernel/chr_drv/tty_io.c:210-249 | one round in place: when it sleeps, what it takes and gives, how it ends, and the alarm, in both modes |
| Pipe.Fifo | fs/pipe.c:15-98 | for every interleaving of readers and writers the bytes taken followed by those in the ring are the bytes put in; each task's account is right; nobody sleeps without reason |
| Pipe.ShortRead | fs/pipe.c:25-26 | a read that returns short has taken all that was written, and an end is closed |
| Pipe.ShortWrite | fs/pipe.c:60-74 | a write that returns short has filled the ring, and an end is closed |
| Pipe.RunEnds | fs/pipe.c:15-100 | a turn ends with all that was wanted, or with the ring empty, or full, and then asleep if both ends are open; all others are awake |
| Pipe.SomeoneRuns | fs/pipe.c:15-100 | while a reader and a writer both have something to do, one of them can |
| Pipe.NotBothAsleep | fs/pipe.c:23-28 | a reader and a writer never both sleep |
| Pipe.OneToOne | fs/pipe.c:15-98 | one reader gets one writer's bytes in order |
| Pipe.PipeInode.ReadPipe | fs/pipe.c:15-52 | chunk by chunk around the ring, the oldest bytes, as many as asked and there; then it returns or sleeps as specified |
| Pipe.PipeInode.WritePipe | fs/pipe.c:56-98 | the same for writing, with at most PAGE_SIZE - 1 bytes in the ring; SIGPIPE exactly when it returns short, and -1 if nothing was written |
| FileTable.CallKeeps | fs/open.c:195-295 | after any calls of any tasks, also between the halves of a call that sleeps, f_count is the number of descriptors and a pipe's i_count the number of its entries in use |
| FileTable.ShareKeeps | fs/fcntl.c:18-34 | one more descriptor for an entry keeps the counts exact |
| FileTable.CloseKeeps | fs/open.c:273-295 | one less does, with iput of the inode at the last |
| FileTable.PipedKeeps | fs/pipe.c:104-161 | a new pipe has one reading and one writing entry and i_count 2 |
| FileTable.ForkedKeeps | kernel/fork.c:133-135 | a child shares exactly its parent's entries |
| FileTable.ExitedKeeps | kernel/exit.c:158-160 | exit closes every descriptor of the task and no other |
| FileTable.EndOfFile | fs/pipe.c:25-26 | for a task that holds the reading end, i_count is not 2 if and only if no task holds the writing end |
| FileTable.Dup2Shares | fs/fcntl.c:36-40 | dup2 of an open descriptor makes the new one share its entry if and only if they are not the same |
| FileTable.Dup2Self | fs/fcntl.c:36-40 | dup2 of a descriptor onto itself closes it |
| FileTableLaws.OpenTakes | fs/open.c:195-220 | open holds the lowest free descriptor and entry, and with none of one changes nothing |
| FileTableLaws.OpenGives | fs/open.c:195-263 | then the descriptor is open, alone, with the mode asked for; without the inode all is as it was |
| FileTableLaws.PipeGives | fs/pipe.c:104-161 | pipe gives the two lowest free descriptors, the lower one for reading, the other for writing |
| FileTableLaws.DupGives | fs/fcntl.c:18-34 | dup gives the lowest free descriptor from the one asked for on, for the same entry |
| FileTableLaws.CloseGives | fs/open.c:273-295 | close gives up the descriptor, and with the last one for a pipe's end that end |
| FileTable.Kernel.SysDup2 | fs/fcntl.c:36-40 | the tables afterwards, and the new descriptor if the old one was open and another, failure otherwise |
| FileTable.Kernel.OpenStart | fs/open.c:195-223 | the first free descriptor and the first free entry are taken, or nothing changes |
| FileTable.Kernel.OpenEnd | fs/open.c:224-263 | the entry is in use, or given back |
| FileTable.Kernel.SysClose | fs/open.c:273-295 | closes an open descriptor, fails for any other |
| FileTable.Kernel.DupFd | fs/fcntl.c:18-34 | the first free descriptor from arg on shares the entry; when it fails |
| FileTable.Kernel.PipeStart | fs/pipe.c:104-139 | two free entries for two free descriptors, or everything as before |
| FileTable.Kernel.PipeEnd | fs/pipe.c:140-161 | the two ends of the new pipe, or everything as before |
| FileTable.Kernel.ForkFiles | kernel/fork.c:133-135 | counting the entries of a copied table one by one shares them |
| FileTable.Kernel.ExitFiles | kernel/exit.c:158-160 | every descriptor of the task is closed |
| ConsoleSpec.BytesKeep | kernel/chr_drv/console.c:422-582 | for every byte stream x <= columns, y < lines, top < bottom <= lines, and every row keeps its length |
| ConsoleSpec.SavesCursor | kernel/chr_drv/console.c:482-483 | ESC 7 saves the cursor if and only if it is in column 55 or saved already |
| ConsoleSpec.RestoresCursor | kernel/chr_drv/console.c:484-485 | ESC 8 restores it if and only if it is in column 56 or there already |
| ConsoleSpec.CursorExample | kernel/chr_drv/console.c:482-485 | a screen on which neither happens |
| ConsoleLaws.TextShows | kernel/chr_drv/console.c:428-449 | lines of text show as on paper that moves up when it is full: the old screen followed by the lines, each typed over what was in its row, and the cursor below them |
| ConsoleLaws.WrapIsNewLine | kernel/chr_drv/console.c:432-443 | beyond the right margin a character goes where it would after a carriage return and a line feed |
| ConsoleLaws.LineFeeds | kernel/chr_drv/console.c:192-210 | a line feed goes down a row, and at the end of the region scrolls its rows up; ESC M is the opposite |
| ConsoleLaws.TabStops | kernel/chr_drv/console.c:457-466 | a tab goes to the next column of eight |
| ConsoleLaws.BackspaceErases | kernel/chr_drv/console.c:218-225 | backspace goes left, the erase character also blanks what was there and nothing else |
| ConsoleLaws.EscapesDo | kernel/chr_drv/console.c:470-486 | ESC E goes to the start of the next row, if there is one; ESC Z asks for an answer |
| ConsoleLaws.SequenceDoes | kernel/chr_drv/console.c:470-502 | ESC [, up to 16 parameters in decimal separated by semicolons, and a letter do what the letter does with those numbers |
| ConsoleLaws.RowMoves | kernel/chr_drv/console.c:509-532 | A, B, E and F move the cursor by that many rows, or leave it where it is if that is off the screen, if and only if the number does not wrap around 32 bits back onto the screen |
| ConsoleLaws.ColumnMoves | kernel/chr_drv/console.c:517-524 | C and D likewise by columns |
| ConsoleLaws.WrapExample | kernel/chr_drv/console.c:513-516 | down by 4294967295 is up by one |
| ConsoleLaws.Addresses | kernel/chr_drv/console.c:505-541 | H, f, G and d go to the row and column named, counted from 1, or leave the cursor where it is |
| ConsoleLaws.SavedIsRestored | kernel/chr_drv/console.c:572-577 | s and u bring the cursor back from anywhere |
| ConsoleLaws.RegionIs | kernel/chr_drv/console.c:563-571 | r sets the region if it is not empty and on the screen |
| ConsoleLaws.DisplayErased | kernel/chr_drv/console.c:227-254 | J blanks just the cells from the cursor on, up to it, or all |
| ConsoleLaws.RowErased | kernel/chr_drv/console.c:256-285 | K blanks just the cells of the row from the cursor on, up to it, or all |
| ConsoleLaws.LinesMove | kernel/chr_drv/console.c:340-419 | L and M, row by row: which come in blank, which move by how much, which stay |
| ConsoleLaws.CharsMove | kernel/chr_drv/console.c:326-409 | @ and P, cell by cell, in the row of the cursor |
| ConsoleLaws.AttributesAre | kernel/chr_drv/console.c:287-299 | the last of the parameters known to m counts |
| Console.FillErases | kernel/chr_drv/console.c:227-285 | filling memory between two addresses erases exactly the cells between them on the screen |
| Console.CopyScrollsUp | kernel/chr_drv/console.c:113-141 | copying rows and blanking the last scrolls the region up |
| Console.CopyScrollsDown | kernel/chr_drv/console.c:144-176 | the same for scrolling down |
| Console.MoveScrollsUp | kernel/chr_drv/console.c:86-111 | moving the window by a row scrolls the whole screen up |
| Console.WrapScrollsUp | kernel/chr_drv/console.c:90-103 | so does copying it back to the start of video memory |
| Console.Console.constructor | kernel/chr_drv/console.c:594-665 | the cursor address is right after con_init if and only if the loader left the cursor on the screen |
| Console.Console.Scrup | kernel/chr_drv/console.c:81-142 | either way of scrolling up is the same on the screen |
| Console.Console.Scrdown | kernel/chr_drv/console.c:144-176 | the region scrolls down |
| Console.Console.InsertChar | kernel/chr_drv/console.c:326-338 | a blank comes in at the cursor, the last cell of the row goes |
| Console.Console.DeleteChar | kernel/chr_drv/console.c:353-366 | the cell at the cursor goes, a blank comes in at the end of the row |
| Console.Console.DoFinal | kernel/chr_drv/console.c:505-580 | each escape sequence does to the screen what is specified |
| Console.Console.Write | kernel/chr_drv/console.c:422-582 | each byte does, the cursor address stays origin + y * row + x, and every write stays in video memory |
| Console.Console.ConWrite | kernel/chr_drv/console.c:422-582 | so does every byte stream |
| Console.FastShowsThePlain | kernel/chr_drv/console.c:81-142 | a console that scrolls by moving the window shows, for every byte stream, what one that copies shows |

## Left out

- Boot code, traps, keyboard, serial and disk controllers, floating-point emulation: assembly or hardware.
- Path names, permissions, mounting, super blocks: mostly error branches.
- Inline assembly is modelled by its meaning, as loops. TLB flushes have no effect in the model.
- Panics are preconditions; where the kernel itself makes the call, they are proved never to happen.
- Paging: the flag bits of a word are fields, the user bit is constant; a frame's contents as a page and as a page table are kept apart; the kernel's own identity map of managed memory is not represented; loading a page from disk (do_no_page after share_page fails) is not modelled, and running out of memory in a fault refuses the operation instead of ending the task.
- PagingProofs.AliasKeeps: kernel memory below LOW_MEM copied when fork copies task 0 has no reference byte and keeps its write bit in the parent, as in the source; for kernel pages EagerProofs.Isolation says only that nothing but stores into kernel memory changes them.
- Block layer: errors of transfers, the tasks waiting in a request, the number of sectors; a device is its queue and the completion step.
- Buffer cache: sleeping and waking is an abstract yield followed by the source's recheck; the order in which sync_dev visits buffers is any order; invalidation after a disk change and block_write's path for full blocks are not modelled; contents of a block are one value.
- File system: access times, modes and dirty flags of inodes; writing bitmaps, inodes and buffers back to disk; free_block's check for a buffer in use (the model has no other holder). Which blocks cannot be read is the same throughout a call, and a block just allocated can be. Files beyond the last double indirect block are excluded as the source panics there.
- Malloc: the descriptors themselves live in a table here, not in pages of their own; the asked size and the page from get_free_page are parameters.
- Scheduler: alarms, signals and state changes of other tasks are steps with any values; the time accounting fields are left out.
- Scheduler.GetsTheProcessor: runs with fork are excluded, since each child brings a new counter.
- Timers: what a handler does when called is not part of the list; a handler that adds a timer is an insertion after the tick.
- Exec: reading the executable, finding the interpreter's name in the script's first line, and the fs register that says where strings come from; the bytes of a string are given.
- Tty: echoing; the number of the terminal.
- FileTable: descriptors closed by exec, close-on-exec bits, file positions and flags; inodes that are not pipes have no count here.
- Console: addresses count cells of 16 bits from the start of video memory; the beeper, the cursor and origin registers, the text of the terminal's answer and the adapter's name that con_init shows are left out; the number of columns is at least 8 and even, as on every display the source sets up.
