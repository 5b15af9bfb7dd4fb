# A verified model of the Linux 0.11 kernel's core data structures

Dafny models of the kernel's memory, disk, scheduling and character code, each proved against a
specification that does not mention its loops and pointers. A `class` stands for each group of
variables that the C code changes in place; its methods follow the C functions statement by
statement (a pointer to an array element is its index, -1 or 0 is the null pointer). Each method is
proved equal to a function on a ghost snapshot of the state, and the properties are proved about
those functions, for every state that satisfies the invariant and over every run.

| modules | code | main results |
|---|---|---|
| `PageState`, `PageSteps`, `PageTheorems`, `PageSpecs`, `PageCounts`, `PageNext`, `PageImage`, `PageKernel`, `PageLaws`, `PageRuns` | `mm/memory.c`, `kernel/fork.c`, `kernel/exit.c`, `fs/exec.c` | reference counts are exact and fit a byte; a writable entry is the only reference to its frame; memory runs out exactly when too few frames are free; every run is that of a function on whole states, and refines a machine in which tasks own their pages; a task's pages change only by its own operations, but for kernel stores to exposed pages, for which the exact condition and a run that meets it are given |
| `VolumeState`, `VolumeSteps`, `VolumeTree`, `VolumeNext`, `VolumeKernel`, `VolumeFiles`, `VolumeFormat` | `fs/inode.c`, `fs/bitmap.c`, `fs/truncate.c`, `fs/file_dev.c` | all zones of all files are apart, the bitmap marks exactly them and the lost ones, and the exact condition for losing none; reads, writes and truncations act as on growable byte arrays |
| `BufferQueues`, `BufferCache` | `fs/buffer.c` | one buffer for a block; a buffer in use stays the same block; only unused, unlocked and clean buffers get a new one; unwritten data are never just lost; when getblk need not wait: all for any interleaving at the points where a task sleeps, in a history of which every state follows from the one before; free ring and hash chains stay exact |
| `MallocState`, `MallocSteps`, `MallocKernel`, `MallocRuns` | `lib/malloc.c` | live objects never overlap, keep their contents, and a page goes back exactly with its last object; of a run, every heap between two calls, and an early end exactly at a refused call |
| `SchedState`, `SchedSteps`, `SchedEffects`, `SchedTheorems`, `SchedKernel` | `kernel/sched.c` | what schedule does to every task; no sleeper is lost and one wake_up reaches all; a ready task with time left waits a bounded number of ticks |
| `TimerList` | `kernel/sched.c` | no timer is called before its time, at most one in a tick; the exact tick of every call in a run, and on time exactly if no timer was put in before it |
| `ElevatorOrder`, `Elevator`, `ElevatorSteps`, `ElevatorEffects`, `ElevatorTheorems`, `ElevatorKernel` | `kernel/blk_drv` | when a request is made, when its caller waits, and how it ends; the queue turns back at most once; a queued request is served before the elevator has turned back twice, in every run of the code |
| `ExecImage`, `ExecTables`, `Exec` | `fs/exec.c` | argument strings survive pages, placement and tables; a program is started exactly if the strings fit and there are frames for their pages |
| `TtyQueue`, `LineEditor`, `TtyReading`, `Tty` | `kernel/chr_drv/tty_io.c` | the rings hold what a pure line editor holds; a read returns what this reader was given, with several readers that may overtake each other; exact condition under which a read tears the line being typed |
| `Pipe` | `fs/pipe.c` | first in, first out, for any interleaving of the chunks of any readers and writers, also when a woken one is overtaken |
| `Sequences` | | sequences without repetition, which all queues, rings and chains are |
| `NumberPrinter` | `kernel/vsprintf.c` | what is printed reads back, for all 32-bit values |

Where a process sleeps, everybody else may act. In the buffer cache, the pipe and the terminal those
acts are an arbitrary script that the sleeping call consumes, any number of them before it runs again;
a script that runs out stands for a call that sleeps forever, or is ended by a signal. In the scheduler sleeping is itself part of the
model: a task inside `sleep_on` goes on when it is dispatched again.

The code is followed where it differs from what one would expect:

- `add_timer` does not shorten the wait of the entry behind a new timer, so later timers come late
  (never early), and two timers for the same tick are called in different ticks; `TimerList.CalledWhen`
  says how late, `TimerList.OnTime` exactly when not, and `TimerList.LateExample` is a case.
- The kernel's own stores into user memory ignore the write flag (boot/head.s:44-49 leaves the bit that
  would change that clear), and `write_verify` does nothing at an absent page (mm/memory.c:262-273). So a
  store that faults a page in from another task writes that task's page too, and so does a store to a
  page that another task took after it was verified. `PageRuns.StepConfined` says exactly when that
  happens, `PageKernel.ExposedAfterVerify` what it means directly after `write_verify`, and
  `PageRuns.LeakExample` is a run from boot in which it happens.
- `free_block` leaves a zone marked if its buffer has other users (fs/bitmap.c:57-61). Truncation has
  dropped the zone then, and nobody frees it again; `VolumeTree.TruncateFreesAll` and
  `VolumeFiles.NothingLost` give the condition, `VolumeNext.LostExample` a case.
- A write that reaches the end of the largest file is done up to there, and then the code panics in `_bmap`
  (fs/inode.c:79-80); `VolumeFiles.FileWrite` says exactly when.
- `verify_area` does not look at the task's limit (kernel/fork.c:24-37): an area that runs past the task's
  64 MB goes on in the next task's pages, as `PageKernel.Memory.VerifyArea` says.
- `tty_read` does not stop at a line end, so a read can take part of the line that is being typed;
  `LineEditor.TornLine` gives the condition, `LineEditor.TornExample` an input. Nor does a reader
  own the line it was woken for; `TtyReading.OvertakenExample` is a line split between two readers.
- A script executed with an empty argument list gets an argument count that is one too small;
  `Exec.CountRight` gives the condition, `Exec.CountExample` what becomes of the strings.
- The test in `copy_strings` for strings that do not fit never fails (fs/exec.c:134 compares an unsigned
  value with zero); `ExecImage.ArgPages.CopyStrings` says exactly when the copy leaves the argument pages,
  `ExecImage.TooLongExample` is a case.
- `un_wp_page` installs a copied page without its dirty bit (mm/memory.c:236); nothing is claimed
  about clean pages being those of the executable.
- `read_pipe` and `write_pipe` keep one byte of the page free, so at most 4095 bytes are buffered.
- The counter check of `free_page` and the range check after the bit is set in `new_block` are shown
  never to fail from valid states; the latter because the padding bits of the bitmap are set.

## Model

| member | source | states |
|---|---|---|
| `PageTheorems.CounterCountsReferences` | mm/memory.c:90-100 | In every valid state a frame's counter is the number of present user entries naming it, plus one if it is a page table, plus the kernel's uses; for all but reserved frames it is at most 63. |
| `PageTheorems.RefsAtOnePlace` | mm/memory.c:293-335 | All entries that name a frame stand at the same task-relative address, one per sharing task. |
| `PageTheorems.WritableIsPrivate` | mm/memory.c:222-239 | A writable user entry is the only reference to its frame in any task, and the frame is no page table. |
| `PageTheorems.CountersDetermined` | mm/memory.c:106-132 | Two states that map the same pages, with nothing left in one task, have equal counters in every frame. |
| `PageSteps.Share` | mm/memory.c:174-185 | Adding a read-only reference to a frame another entry names read-only keeps the invariant, cannot overflow the counter, and changes the view at that one place only. |
| `PageSteps.Unmap` | mm/memory.c:122-127 | Dropping one entry keeps the invariant; the counter was at least one; no other place's view changes. |
| `PageSteps.MapNew` | mm/memory.c:198-220 | A frame held by the kernel becomes one entry's page; every other view is unchanged. |
| `PageSteps.Protect` | mm/memory.c:178-183 | Clearing a write flag changes nobody's view. |
| `PageSteps.Grant` | mm/memory.c:226-231 | Setting the write flag of the only reference changes nobody's view. |
| `PageSteps.StoreWord` | mm/memory.c:222-239 | A word stored through a writable entry is seen through that entry and through no other. |
| `PageSteps.SharedIsReadOnly` | mm/memory.c:318-330 | Two entries with one frame are both read-only and stand at the same task-relative place. |
| `PageSpecs.CopyPrivatizes` | mm/memory.c:232-238 | Copy on write leaves all views as they were and makes the entry the writable, only reference. |
| `PageSpecs.GrantPrivatizes` | mm/memory.c:226-231 | So does setting the flag in place, when the counter is one. |
| `PageSpecs.CopiedAll` | mm/memory.c:174-185 | After n turns of the copying loop the copies show the parent's pages, and all other entries are as before. |
| `PageSpecs.ReleasedAll` | mm/memory.c:122-127 | After n turns of the freeing loop those entries are gone, and no other changed. |
| `PageSpecs.UndoneCopy` | kernel/fork.c:56-59 | A copy that is taken back, complete or not, restores every counter and every view. |
| `PageKernel.Memory.constructor` | mm/memory.c:403-415 | After boot the invariant holds, with the frames above the kernel free. |
| `PageKernel.DirCountIs` | mm/memory.c:115-115 | The number of page tables for a size is the least that covers it. |
| `PageKernel.PlaceIs` | mm/memory.c:206-216 | A page table entry stands for just the 4096 addresses of its page. |
| `PageKernel.Memory.GetFreePage` | mm/memory.c:63-84 | Takes the last free frame, zeroed; 0 exactly if no frame is free; no view changes. |
| `PageKernel.Memory.FreePage` | mm/memory.c:90-100 | One reference less, frames of low memory aside; the panics are unreachable under the precondition. |
| `PageKernel.Memory.FreePageTables` | mm/memory.c:106-132 | Below the given size the task sees nothing any more, whatever the address; from that, rounded up to 4 MB, on, and for all other tasks, all mappings and views stay, and no frame is taken. |
| `PageKernel.Memory.CopyPageTables` | mm/memory.c:151-190 | At every address below the size the child sees what the parent sees, and from that, rounded up to 4 MB, on nothing changes, for one frame for each of the parent's page tables there; -1 exactly if fewer are free, and then a prefix was copied. |
| `PageKernel.Memory.PutPage` | mm/memory.c:198-220 | The frame is mapped at the address, writable and clean; or 0, exactly if the page table is missing and no frame is free for it, and nothing changed. |
| `PageKernel.Memory.UnWpPage` | mm/memory.c:222-239 | The entry becomes writable and private without a change of any view; it fails exactly if the page needs a copy and no frame is free, and nothing changed. |
| `PageKernel.Memory.WriteVerify` | mm/memory.c:262-273 | A present read-only page becomes writable and private; an absent one is left alone; failure exactly if a copy is needed and no frame is free. |
| `PageKernel.Memory.VerifyArea` | kernel/fork.c:24-37 | Every page of the linear address space that the bytes touch is treated so, also beyond the task's own 64 MB, and no other page; failure exactly at the first for which there is no frame. |
| `PageKernel.Memory.UserStore` | mm/memory.c:248-260 | A store faults exactly where nothing is mapped, runs out of memory exactly if it needs a copy and no frame is free, and otherwise changes that word in the storing task's view only. |
| `PageKernel.Memory.GetEmptyPage` | mm/memory.c:275-283 | A zero page appears at the address; out of memory exactly if fewer frames are free than the page and its table need, and then no frame is lost. |
| `PageKernel.Memory.TryToShare` | mm/memory.c:293-335 | 1 exactly if the other task has the page, clean, in memory, and there is room for the page table: then both show it read-only; otherwise nothing changed. |
| `PageKernel.Memory.SharePage` | mm/memory.c:345-364 | The page comes from the last task with the same executable that has it clean; 0 exactly if there is none, or the inode has one user. |
| `PageKernel.Memory.DoNoPage` | mm/memory.c:366-401 | A first touch shows the sharing task's page, the executable's, or zeros, in exactly these cases, at that place only; out of memory exactly if too few frames are free, and then nothing is lost. |
| `PageKernel.FreshBytes` | mm/memory.c:366-398 | A page that is not shared begins with the executable's bytes at addresses below end_data, and zeros at all others. |
| `PageImage.TrimmedBytes` | mm/memory.c:392-397 | Clearing from the top leaves the first bytes of the page and zeros behind them, also within a word. |
| `PageLaws.SharedExactly` | mm/memory.c:345-364 | The page is taken from the last other task with the same executable that has it present, clean and not the kernel's, and only if the page is one of the executable and that has two users. |
| `PageKernel.Memory.CopyMem` | kernel/fork.c:39-61 | The child sees at every address below the data limit what the parent sees there; it fails exactly if fewer frames are free than the parent has page tables there, and restores all counters and views. |
| `PageKernel.Memory.CopyProcess` | kernel/fork.c:68-134 | Fork with the page for the task structure, whose executable is the parent's: the child sees the parent's pages at every address below the limit, or nothing happens; it fails exactly if fewer frames are free than 1 plus the parent's page tables there. |
| `PageKernel.Memory.DoExit` | kernel/exit.c:102-123 | The task sees nothing below either limit, all its tables there go back, nobody else's view and nothing beyond the limits changes, and the executable is let go. |
| `PageKernel.Memory.DoExec` | fs/exec.c:325-335 | The task has the new executable and sees nothing below either limit; nobody else's view changes. |
| `PageKernel.Memory.RawStore` | boot/head.s:44-49 | What the processor does for an allowed store, the dirty flag included; in supervisor mode the write flag is not looked at. |
| `PageKernel.Memory.KernelStore` | include/asm/segment.h:25-28 | put_fs_byte: a fault at an absent page, then the store; the word changes at its own place and wherever else the frame is seen; out of memory exactly as the fault is. |
| `PageKernel.RawStoredKeeps` | boot/head.s:44-49 | An unchecked store keeps the invariant, and is seen at every place that shows the frame, and nowhere else. |
| `PageKernel.StoredIs` | mm/memory.c:222-239 | Through a writable entry, at its own place only. |
| `PageKernel.OthersSee` | mm/memory.c:222-239 | A page's counter is above one exactly if another task sees the page. |
| `PageKernel.KernelStoreConfined` | fs/file_dev.c:31-41 | A kernel store changes its own task's view only, if and only if no other task has the page or will give it, or the word was there already. |
| `PageKernel.ExposedAfterVerify` | mm/memory.c:262-273 | Directly after write_verify that means: the page is absent, before end_data, of an executable in use twice, and another task that runs it has it clean in memory. |
| `PageKernel.SharedThenExposed` | mm/memory.c:293-335 | A page that another task took is exposed, verified or not. |
| `PageCounts.CopiedFree` | mm/memory.c:174-185 | Copying the entries of a table takes no frame. |
| `PageCounts.ReleasedFree` | mm/memory.c:122-127 | Letting entries go takes none either. |
| `PageCounts.LastSharer` | mm/memory.c:353-362 | The task that share_page settles on: the last one that can share. |
| `PageNext.LastZeroIs` | mm/memory.c:63-84 | get_free_page settles on the last frame whose counter is zero. |
| `PageNext.LastZeroNone` | mm/memory.c:63-84 | It finds none exactly if no frame is free. |
| `PageNext.TriedNoMore` | mm/memory.c:164-187 | Once a page table cannot be had, no later turn of copy_page_tables changes anything. |
| `PageRuns.Isolation` | mm/memory.c:151-364 | Over any run, while others act and none of their kernel stores is exposed, no page of a task changes. |
| `PageRuns.StepConfined` | fs/read_write.c:64-64 | Every operation leaves all other tasks' pages as they are, unless it is a kernel store to an exposed page that changes the word: exactly then one of them changes. |
| `PageRuns.SpacesInRun` | mm/memory.c:63-401 | The views at the end of a run are those of the simple machine after the same events. |
| `PageRuns.WorldsInRun` | mm/memory.c:63-401 | The state between any two operations is a function of the first state and the operations: no frame, counter, table or flag is left open. |
| `PageRuns.Execute` | mm/memory.c:63-401 | Every run of fork, exec, exit, touches, stores, verifications and kernel stores: each operation makes of the whole state, with its counters, tables and flags, what `RunOf` prescribes, has the one effect that its guards prescribe in that state (nothing, exactly if the slot is taken, the page is there or not there, or frames are missing), and the views are the simple machine's. |
| `PageRuns.DoFork` | kernel/fork.c:68-134 | Fork happens exactly if the slot is open and enough frames are free; then the child sees the parent's pages at every address below the limit. |
| `PageRuns.LeakStep` | mm/memory.c:345-364 | A kernel store to an absent page that a twin task has clean changes the twin's page. |
| `PageRuns.LeakExample` | fs/file_dev.c:17-46 | A run of five operations from boot in which that happens. |
| `VolumeSteps.LinkedPtr` | fs/inode.c:81-137 | Linking a zone changes the mapping at that place only, at any depth of indirection. |
| `VolumeSteps.LinkedOwned` | fs/inode.c:81-137 | Linking a fresh zone keeps all zones apart and the bitmap exact. |
| `VolumeSteps.LinkedBytes` | fs/bitmap.c:96-104 | A fresh zone reads as zeros: no byte of any file changes. |
| `VolumeSteps.WrittenBytes` | fs/file_dev.c:66-82 | Changing one data block changes the bytes of that block of that file only. |
| `VolumeTree.BitmapExact` | fs/bitmap.c:47-105 | A zone is marked exactly if some place of some file refers to it, and then only one does, or if it was lost. |
| `VolumeTree.TruncateFreesTree` | fs/truncate.c:47-64 | The zones that truncate frees are those the file owns, each once. |
| `VolumeTree.FileZonesExact` | fs/truncate.c:53-61 | The same for the first n of the nine roots. |
| `VolumeTree.ZonesMembers` | fs/truncate.c:11-45 | A zone is freed under an index block exactly if it is owned from below that place. |
| `VolumeTree.ZonesDistinct` | fs/truncate.c:11-45 | No zone is freed twice. |
| `VolumeTree.TruncatedOwned` | fs/truncate.c:47-64 | Truncation keeps all zones apart and the bitmap exact, whatever buffers are busy. |
| `VolumeTree.TruncateFreesAll` | fs/bitmap.c:57-61 | Truncation gives back the whole tree if and only if nobody else uses the buffer of one of its zones. |
| `VolumeTree.TruncatedLost` | fs/bitmap.c:57-61 | The zones lost are exactly those. |
| `VolumeTree.TruncatedBytes` | fs/truncate.c:47-64 | The file reads as zeros, and no byte of another file changes. |
| `VolumeNext.LostExample` | fs/bitmap.c:57-61 | A file of one block whose buffer somebody uses: truncation takes the block from the file, it stays marked, and no file has it. |
| `VolumeNext.LowestIs` | fs/bitmap.c:82-89 | The zone that new_block takes is the lowest free one. |
| `VolumeNext.MadeWayOk` | fs/inode.c:81-137 | Making what is missing on the way to a block keeps the invariant, changes no byte, no size and no mapping off the way; without a block at the end of it the volume is full. |
| `VolumeKernel.FoundBit` | fs/bitmap.c:80-95 | The first clear bit is the lowest free zone and lies on the volume. |
| `VolumeKernel.Volume.constructor` | fs/bitmap.c:75-105 | A volume with nothing allocated satisfies the invariant. |
| `VolumeKernel.Volume.FindFirstZero` | fs/bitmap.c:31-45 | The first clear bit of a bitmap block, by 32-bit words; 8192 if there is none. |
| `VolumeKernel.Volume.FindFreeBit` | fs/bitmap.c:82-89 | The first clear bit of the whole bitmap. |
| `VolumeKernel.Volume.NewBlock` | fs/bitmap.c:75-105 | Takes the lowest free zone and zeroes it; 0 exactly when the volume is full, and then nothing changed. |
| `VolumeKernel.Volume.FreeBlock` | fs/bitmap.c:47-73 | Clears exactly the zone's bit, or none if its buffer is in use. |
| `VolumeKernel.Volume.Bmap` | fs/inode.c:72-138 | Returns the zone at the block's place and, with create, makes it and what is missing on the way, as `MadeWay` prescribes for the whole volume; without create nothing changes. |
| `VolumeKernel.Volume.FreeInd` | fs/truncate.c:11-27 | Clears exactly the bits of the zones under a single index block, and its own, but for busy ones. |
| `VolumeKernel.Volume.FreeDind` | fs/truncate.c:29-45 | The same for a double index block. |
| `VolumeKernel.Volume.Truncate` | fs/truncate.c:47-64 | The file is empty and its tree free, but for zones that are busy; devices and pipes are left alone. |
| `VolumeFiles.WriteBlock` | fs/file_dev.c:63-83 | One turn of the writing loop: the way to the block is made as prescribed and exactly those bytes are changed; or nothing changed in any file, and the volume is full and the file has no block there. |
| `VolumeFiles.FileWrite` | fs/file_dev.c:48-90 | The file's contents become the old ones overwritten by the first n bytes, holes as zeros; other files are unchanged; n is short only on a full volume, where the file has no block, or at the end of the largest file, where the code panics; the whole volume is the one that the specified loop makes. |
| `VolumeFiles.TurnKeeps` | fs/file_dev.c:61-85 | A turn of the specified loop keeps the invariant and the promise that just the first bytes are changed, and it makes progress unless the volume is full. |
| `VolumeFiles.WritingIs` | fs/file_dev.c:61-85 | The specified loop changes just its first bytes and stops with all written, on a full volume, or at the largest size. |
| `VolumeFiles.FileRead` | fs/file_dev.c:17-46 | The bytes at the position, zeros from holes; nothing changes. |
| `VolumeFiles.SysRead` | fs/read_write.c:72-77 | A read gives as many bytes as were asked for and the file has from there on, and just the file's bytes at those positions. |
| `VolumeFiles.OverwriteIs` | fs/file_dev.c:57-84 | The bytes of an overwritten file: the new ones, the old ones around them, zeros in a gap. |
| `VolumeFormat.LayoutIs` | fs/inode.c:80-135 | Where the zone number of a file's block stands: in the inode, in its index block, or below its double one. |
| `VolumeFormat.FormatIs` | fs/bitmap.c:93-93 | Zone numbers are little-endian; the second bit of the bitmap is the first data zone's. |
| `VolumeFiles.WrittenKeeps` | fs/file_dev.c:66-82 | A block write keeps the volume's invariant and is the write of those bytes. |
| `VolumeFiles.WroteContents` | fs/file_dev.c:48-90 | In terms of whole files a write is an overwrite of one byte sequence. |
| `VolumeFiles.TruncatedContents` | fs/truncate.c:47-64 | Truncation empties one file and leaves all others. |
| `VolumeFiles.FilesInRun` | fs/file_dev.c:17-90 | Over any run the zones of all files stay apart and the bitmap exact, and the files are the growable byte arrays after the same events. |
| `VolumeFiles.NextOk` | fs/file_dev.c:17-90 | Each operation keeps the invariant, does to the files what a growable byte array does, and loses exactly the busy zones of a truncated file. |
| `VolumeFiles.NothingLost` | fs/bitmap.c:57-61 | A run loses no zone if and only if none of its truncations meets a busy one. |
| `VolumeFiles.Execute` | fs/file_dev.c:17-90 | Any run of writes, reads and truncations leaves the volume, its bitmap and mappings included, that the operations prescribe one after the other; the files are growable byte arrays after the same events, and every reader gets the bytes that are there. Every answer of a read has just the bytes that the file has there at that moment, as many as were asked for or there are. |
| `BufferQueues.LeaveRing` | fs/buffer.c:143-149 | Unlinking a buffer leaves one circular doubly linked list of the others. |
| `BufferQueues.JoinRing` | fs/buffer.c:154-158 | Linking it at the end gives such a list with it last. |
| `BufferQueues.LeaveChains` | fs/buffer.c:136-142 | Unlinking from the hash chains removes it from its own and no other. |
| `BufferQueues.JoinChains` | fs/buffer.c:159-166 | Linking puts it in front of the chain of its hash. |
| `BufferCache.NextFine` | fs/buffer.c:186-264 | Every step, of whomever, keeps one buffer for a block, locks that say why they are there, and write requests for dirty buffers only. |
| `BufferCache.OthersKeep` | fs/buffer.c:186-254 | Over any number of steps of others, a buffer to which this task has a reference keeps its block and the reference, and so does its lock while it waits for a request slot. |
| `BufferCache.UsedStaysSame` | fs/buffer.c:186-254 | As long as a buffer has users it is the same block, over any number of steps. |
| `BufferCache.ReusedClean` | fs/buffer.c:209-254 | A buffer that has another block later was unused, unlocked and clean, and that block not cached, when somebody claimed it. |
| `BufferCache.NothingLost` | fs/buffer.c:209-254 | A dirty buffer that is clean later, or another block, was written in between, or given up by free_block, by invalidate_buffers, or by a read of data that were not up to date, while it still was that block. |
| `BufferCache.OpenedAtEnd` | kernel/blk_drv/blk.h:101-124 | A locked buffer that is unlocked later was unlocked by the end of its request, which is not this task's step, or, while it had none, by giving up a read ahead. |
| `BufferCache.RenameKeeps` | fs/buffer.c:246-253 | A buffer that is in no queue can change its identity without breaking ring or chains. |
| `BufferCache.Cache.constructor` | fs/buffer.c:374-407 | All buffers free and unused, in one ring. |
| `BufferCache.Cache.RemoveFromQueues` | fs/buffer.c:134-150 | The buffer leaves both structures, which stay well linked. |
| `BufferCache.Cache.InsertIntoQueues` | fs/buffer.c:152-167 | It enters both, at the end of the free list. |
| `BufferCache.Cache.FindBuffer` | fs/buffer.c:169-177 | Finds the buffer of a block if and only if there is one. |
| `BufferCache.Cache.WaitOnBuffer` | fs/buffer.c:39-45 | Afterwards the buffer is unlocked, or the others have nothing more to do and it is still locked; without a lock nothing happens at all, and meanwhile this task does nothing. |
| `BufferCache.Cache.GetHashTable` | fs/buffer.c:186-199 | A cached buffer, unlocked and in use by the caller, whose count the call raised by one in its first step; its identity cannot have changed during the wait; none exactly if the block is not cached, and then nothing changed; still asleep only with that buffer locked. |
| `BufferCache.Cache.StartWriting` | kernel/blk_drv/ll_rw_blk.c:105-142 | The buffer is locked and stays dirty and the same block while the task sleeps for a free request slot; with a slot it is clean, queued, and still locked. |
| `BufferCache.Cache.SyncDev` | fs/buffer.c:62-85 | This task's only steps are requests for slots and writes into them; of every buffer there was a moment in the call at which it held no unwritten data of the device. |
| `BufferCache.Cache.WriteDirty` | fs/buffer.c:67-73 | The same for one of its two loops. |
| `BufferCache.Cache.LeastBad` | fs/buffer.c:216-226 | An unused buffer of least badness; none only if all are used. |
| `BufferCache.BadnessIs` | fs/buffer.c:208-208 | A dirty buffer is worse than any clean one, and of two like ones the locked one is worse. |
| `BufferCache.FinishedIs` | kernel/blk_drv/blk.h:109-114 | The end of a request unlocks the buffer and says whether its data are up to date; the dirty flag stays. |
| `BufferCache.Cache.ClaimBuffer` | fs/buffer.c:246-253 | The buffer has the new block, one user, and clear flags, and but for links no other buffer changed. |
| `BufferCache.Cache.TryClaim` | fs/buffer.c:212-254 | A pass of getblk's loop claims an unused, unlocked, clean buffer for a block that was not cached, or starts over after a wait, or still waits; it need not wait exactly if there is a spare buffer. |
| `BufferCache.Cache.Getblk` | fs/buffer.c:209-254 | The result is the one buffer of that block, unlocked, with the caller as a user since one step of the call: then the buffer was cached, or it was unused, unlocked and clean and the block not cached. All other steps of this task write buffers. It goes on without a wait if and only if the block is cached in an unlocked buffer, or is not cached and there is a spare one; it still waits at the end only for that lock, or because at some moment there was no spare buffer. |
| `BufferCache.Cache.Brelse` | fs/buffer.c:256-264 | After the wait for the lock exactly one user less, of the same block, and nothing else in that step; a panic only for a buffer that is not the caller's. |
| `MallocState.SizesAre` | lib/malloc.c:77-88 | The buckets are for 16, 32 and so on up to 4096 bytes. |
| `MallocState.LiveOnce` | lib/malloc.c:188-201 | A live object belongs to one bucket descriptor. |
| `MallocState.LiveApart` | lib/malloc.c:97-173 | Two live objects do not overlap, within a page or across pages. |
| `MallocSteps.UserStore` | lib/malloc.c:159-164 | Stores inside live objects never damage a free list. |
| `MallocSteps.PopKeeps` | lib/malloc.c:168-172 | The object handed out was not live, and exactly it becomes live. |
| `MallocSteps.PushKeeps` | lib/malloc.c:205-207 | The freed object, and no other, stops being live; the free list stays well linked. |
| `MallocSteps.AttachKeeps` | lib/malloc.c:152-166 | A new bucket page, threaded as one free list of all its slots, makes nothing live. |
| `MallocSteps.DetachKeeps` | lib/malloc.c:213-228 | Unlinking a wholly free page moves its descriptor to the spare list and loses no object. |
| `MallocSteps.MoreKeeps` | lib/malloc.c:97-115 | A page of new descriptors extends the spare list and changes nothing else. |
| `MallocSteps.RefcntCounts` | lib/malloc.c:170-170 | refcnt is the number of live objects of the page: slots minus the length of the free list. |
| `MallocKernel.OnlyObject` | lib/malloc.c:208-208 | refcnt 1 means exactly that the object is the last one of its page. |
| `MallocKernel.BeforeIs` | lib/malloc.c:209-217 | The check before unlinking accepts a predecessor, however old, only if it is the right one. |
| `MallocKernel.Allocator.constructor` | lib/malloc.c:77-92 | Nothing is live at first. |
| `MallocKernel.Allocator.InitBucketDesc` | lib/malloc.c:97-115 | One page becomes 256 linked spare descriptors; it fails only without pages. |
| `MallocKernel.Allocator.Thread` | lib/malloc.c:159-164 | The slots of the page are linked in order, and nothing outside is stored to. |
| `MallocKernel.Allocator.Malloc` | lib/malloc.c:117-173 | A new object of the right bucket, all others and their contents kept; exactly the pages for the object and its descriptor are taken, none while the bucket has a free slot; refused exactly above 4096 bytes, or if the bucket has no free slot and the pages for one are missing. |
| `MallocKernel.Allocator.FindDesc` | lib/malloc.c:188-202 | Finds the descriptor of the object's page, with or without a size hint; none only if there is none. |
| `MallocKernel.Allocator.FreeS` | lib/malloc.c:182-231 | The object is gone, all others and their contents stay, and the page goes back exactly if it was its last object; the panic comes exactly if no bucket page that fits the size hint holds the address. |
| `MallocKernel.Allocator.Release` | lib/malloc.c:204-229 | The same from any earlier predecessor, correct or out of date. |
| `MallocKernel.Allocator.Before` | lib/malloc.c:215-217 | The search finds the predecessor in the chain. |
| `MallocRuns.NoOverlap` | lib/malloc.c:117-173 | Any two objects that callers hold are apart by at least the lengths asked for. |
| `MallocRuns.DoCall` | lib/malloc.c:117-231 | One call changes the heap and the ledger of objects, lengths and words as the call and its answer say: which objects live, which pages are taken or given back, and all other words; it ends the run exactly if malloc refuses or a caller frees what it does not hold. |
| `MallocRuns.Execute` | lib/malloc.c:97-231 | Over any run of malloc, free_s and owners' stores, every heap follows from the one before, from the allocator's own first heap on; the ledger is that of the calls and their answers: objects have the lengths asked for and are apart, each word stored in one is still there; no heap before the last ends the run, and the last does exactly if the run is short. |
| `SchedSteps.ScanBest` | kernel/sched.c:126-135 | The scan finds the largest counter among ready tasks, the highest task number among equals. |
| `SchedSteps.NoticedSpec` | kernel/sched.c:112-121 | Expired alarms become signals, and no interruptible task is left asleep with an open signal. |
| `SchedSteps.OneRefresh` | kernel/sched.c:125-141 | After one refresh the scan finds a positive counter, or no ready task: the loop ends. |
| `SchedSteps.Chosen` | kernel/sched.c:105-143 | schedule dispatches a ready task of largest counter, task 0 only if none is ready, and refreshes exactly when all ready tasks have used up their time. |
| `SchedEffects.ScheduledRight` | kernel/sched.c:105-143 | schedule, for every present task but task 0: an alarm that is over is cleared and SIGALRM sent, an interruptible sleep ends exactly if there is a signal that is not kept out, the counter becomes half of it plus the priority exactly if every ready task had used up its own, and nothing else changes; the ready task with the largest counter is next. |
| `SchedEffects.NoticedRight` | kernel/sched.c:112-121 | The alarm and signal part of that for one task. |
| `SchedSteps.SleeperState` | kernel/sched.c:152-166 | A task inside sleep_on is asleep uninterruptibly, or woken and at the head of its chain. |
| `SchedSteps.SleptKeeps` | kernel/sched.c:160-162 | Going to sleep puts the task in front of its channel's chain, all others stay where they are. |
| `SchedSteps.ReturnedKeeps` | kernel/sched.c:163-166 | Coming back wakes the next sleeper, which becomes the head of the rest of the chain. |
| `SchedSteps.WokenKeeps` | kernel/sched.c:189-195 | wake_up detaches the whole chain behind its woken head. |
| `SchedSteps.NextKeeps` | kernel/sched.c:105-195 | Every step keeps all invariants. |
| `SchedTheorems.NoLostSleeper` | kernel/sched.c:152-166 | Every sleeper is reached over saved tmp links from a channel head or from a woken task still in sleep_on. |
| `SchedTheorems.OneOrigin` | kernel/sched.c:152-166 | From exactly one of them, at one distance. |
| `SchedTheorems.WakeUpStarts` | kernel/sched.c:189-195 | After wake_up each sleeper of the channel is due, behind as many others as before. |
| `SchedTheorems.DueStays` | kernel/sched.c:152-195 | Only the return of the woken task in front moves a due sleeper, one place ahead. |
| `SchedTheorems.WokenInTurn` | kernel/sched.c:152-195 | Over any run, after as many such returns as sleepers stood before it, a due sleeper is awake. |
| `SchedTheorems.WaitingStep` | kernel/sched.c:306-339 | While a ready task with time left waits, no step refreshes counters, and each user tick uses up the potential. |
| `SchedTheorems.WaitingRun` | kernel/sched.c:306-339 | The same over any run. |
| `SchedTheorems.BoundedWaiting` | kernel/sched.c:125-142 | It is dispatched before the user programs have used as many ticks as all counters together, plus those of tasks forked meanwhile. |
| `SchedKernel.Kernel.constructor` | kernel/sched.c:58-66 | Only task 0, and nobody waits. |
| `SchedKernel.Kernel.Notice` | kernel/sched.c:112-121 | The alarm and signal loop treats every present task but task 0, and no other. |
| `SchedKernel.Kernel.Choose` | kernel/sched.c:126-135 | The inner loop computes the choice of the scan. |
| `SchedKernel.Kernel.Schedule` | kernel/sched.c:105-143 | schedule changes the task table, and chooses, just as `SchedEffects.ScheduledAs` says of any table; it is the function about which waiting is proved. |
| `SchedKernel.Kernel.SleepOn` | kernel/sched.c:152-163 | The task is the head of the channel, its predecessor is remembered, it sleeps uninterruptibly, and schedule does the rest; that is a step of the machine. |
| `SchedKernel.Kernel.Resume` | kernel/sched.c:164-166 | The remembered task is made ready, and no other is touched; so is this. |
| `SchedKernel.Kernel.WakeUp` | kernel/sched.c:189-195 | The head of the channel is made ready, and the channel is empty; so is this. |
| `SchedKernel.Kernel.Tick` | kernel/sched.c:335-338 | The running task has one tick less, down to zero, and nobody else; schedule is called exactly in a user program that used up its time. |
| `SchedKernel.Kernel.Fork` | kernel/fork.c:82-88 | The child has a full counter, no signals and no alarm, and can run; no other task changes. |
| `SchedKernel.Kernel.Release` | kernel/exit.c:25-31 | The slot is empty, and schedule is called. |
| `SchedKernel.Kernel.Execute` | kernel/sched.c:105-195 | Any run of the kernel is the run of the machine. |
| `TimerList.InsertSpec` | kernel/sched.c:288-301 | The new timer waits exactly as asked; earlier timers are unchanged, later ones wait no less. |
| `TimerList.InsertNotEarly` | kernel/sched.c:273-304 | An insertion makes no timer early, and deltas stay positive. |
| `TimerList.TickNotEarly` | kernel/sched.c:322-327 | Nor does a tick; a timer that is called was due. |
| `TimerList.CalledInTurn` | kernel/sched.c:322-331 | Without new timers each one is called in exactly the tick that its sum of deltas says. |
| `TimerList.AllUsed` | kernel/sched.c:283-287 | There is no free slot if and only if 64 timers are pending. |
| `TimerList.Timers.AddTimer` | kernel/sched.c:273-304 | The list becomes the insertion of the new timer; jiffies of zero or less call at once; the panic comes exactly if 64 are pending. |
| `TimerList.AskedIs` | kernel/sched.c:273-304 | No function, nothing; no time to wait, a call at once; 64 pending, the panic; otherwise no call now, and one that waits just as long as asked. |
| `TimerList.Timers.MoveBack` | kernel/sched.c:292-301 | The exchanging loop computes the insertion, with every slot's link intact. |
| `TimerList.Timers.DoTimer` | kernel/sched.c:322-332 | One tick off the first timer; it is called exactly if its time is over, makes its own requests, and no second one is called; it fails exactly if a request does. |
| `TimerList.InsertMoves` | kernel/sched.c:288-301 | Where each entry stands after an insertion, and how much longer it waits. |
| `TimerList.RunPunctual` | kernel/sched.c:265-332 | Over any run, with callbacks that add timers, no callback comes early. |
| `TimerList.CalledWhen` | kernel/sched.c:265-332 | Each timer is called exactly at its due tick plus what the timers put in before it have added meanwhile. |
| `TimerList.OnTime` | kernel/sched.c:265-332 | A timer is never called before its tick, and in that tick if and only if none of the events, callbacks' requests included, put a timer before it while it was pending. |
| `TimerList.LateIfAhead` | kernel/sched.c:288-301 | Nothing makes a timer late but a timer put in before it, and every such timer does. |
| `TimerList.LateExample` | kernel/sched.c:288-301 | A timer for 10 ticks that is followed by one for 5 is called at tick 15. |
| `TimerList.Execute` | kernel/sched.c:265-332 | The code's list, callbacks and clock after any events are those of the specification; it panics exactly when a 65th timer is asked for. |
| `ElevatorOrder.AtIsFirst` | kernel/blk_drv/ll_rw_blk.c:78-82 | The insertion point is the first place where both neighbours accept the request, or the end. |
| `ElevatorOrder.InsertTurns` | kernel/blk_drv/ll_rw_blk.c:78-84 | A queue that turns back at most once still does after an insertion. |
| `ElevatorOrder.InsertBefore` | kernel/blk_drv/ll_rw_blk.c:78-84 | No insertion adds a turn before a request that is queued. |
| `ElevatorSteps.Comparable` | kernel/blk_drv/blk.h:40-43 | Requests of one queue are for different blocks, so they are strictly ordered, also while the first is between its two sectors. |
| `ElevatorSteps.NewIsFresh` | kernel/blk_drv/ll_rw_blk.c:105-109 | A buffer locked for a request is for none of the queued blocks. |
| `ElevatorSteps.QueuedKeeps` | kernel/blk_drv/ll_rw_blk.c:132-142 | A new request keeps lists, locks and order. |
| `ElevatorSteps.EndedKeeps` | kernel/blk_drv/blk.h:109-125 | So does the end of the first request, whose buffer it unlocks. |
| `ElevatorSteps.AdvancedKeeps` | kernel/blk_drv/hd.c:259-268 | So does the step to its second sector, which changes no turn. |
| `ElevatorSteps.NextKeeps` | kernel/blk_drv/ll_rw_blk.c:64-143 | Every step keeps all invariants, among them: a locked buffer has one owner. |
| `ElevatorEffects.MadeRight` | kernel/blk_drv/ll_rw_blk.c:88-143 | When a request is made, waits or is given up, for the specified step. |
| `ElevatorEffects.InterruptedRight` | kernel/blk_drv/hd.c:244-287 | What an interrupt does to the request and its buffer. |
| `ElevatorEffects.ReadsFirst` | kernel/blk_drv/blk.h:40-43 | Reads before writes, then lower devices, then lower sectors. |
| `ElevatorTheorems.HeadInService` | kernel/blk_drv/ll_rw_blk.c:64-86 | A step that ends no request adds at most one, once, never before the one in service, and keeps the order of the others. |
| `ElevatorTheorems.AheadStep` | kernel/blk_drv/ll_rw_blk.c:64-86 | Each step either makes a turn that was before a waiting request or adds none before it. |
| `ElevatorTheorems.AheadRun` | kernel/blk_drv/ll_rw_blk.c:64-86 | The turns made while a request waits were before it when it was queued. |
| `ElevatorTheorems.OneTurn` | kernel/blk_drv/ll_rw_blk.c:64-86 | Over any run, a request is served before the elevator has turned back twice. |
| `ElevatorKernel.BlockDevices.constructor` | kernel/blk_drv/ll_rw_blk.c:157-165 | No requests at first. |
| `ElevatorKernel.BlockDevices.FindEmpty` | kernel/blk_drv/ll_rw_blk.c:115-122 | The highest free slot; writes may use only the lower two thirds. |
| `ElevatorKernel.BlockDevices.FindPlace` | kernel/blk_drv/ll_rw_blk.c:78-82 | The loop stops at the insertion point. |
| `ElevatorKernel.BlockDevices.AddRequest` | kernel/blk_drv/ll_rw_blk.c:64-86 | The slot is linked there, and the buffer is no longer dirty. |
| `ElevatorKernel.BlockDevices.MakeRequest` | kernel/blk_drv/ll_rw_blk.c:88-143 | For an unlocked buffer: with unwritten data to write, or data to read that are not there, a free slot, of the lower 21 for a write, holds a request of both its sectors and the buffer is locked and clean; or none is free, and it waits locked, or gives up if it is read ahead; with nothing to do, nothing changes. With a locked buffer a read-ahead returns and other callers sleep. |
| `ElevatorKernel.BlockDevices.EndRequest` | kernel/blk_drv/blk.h:109-125 | The first request ends: its slot is free, the next one is first, the buffer is unlocked and up to date exactly if the transfer was right. |
| `ElevatorKernel.BlockDevices.Interrupt` | kernel/blk_drv/hd.c:252-287 | An interrupt moves to the next sector, or ends the request after its last; an error is counted, and the seventh ends it. |
| `ElevatorKernel.BlockDevices.Possible` | kernel/blk_drv/ll_rw_blk.c:88-143 | Which steps can happen is decided from the request table and the buffers alone: a caller waits for a slot exactly if its buffer is locked and no request is for it. |
| `ElevatorKernel.BlockDevices.Execute` | kernel/blk_drv/ll_rw_blk.c:64-143 | Any run of the code is the run of the machine about which fairness is proved. |
| `ExecImage.ArgPages.CopyStrings` | fs/exec.c:110-158 | Strings that fit lie in order before what was there, across page boundaries. The result is 0 exactly if the strings just fill the area, or a page that they touch is missing and there is no frame for it; with frames for all pages the copy leaves the area if and only if the strings are longer than what is left of it. |
| `ExecImage.ArgPages.CopyString` | fs/exec.c:131-153 | One string, backwards, taking a page when it enters one; it stops for want of a frame only if fewer are free than pages are missing, and at the front of the area exactly if the string is longer than what is left. |
| `ExecImage.ArgPages.FreePages` | fs/exec.c:355-358 | After a failure every page is back. |
| `ExecImage.TooLongExample` | fs/exec.c:134-137 | With a frame for every page, one string as long as the area: the copy goes on in front of the first page. |
| `ExecTables.StringAt` | fs/exec.c:65-68 | The i-th string lies at the address that skipping i strings gives. |
| `ExecTables.FillTable` | fs/exec.c:65-69 | The table holds the addresses of the strings in order and a null. |
| `ExecTables.CreateTables` | fs/exec.c:52-76 | Count, two pointers, two tables, below the strings and not overlapping them. |
| `ExecTables.ArgumentsFound` | fs/exec.c:52-76 | Every pointer of both tables leads to its string with its terminating zero. |
| `Exec.ParseBang` | fs/exec.c:241-262 | The interpreter line is split into path, last component and argument; none exactly if there is no line end or the line is blank. |
| `Exec.CountRight` | fs/exec.c:267-286 | argc counts the new arguments if and only if the program is no script or had an argument. |
| `Exec.CountExample` | fs/exec.c:267-286 | A script with no arguments and one environment string: the program gets the interpreter's name as its only argument, and the script's name as its environment. |
| `Exec.CopyScript` | fs/exec.c:267-286 | For a script the strings are interpreter name, argument, script name, remaining arguments, if they fit. |
| `Exec.NewArgsAre` | fs/exec.c:267-286 | One by one: the first argument of the call is gone, the others stand in their order behind the script's name. |
| `Exec.Place` | fs/exec.c:176-182 | Each byte of the argument area comes to its place below the data limit. |
| `Exec.Execve` | fs/exec.c:267-359 | From argument lists to tables in the new program's memory; a program is started exactly if the strings leave a byte of the area and there are frames for the pages that they touch; without memory all pages are given back; no list that fits leaves the area. |
| `LineEditor.CountDone` | kernel/chr_drv/tty_io.c:215-216 | All line ends are in the finished text. |
| `LineEditor.EraseUndoes` | kernel/chr_drv/tty_io.c:182-195 | An ordinary character and the erase character leave everything as it was. |
| `LineEditor.EraseStops` | kernel/chr_drv/tty_io.c:183-186 | Erasing never reaches a finished line. |
| `LineEditor.KillUndoes` | kernel/chr_drv/tty_io.c:167-181 | The kill character undoes a line of any length that is being typed, and no finished one. |
| `LineEditor.OrdinaryTyped` | kernel/chr_drv/tty_io.c:231-231 | Any other character comes to the end of the text. |
| `LineEditor.LineEnds` | kernel/chr_drv/tty_io.c:215-216 | A line end, or the end-of-file character, finishes the line. |
| `LineEditor.StopsBetween` | kernel/chr_drv/tty_io.c:196-203 | Output is stopped from the stop character to the start character, and neither is text. |
| `LineEditor.SignalsSent` | kernel/chr_drv/tty_io.c:205-214 | The interrupt character sends SIGINT, the quit character SIGQUIT, and neither is text. |
| `LineEditor.InputFlags` | kernel/chr_drv/tty_io.c:156-165 | ICRNL types CR as NL, IGNCR alone types nothing for it, INLCR types NL as CR, both exchange them, IUCLC types small letters. |
| `LineEditor.KeyText` | kernel/chr_drv/tty_io.c:155-231 | The same told by the text in the queue alone. |
| `LineEditor.ChunkEnds` | kernel/chr_drv/tty_io.c:266-277 | A chunk that is read ends at the first end-of-file character, with enough, or with the text. |
| `LineEditor.ReadsCommute` | kernel/chr_drv/tty_io.c:150-278 | If reads take finished lines only, what was read followed by what is left is what the editor makes of all that was typed. |
| `LineEditor.TornText` | kernel/chr_drv/tty_io.c:266-277 | Text that was taken stays in agreement with the editor, whatever is typed next, if and only if it was taken from finished lines. |
| `LineEditor.TornLine` | kernel/chr_drv/tty_io.c:266-277 | A read of nr characters tears the line being typed if and only if nr is more than the finished text, something is being typed, and no end-of-file character stands before it. |
| `LineEditor.TornExample` | kernel/chr_drv/tty_io.c:266-277 | "a", a line end and "b" typed, three characters read, the line killed: the reader has a "b" that the editor never finished. |
| `LineEditor.TakeSizeIs` | kernel/chr_drv/tty_io.c:266-277 | When a read takes more than the first n characters. |
| `TtyQueue.Queue.Get` | include/linux/tty.h:31-32 | GETCH takes the oldest character. |
| `TtyQueue.Queue.Put` | include/linux/tty.h:33-34 | PUTCH adds the newest, if there is room. |
| `TtyQueue.Queue.Last` | include/linux/tty.h:28-28 | LAST is the newest. |
| `TtyQueue.Queue.DropLast` | include/linux/tty.h:25-25 | DEC of head takes it back. |
| `Tty.Terminal.CookOne` | kernel/chr_drv/tty_io.c:155-230 | One input character does to the queue, stop flag, signals and count what the editor says; of a character that the input flags leave alone, the text itself is told: erasing takes the last character unless it ends a line, kill takes all of the line, a control character adds nothing, any other is added. |
| `Tty.Terminal.Kill` | kernel/chr_drv/tty_io.c:167-181 | Erases the line being typed and nothing before it. |
| `Tty.Terminal.CopyToCooked` | kernel/chr_drv/tty_io.c:150-233 | Typed characters go through the editor in order until the second queue is full. |
| `Tty.Terminal.Drain` | kernel/chr_drv/tty_io.c:266-277 | Hands over a prefix of the text, exactly as long as the editor's rule says, stops at a taken end-of-file character, and keeps the count of line ends. |
| `Tty.Terminal.MustWait` | kernel/chr_drv/tty_io.c:261-262 | The count of line ends tells whether a line is finished. |
| `Tty.Terminal.Arrive` | kernel/chr_drv/tty_io.c:150-233 | Characters for which there is room are stored and cooked, exactly as the specified interrupt does it, and a reader in the process group has the signals that they send. |
| `Tty.Terminal.Read` | kernel/chr_drv/tty_io.c:235-293 | Result, session, read queue and end of the call are those of the specified call, a function of the terminal and of all that happens at each wait: input, chunks of other readers, signals. |
| `TtyReading.ReadingTold` | kernel/chr_drv/tty_io.c:235-293 | Every specified call ends, for a reason that there is: all it asked for, the end of the file, a signal, some text in canonical mode, or the minimum. It returns exactly what this reader was given in the events, but for the end-of-file character, however often others run first; what came in was typed into the editor in its order. |
| `TtyReading.ReadsAtOnce` | kernel/chr_drv/tty_io.c:261-287 | With text, and in canonical mode a finished line or at most 20 places left, the call takes a chunk before anything else happens, and returns if that is enough. |
| `TtyReading.WaitsFirst` | kernel/chr_drv/tty_io.c:261-265 | Otherwise it first waits for what comes next. |
| `TtyReading.SignalFirst` | kernel/chr_drv/tty_io.c:254-260 | A signal ends it before it takes anything. |
| `TtyReading.RoomIs` | kernel/chr_drv/rs_io.s:100-107 | What comes in is stored up to the last free place of the queue. |
| `TtyReading.OvertakenExample` | kernel/chr_drv/tty_io.c:261-264 | A reader is woken by a line, another one runs first and takes its first character: the line is split between them. |
| `Pipe.RingTake` | include/linux/fs.h:58-62 | The oldest bytes of the ring, up to the end of the page, lie at the tail. |
| `Pipe.RingPut` | include/linux/fs.h:58-62 | Bytes stored at the head extend the ring and touch none in it. |
| `Pipe.ChunkEnds` | fs/pipe.c:26-31 | A chunk is smaller than wanted only if the pipe is empty, or full, or at the end of the page. |
| `Pipe.ReadTurnKeeps` | fs/pipe.c:19-37 | A turn of a reader, after any number of chunks of others, keeps the order of bytes and its share of them; it ends the call only with enough bytes, or with an empty pipe and nobody left to write. |
| `Pipe.WriteTurnKeeps` | fs/pipe.c:47-67 | The same for a writer and a full pipe. |
| `Pipe.ReadingFifo` | fs/pipe.c:13-39 | Whatever chunks other readers and writers move before each of its own, also between its being woken and its running again: what was got is a beginning of what was put, the reader's bytes are its own chunks in order, and they are short only if the pipe is empty and no act of others is left. |
| `Pipe.WritingFifo` | fs/pipe.c:41-69 | The same for a writer; its bytes are a beginning of its data, short only if the pipe is full and nobody is left to read. |
| `Pipe.OvertakenExample` | fs/pipe.c:19-24 | A reader of two bytes waits, another process puts in four, a third gets the first two before the woken reader runs: that one gets the last two. |
| `Pipe.PipeInode.ReadPipe` | fs/pipe.c:13-39 | The code's pipe and result are those of the specified reader. |
| `Pipe.PipeInode.WritePipe` | fs/pipe.c:41-69 | The code's pipe and result are those of the specified writer; -1 if nothing went in. |
| `Pipe.RunFifo` | fs/pipe.c:13-69 | Over any run of calls by any processes, with any chunks of others before each of theirs: first in, first out. |
| `Pipe.Execute` | fs/pipe.c:13-69 | The code's pipe after any calls, and every reader's bytes, are those of the specified run. |
| `NumberPrinter.DigitsValue` | kernel/vsprintf.c:61-65 | The digits stand for the number. |
| `NumberPrinter.DigitsShape` | kernel/vsprintf.c:61-65 | They are digits of the base without a leading zero. |
| `NumberPrinter.PrintedLength` | kernel/vsprintf.c:57-88 | The length is the larger of the size and sign, prefix and digits or precision together. |
| `NumberPrinter.PaddedIs` | kernel/vsprintf.c:68-89 | The padding is spaces behind with LEFT, zeros between sign or prefix and digits with ZEROPAD alone, otherwise spaces in front. |
| `NumberPrinter.FrontIs` | kernel/vsprintf.c:50-79 | Sign and prefix, and when there are which. |
| `NumberPrinter.CaseIs` | kernel/vsprintf.c:45-45 | Digits above 9 are small letters, or capitals. |
| `NumberPrinter.ReadBack` | kernel/vsprintf.c:40-90 | Reading what was printed gives the number meant, for every value including the most negative, base, width, precision and flags. |
| `NumberPrinter.Number` | kernel/vsprintf.c:40-90 | number() prints exactly that text; nothing for a base out of range. |
| `NumberPrinter.Collect` | kernel/vsprintf.c:61-65 | The unsigned division loop collects the digits, the last one first. |
| `NumberPrinter.SkipAtoi` | kernel/vsprintf.c:18-25 | The longest run of digits is skipped, and its decimal value returned. |

## Left out

Paging:
- The TLB flushes after a change of the tables; every access sees the current tables.
- Stores of single bytes: a store is of one 32-bit word, and a frame is a sequence of 1024 words.
- Frames below LOW_MEM that the first fork shares writable with task 0 are outside the isolation claim (mm/memory.c:180).
- do_no_page sleeps while it reads the executable; here the page is read in one step. Other kernel users of frames than tables, task structures and the page in hand are not modelled.
- Exec leaves an empty space: that change_ldt then puts the argument pages there is in `Exec`, not in the paging runs. A task that runs out of memory is not killed by the operation itself; its exit is an operation of its own.
- PageKernel.Memory.VerifyArea: does not model an area that ends beyond the 4 GB of the linear address space, where the address wraps into the kernel's own pages; nor task 0, which makes no call with an area.
- PageKernel.Memory.KernelStore: requires that the page shows no kernel frame, because every caller verifies it first and no later step brings one back.

File blocks:
- Disk errors, and the dirty and lock flags of blocks and inodes; a block is read and written in one step. The bitmap's padding bits start set, as mkfs leaves them.
- VolumeKernel.Volume.Bmap: does not model another writer of the same hole between the test and the store of fs/inode.c:81-86, where new_block sleeps in getblk (fs/bitmap.c:96). Both can allocate then; the zone stored first is lost, stays marked, and its data with it.
- VolumeFiles.FileRead: requires that the bytes lie within the largest file, because sys_read clips at the file's size; beyond it the code panics as for a write.
- Which buffers are busy when a file is truncated is an input of the operation: the buffer cache is a model of its own.
- Directories, links, permissions and path names; the inode table and its cache.

Buffer cache:
- BufferCache.Cache.Getblk: does not promise to end, because the candidate can be taken again at every wait; the contract is about the calls that do.
- The store through a null b_next when a bucket was empty (fs/buffer.c:166) is done only if there is a buffer.
- BufferCache.Cache.WriteDirty: does not model devices without a driver, for which ll_rw_block only prints a message and leaves the buffer dirty.
- BufferCache.Cache.SyncDev: does not promise that the buffers are clean when it returns, because others dirty them while it waits; what sync_inodes does to the cache is in the script.

Allocator:
- MallocKernel.Allocator.FreeS: does not model the release of an address inside a bucket page that is no live object; the source does not notice it, and the free list is damaged from then on.
- Memory is one word per address; the callers' words are aligned. Interrupts between the search of free_s and its critical part are covered by `Release`, which accepts any earlier predecessor, not by interleaved calls.

Scheduling:
- interruptible_sleep_on, under which a woken task can fall asleep behind a newer one that does not link to it (kernel/sched.c:178-186), and sys_nice: priorities are fixed.
- sleep_on's assignments are one step, as its callers have interrupts off; who waits for what is not modelled, nor is the rest of fork, exit and waitpid.
- TimerList: floppy motor and user timers, and 32-bit overflow of jiffies.

Disk requests:
- Runs pass over steps that cannot happen. The wait for a locked buffer, and for a free slot, are steps of the caller; their channels are those of the scheduler's model. The ports, the floppy's sectors, and the reset after half of the errors (which reads the next request, kernel/blk_drv/hd.c:248) are left out. Every request has a buffer, as all callers of make_request see to.

Exec:
- Exec.Execve: does not model what happens in front of the argument pages, where the source stores through whatever lies there.
- File lookup, permissions, the executable's header, and the restart with the interpreter's inode, which is itself not a script. The message for a missing argument pointer is a panic.

Terminals:
- Tty.Terminal.Read: does not model VTIME and alarms, because time plays no part in the queues; when nothing more is to arrive, a signal does. A chunk is taken in one step, though put_fs_byte can fault. A key that sends several characters, all of which the keyboard driver drops when they do not fit, counts as nothing then.
- Echo and the output queue, and IUCLC for characters above 127, which the source looks up in front of a table.
- LineEditor.TornLine: requires that the kill character reaches the editor, for otherwise no key shows the difference.

Others:
- NumberPrinter.Number: widths and precisions are integers that do not overflow; the other parts of formats and the conversions c, s, p and n are not modelled.
- Pipe.PipeInode.WritePipe: the signal SIGPIPE is not modelled; a chunk's index update and copy are one step. That the last reader or writer is gone is the end of the script of others.
- Boot code, drivers and their ports, the console, message queues, the game, and the second copies of system calls: no data structure of their own, or only simple ones.
