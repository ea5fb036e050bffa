# xv6-riscv in Dafny

A model of the parts of the xv6-riscv kernel and its user programs whose
correctness is not obvious from any single function, with proofs.

* **Crash recovery.** `Log` is the redo log as a sequence of single-block disk
  writes, `Logger` the code that issues them, `LogRuns` every interleaving of
  file system operations with commit, crash and recovery, `LogSpace` the log
  space reservation.
* **Buffer cache.** `Bcache` is the cache shared by any number of processes,
  `Recency` its choice of the buffer to recycle, `BufferCache` its linked ring,
  `CachedLog` the log on top of it.
* **Files.** `FsModel` and `FileSystem` are the bitmap, block maps, reading,
  writing and truncation, `File` the chunking of long writes, `Itable` the
  inode table.
* **Processes.** `Proc`, `Family`, `Reaping` and `Waking` are the scheduler,
  sleep, wakeup, kill, fork, exit and wait on several CPUs, `Spinlock` interrupt
  nesting.
* **Memory.** `VmModel`, `PageCost`, `Vm`, `Uvm`, `FreeTree` and `ProcSpace` are
  the page allocator, three-level page tables, what mapping costs, and growing a
  process, `UserCopy` copies to and from user memory.
* **Pipes and disk.** `Pipe` and `PipeRuns`; `VirtioModel`, `Virtio`, `VirtioRuns`
  and `VirtioData`.
* **User programs.** `ArenaModel` and `Umalloc` are malloc and free; `ShellModel`
  and `Shell` the shell's parser, `ShellGrammar` its language, and `ShellParses`,
  `ShellSound`, `ShellTokens` and `ShellRoundTrip` that the one is the other; `Grep`
  the pattern matcher.

Code that changes state in place is a class whose methods keep the loops of the
C code. A method is tied to a value by a ghost snapshot, and what the operation
keeps, undoes or refines is proved about values. Code that runs concurrently is
a state machine whose steps are the critical sections of the C code; a theorem
about it speaks of every position of every run.

Conditions the code relies on appear as preconditions: a one-block disk write is
atomic; logged blocks lie outside the log; the log is as large as LOGSIZE; a
buffer has one disk request at a time, because its sleep-lock is held. Panics are
results or are proved unreachable. Time, device registers and user copies that
fail become parameters.

Where code and documentation differ the code is followed. Six promises hold
only under a condition, which is proved to be exact:

* the documented limit of MAXOPBLOCKS blocks per operation
  (`LogSpace.SizePanicExactly`);
* the buffer cache, which writei leaves with an unlogged change when a user copy
  fails half way (`Bcache.TransparentExactly`, `Bcache.CleanExactly`,
  `CachedLog.CacheIsLogCache`);
* the count writei returns in that case (`FileSystem.WriteiExactly`);
* freeing an inode with its last link and reference (`Itable.NoneLeftExactly`);
* sleeping on a pipe when a writer is killed (`PipeRuns.SleepersHaveReason`);
* large malloc requests (`Umalloc.Umalloc.Morecore`, `Umalloc.Umalloc.Malloc`).

`dafny verify dfyconfig.toml` checks the whole project.

## Model

| member | source | states |
|---|---|---|
| `Log.HeadRoundTrip` | xv6-riscv/kernel/log.c:87-114 | writing the header block and reading it back gives the same list of home block numbers, whatever was in the block before |
| `Log.CommitPrefix` | xv6-riscv/kernel/log.c:194-203 | after any k writes of a commit the disk is worth exactly the old contents if the header is not yet written and exactly the new ones if it is; after all of them the log is empty and the blocks are home |
| `Log.RecoverPrefix` | xv6-riscv/kernel/log.c:117-123 | stopping recovery after any k of its writes leaves the disk worth the same contents, so recovery may be restarted |
| `Log.AttemptsKeepDurable` | xv6-riscv/kernel/log.c:117-123 | the same for any number of interrupted recoveries in a row |
| `Log.CrashAtomicity` | xv6-riscv/kernel/log.c:69-123 | crash after any k writes of a commit, any number of crashes inside recovery, then one completed recovery: home blocks are all old (header not written) or all new (header written), and the log is empty |
| `LogSpace.AdmittedExactly` | xv6-riscv/kernel/log.c:127-142 | begin_op admits an operation exactly when LOGSIZE covers it and everything the open operations may still add, however little each has added so far |
| `Logger.Logger.LogWrite` | xv6-riscv/kernel/log.c:215-235 | the header gains the block once (absorption), stays distinct and outside the log area; exactly when each of the two panics happens |
| `LogRuns.EndedIsCommitted` | xv6-riscv/kernel/log.c:147-175 | on every run, when the last open operation has ended and the commit it starts has finished without a crash, what is committed and on the home blocks is exactly what the cache held when it ended |
| `Logger.Logger.Commit` | xv6-riscv/kernel/log.c:178-203 | the loops of write_log, write_head and install_trans issue exactly the write sequence CommitWrites, in that order, and nothing else; the in-memory log is then empty |
| `Logger.Logger.RecoverFromLog` | xv6-riscv/kernel/log.c:69-123 | read_head, install_trans and write_head issue exactly RecoverWrites of the disk found; the disk then holds the durable contents with an empty log, and cache and disk agree |
| `LogRuns.RecoveryRestoresCommitted` | xv6-riscv/kernel/log.c:117-203 | on every interleaving of operations, disk writes and crashes: stop anywhere, interrupt recovery any number of times, and a completed recovery leaves exactly the last committed transaction |
| `LogRuns.CommittedAtBoundary` | xv6-riscv/kernel/log.c:10-18 | on every interleaving no operation is open while commit or recovery writes, and what is committed changes only by becoming the whole cache at a moment when no operation is open |
| `LogRuns.FinishedCommitIsDurable` | xv6-riscv/kernel/log.c:194-203 | when the commit begun by the last end_op has finished, the committed contents are the cache |
| `LogSpace.ReservationHolds` | xv6-riscv/kernel/log.c:127-142 | on every interleaving the logged blocks plus the unused reservations of all open operations fit LOGSIZE |
| `LogSpace.NoSizePanic` | xv6-riscv/kernel/log.c:220-221 | if operations add fewer than MAXOPBLOCKS blocks each, log_write never finds the log too big |
| `LogSpace.SizePanicExactly` | xv6-riscv/kernel/log.c:220-221 | the "too big a transaction" panic is unreachable on every run if and only if the per-operation limit is below MAXOPBLOCKS; the documented limit itself is one too many |
| `LogSpace.PanicRun` | xv6-riscv/kernel/log.c:127-142 | a run within the documented limit of MAXOPBLOCKS blocks per operation that reaches the panic |
| `Bcache.TransparentExactly` | xv6-riscv/kernel/bio.c:59-137 | on every interleaving, with brelse as written: at every point each block that nobody is changing reads as it was last released if and only if bget never recycled a buffer that differs from the disk |
| `Bcache.CleanExactly` | xv6-riscv/kernel/bio.c:59-137 | on every interleaving: at every point each valid buffer that is not pinned and that nobody is changing equals the disk if and only if no holder released an unpinned buffer that differs from the disk; nothing is then ever lost by recycling |
| `Bcache.AbandonedRun` | xv6-riscv/kernel/fs.c:519-525 | the steps of writei whose copy fails half way, once it has read its block: the release leaves an unreferenced buffer that differs from the disk |
| `Bcache.LostRun` | xv6-riscv/kernel/bio.c:73-86 | continued from boot until that buffer is recycled: a run whose last step loses what was released |
| `Bcache.BreadReturnsLastReleased` | xv6-riscv/kernel/bio.c:93-103 | on every interleaving, as long as no recycled buffer differed from the disk, what bread returns is what was last released for that block, however often it was evicted, re-read, written or pinned since |
| `Bcache.OneBufferPerBlock` | xv6-riscv/kernel/bio.c:59-89 | on every interleaving no two of the buffers, held or not, name the same block, and no two processes hold the same block |
| `Bcache.UnreferencedEqualsDisk` | xv6-riscv/kernel/bio.c:74-86 | on every interleaving, as long as no holder abandoned what it changed, a valid buffer without references equals the disk, so recycling it loses nothing |
| `Bcache.PinnedIsNotRecycled` | xv6-riscv/kernel/bio.c:140-151 | a pinned buffer keeps its block across every step |
| `Recency.VictimIsOldest` | xv6-riscv/kernel/bio.c:73-86 | on every interleaving, when bget recycles a buffer, every other unreferenced buffer has been released by its last holder since that one last was |
| `CachedLog.CacheIsLogCache` | xv6-riscv/kernel/log.c:178-235 | the log run on top of the buffer cache, on every interleaving with eviction, sharing, pinning and crashes: at every point what a process finds in a buffer is the log's cache at that block, an unheld block was last released as exactly that and an unreferenced buffer equals the disk, if and only if no process released contents that the log's cache does not have for the block, or an unpinned buffer that differs from the disk |
| `CachedLog.ReleaseIsSafe` | xv6-riscv/kernel/log.c:206-213 | whoever passes what it changed to log_write or bwrite before brelse does neither of the two |
| `CachedLog.DiskIsLogDisk` | xv6-riscv/kernel/log.c:69-203 | on every such run, up to the first stray release, the disk under the buffers is the log's disk, which recovers to the last committed transaction |
| `CachedLog.JobIsNext` | xv6-riscv/kernel/log.c:69-191 | the block that write_log and install_trans copy from one held buffer to another, and the header write_head fills in, are exactly the next write of the commit or recovery |
| `Bcache.MoveToFrontPermutes` | xv6-riscv/kernel/bio.c:125-134 | moving a released buffer to the front keeps the list a permutation of all buffers |
| `BufferCache.BufferCache.Binit` | xv6-riscv/kernel/bio.c:37-53 | the doubly linked ring then holds every buffer exactly once |
| `BufferCache.BufferCache.Bget` | xv6-riscv/kernel/bio.c:59-89 | both scans of the linked ring: the cached buffer with one more reference, else the least recently used unreferenced one recycled for the block, else the panic, exactly when every buffer is referenced |
| `BufferCache.BufferCache.Brelse` | xv6-riscv/kernel/bio.c:117-137 | one reference less; the last one relinks the buffer at the front and the ring stays consistent |
| `FsModel.BitmapIsExact` | xv6-riscv/kernel/fs.c:66-105 | a bitmap bit is set exactly for metadata blocks and blocks some inode names, and no block is named twice |
| `FsModel.MapInjective` | xv6-riscv/kernel/fs.c:383-421 | two mapped file blocks, of one file or two, are different disk blocks |
| `FileSystem.FileSystem.Balloc` | xv6-riscv/kernel/fs.c:66-88 | the first free block, marked and zeroed; 0 exactly when every bit is set; which blocks are logged |
| `FsModel.FreedExactly` | xv6-riscv/kernel/fs.c:92-105 | bfree of an allocated data block leaves a consistent file system if and only if no inode names the block |
| `FsModel.WordPut` | xv6-riscv/kernel/fs.c:406-414 | storing one block number in an indirect block changes that entry and no other, on the bytes of the block |
| `FileSystem.FileSystem.Bmap` | xv6-riscv/kernel/fs.c:383-421 | the block of a file offset, allocated with its indirect block if missing; ownership stays a bijection, every other mapping and every byte of file data is unchanged, also when the disk fills half way; which blocks it may log |
| `FileSystem.DataSetPtr` | xv6-riscv/kernel/fs.c:383-421 | file data and indirect blocks share one array of bytes, and whatever is written into a file block, no inode's block number changes |
| `FileSystem.FileSystem.Mkfs` | xv6-riscv/mkfs/mkfs.c:93-111 | the zeroed file system is valid: exactly the metadata blocks are in use and every file is empty |
| `FileSystem.FileSystem.Writei` | xv6-riscv/kernel/fs.c:506-539 | -1 exactly for a bad range; otherwise the file is its old contents overwritten or extended by the returned prefix, plus, until the one block concerned is recycled, what a copy that failed half way had already moved into it; the prefix is all of the source exactly if it can be read and as many blocks are free as the file lacks, and with those free it is the last block edge the readable source covers; other files are unchanged; every block, bitmap block and inode that changed is logged, but for that one block, and which others may be |
| `FileSystem.WriteiExactly` | xv6-riscv/kernel/fs.c:506-539 | the file shows exactly the bytes writei reports if and only if each byte of the source from the last block edge up to what can be read is in the old file already or lies past its end; with room on the disk that edge is what writei reports |
| `FileSystem.FailedWriteShows` | xv6-riscv/kernel/fs.c:521-525 | a call of writei that reports 0 bytes and has changed the file, until the buffer is recycled: then the file is as it was |
| `FileSystem.FileSystem.Readi` | xv6-riscv/kernel/fs.c:472-496 | delivers exactly the requested slice, cut at the end of the file, across the direct and indirect boundary, and changes nothing; -1 exactly if that does not fit the destination, which then holds what does |
| `FileSystem.FileSystem.TruncIndirect` | xv6-riscv/kernel/fs.c:437-448 | frees exactly the blocks reached through the indirect pointer and the indirect block, without meeting the free-block panic |
| `FileSystem.FileSystem.Itrunc` | xv6-riscv/kernel/fs.c:426-453 | the file is empty, exactly its bits are cleared, "freeing free block" does not happen, every other file keeps its contents; exactly the inode and the bitmap blocks that changed are logged |
| `File.ChunkLogsAtMostSeven` | xv6-riscv/kernel/file.c:149-157 | one chunk of filewrite logs at most seven different blocks, within MAXOPBLOCKS-2 |
| `File.OverwriteTwice` | xv6-riscv/kernel/file.c:159-174 | writing two adjacent pieces is writing their concatenation |
| `File.File.Filewrite` | xv6-riscv/kernel/file.c:147-175 | returns the full count exactly when every byte was written, and that is exactly when the offset is inside the file, the source can be read, the range fits a file and as many blocks are free as it lacks, over all operations together; in every case the reported prefix is in the file at the old offset, the offset has moved past it, nothing more was copied if all of the source can be read, and no operation logged more than seven blocks |
| `Itable.Scan` | xv6-riscv/kernel/fs.c:253-267 | iget finds the referenced entry of the inode if there is one, else the first free entry, else nothing |
| `Itable.RunKeepsInv` | xv6-riscv/kernel/fs.c:194-362 | the inode table invariant on every interleaving of iget, idup, ialloc, ilock, iunlock, iupdate and iput |
| `Itable.TableIsCoherent` | xv6-riscv/kernel/fs.c:247-317 | on every interleaving: one entry per inode, ref equals the number of references, and an unlocked valid entry equals the disk inode |
| `Itable.IputNeverClobbers` | xv6-riscv/kernel/fs.c:337-362 | whenever iput writes the inode it frees, the disk still holds that very inode and iput holds its lock |
| `Itable.OnlyUnlinkedIsFreed` | xv6-riscv/kernel/fs.c:330-362 | on every interleaving, an inode that becomes free on disk had no links there |
| `Itable.UnlinkedIsFreed` | xv6-riscv/kernel/fs.c:330-362 | on every interleaving, when the last reference to a loaded inode without links goes away, iput has freed it, and it is still free or ialloc has given it away since |
| `Itable.NoneLeftExactly` | xv6-riscv/kernel/fs.c:330-362 | on every interleaving: no loaded inode without links loses its last reference if and only if no iput, between its two holds of itable.lock, is overtaken by others that load the reallocated inode and leave it without links |
| `Itable.LeakRun` | xv6-riscv/kernel/fs.c:346-361 | such a run: an inode is left allocated on disk with no links and no references |
| `Itable.IputNeverBlocks` | xv6-riscv/kernel/fs.c:341-346 | the holder of the only reference finds the sleep-lock free, so that acquiresleep never waits |
| `Family.RunKeepsFamily` | xv6-riscv/kernel/proc.c:280-472 | the scheduling, parenthood and fork invariant on every interleaving of scheduler, preemption, sleep, wakeup, kill, fork, exit and wait on eight CPUs |
| `Family.NoLostExit` | xv6-riscv/kernel/proc.c:331-435 | on every interleaving, with wait_lock free no process sleeps in wait while it has an exited child, reparented ones included; every live or exited process but init has a live parent |
| `Family.SchedulerSafety` | xv6-riscv/kernel/proc.c:444-499 | with p->lock free, p is RUNNING exactly when one CPU runs it, and only one; across swtch the lock is held by the CPU whose process is p, which holds no other process lock |
| `Reaping.ReapedExactlyOnce` | xv6-riscv/kernel/proc.c:391-435 | every exited pid is either held by a ZOMBIE entry or has been reaped, never both, and a reaping step takes one not reaped before |
| `Reaping.RoundRobin` | xv6-riscv/kernel/proc.c:445-472 | while a process stays RUNNABLE no CPU makes NPROC picks |
| `Waking.RousedRuns` | xv6-riscv/kernel/proc.c:566-604 | on every interleaving, whoever wakeup or kill finds asleep is RUNNABLE then, and if it sleeps at any later point it has run in between |
| `Waking.KillIsKept` | xv6-riscv/kernel/proc.c:585-604 | once killed, a process stays killed until its entry is freed |
| `Waking.ForkedIsReady` | xv6-riscv/kernel/proc.c:280-327 | on every interleaving, when fork is done its child, not in use by anybody until then, is RUNNABLE with this parent |
| `Waking.WaitGivesUpExactly` | xv6-riscv/kernel/proc.c:391-435 | on every interleaving, wait gives up after its scan exactly if the process is killed or has no child |
| `Spinlock.MatchedCallsRestore` | xv6-riscv/kernel/spinlock.c:84-110 | over every nested sequence of push_off and pop_off calls, from any depth: no pop_off panics, interrupts are off while a call is unmatched, and whenever all are matched interrupts and noff are as before |
| `Spinlock.InterruptsRestored` | xv6-riscv/kernel/proc.c:482-499 | on every interleaving, from a thread's outermost acquire to the release of its last lock interrupts are off wherever it runs, and afterwards they are as before, though sched moved it between CPUs; threads made by fork included |
| `VmModel.PteRoundTrip` | xv6-riscv/kernel/riscv.h:347-352 | a page-table entry and its page number and flags determine each other |
| `VmModel.SplitInjective` | xv6-riscv/kernel/riscv.h:355-363 | below MAXVA the three 9-bit indices determine the page |
| `VmModel.LeafOwned` | xv6-riscv/kernel/vm.c:143-165 | every valid user leaf names a page that it alone holds |
| `VmModel.RangedUndone` | xv6-riscv/kernel/vm.c:226-249 | unmapping a range that was just mapped restores every translation, with at most page-table pages of that address space left over |
| `Vm.Vm.Kalloc` | xv6-riscv/kernel/kalloc.c:69-82 | 0 exactly when the list is empty; otherwise a page that nobody holds, and no page is lost |
| `Vm.Vm.Kfree` | xv6-riscv/kernel/kalloc.c:47-63 | panics exactly for an address that is not page-aligned or not between the kernel and PHYSTOP; otherwise the page is first on the list and no page is lost |
| `Vm.Vm.Kinit` | xv6-riscv/kernel/kalloc.c:26-42 | every whole page between the kernel and PHYSTOP is free, none twice, and kfree never panics on the way |
| `Vm.Vm.Walk` | xv6-riscv/kernel/vm.c:86-103 | reaches the last-level table of the page, creating missing tables on request, each from one free page; no existing translation of any address space changes and failure means there are fewer free pages than missing tables |
| `PageCost.LacksAtMost` | xv6-riscv/kernel/vm.c:86-103 | walks to n pages in a row lack at most two tables a page |
| `Vm.PagesTouched` | xv6-riscv/kernel/vm.c:151-152 | rounding va and va+size-1 down gives exactly the pages that hold a byte of the range |
| `Vm.Vm.Mappages` | xv6-riscv/kernel/vm.c:143-165 | for any va, size and pa: the size panic exactly for 0; otherwise exactly the first done pages that hold a byte of the range are mapped, to consecutive pages, nothing else changed; done is all of them, at one free page for each table that was missing, or the cause is fewer free pages than missing tables or a page already mapped |
| `Vm.Vm.Uvmunmap` | xv6-riscv/kernel/vm.c:171-192 | panics exactly if some page of the range is not mapped; otherwise exactly the range is unmapped, its user pages are free, and nothing else changed |
| `Vm.UnmapFrees` | xv6-riscv/kernel/vm.c:171-192 | while the allocator manages the RAM that kinit found, every page uvmunmap frees passes kfree's test, so its panic is unreachable from there |
| `Uvm.Uvmalloc` | xv6-riscv/kernel/vm.c:226-249 | for any new size: success maps exactly the new pages, readable, user, zeroed, to fresh pages; failure returns 0 with every translation as before; it fails exactly if the size is beyond user memory or there are fewer free pages than new pages and missing tables, so never with three free pages for each new one |
| `Uvm.FilledBound` | xv6-riscv/kernel/vm.c:226-249 | filling an empty range takes a free page for every page of it, so a size no memory can back ends in failure before it reaches TRAPFRAME |
| `Uvm.Uvmdealloc` | xv6-riscv/kernel/vm.c:256-267 | unmaps and frees exactly the pages between the two sizes, or nothing |
| `Uvm.Uvmcopy` | xv6-riscv/kernel/vm.c:306-333 | success: the child's pages are fresh copies of the parent's with its flags; failure: the child has no user page and nothing else changed; it fails exactly if there are fewer free pages than pages to copy and missing tables |
| `Uvm.FilledUndone` | xv6-riscv/kernel/vm.c:226-267 | uvmdealloc after uvmalloc gives back every page and every translation, up to page tables |
| `FreeTree.Uvmcreate` | xv6-riscv/kernel/vm.c:197-205 | a new, empty address space, or, exactly if no page is free, no change |
| `FreeTree.Freewalk` | xv6-riscv/kernel/vm.c:272-287 | recursively frees every page-table page under the table and nothing else; for the root, all pages of the address space are free again; no other translation changes |
| `FreeTree.FreewalkFrees` | xv6-riscv/kernel/vm.c:272-287 | the same for every page freewalk frees |
| `FreeTree.Uvmfree` | xv6-riscv/kernel/vm.c:292-297 | every page of the address space, user memory and tables, is free again, and only those |
| `FreeTree.ProcPagetable` | xv6-riscv/kernel/proc.c:177-206 | an address space that maps TRAMPOLINE and TRAPFRAME and nothing else, or, exactly if fewer than three pages are free, the pages and translations there were |
| `FreeTree.ProcFreepagetable` | xv6-riscv/kernel/proc.c:211-216 | every page the process held but its trapframe page is free again, other processes are untouched |
| `ProcSpace.NewSpace` | xv6-riscv/kernel/proc.c:177-206 | what proc_pagetable builds is the address space of a process of size 0 |
| `ProcSpace.FilledSpace` | xv6-riscv/kernel/vm.c:226-249 | growing (or copying into a new process) makes the address space of a process of the new size |
| `ProcSpace.ShrunkSpace` | xv6-riscv/kernel/vm.c:256-267 | shrinking makes that of the smaller size |
| `ProcSpace.SameSpace` | xv6-riscv/kernel/vm.c:226-333 | an operation that fails leaves every process the address space of its size, so the panics stay unreachable |
| `ProcSpace.MayGrow` | xv6-riscv/kernel/proc.c:259-269 | any process may be asked to grow to any size: its pages and the free ones together are fewer than user addresses |
| `ProcSpace.Growproc` | xv6-riscv/kernel/proc.c:259-275 | the process again has exactly the pages below its size, no page is lost; growing succeeds or changes no translation, and fails exactly if the size is beyond user memory or takes more free pages than there are, page tables included; shrinking below zero wraps and changes nothing |
| `ProcSpace.ForkedMemory` | xv6-riscv/kernel/vm.c:299-333 | after a copy, parent and child hold equal memory with equal flags in different pages, and the parent's is what it was |
| `UserCopy.Walkaddr` | xv6-riscv/kernel/vm.c:109-126 | the page of a user address exactly if it is mapped and open to user code |
| `UserCopy.Copyin` | xv6-riscv/kernel/vm.c:377-396 | succeeds exactly if every byte of the range is open; delivers what flat user memory holds, up to the first closed page otherwise |
| `UserCopy.Copyout` | xv6-riscv/kernel/vm.c:352-371 | succeeds exactly if every byte of the range is open; flat user memory then differs in exactly those bytes; otherwise exactly the part before the first closed page was written |
| `UserCopy.Copyinstr` | xv6-riscv/kernel/vm.c:403-439 | succeeds exactly if user memory holds a string there: a NUL among the first max bytes with every byte up to it open; the result is then that string, and otherwise the bytes before the limit or the closed page |
| `UserCopy.StringIsForced` | xv6-riscv/kernel/vm.c:403-439 | at most one such string exists, and if one exists copyinstr cannot fail within its length |
| `UserCopy.CopyRoundTrip` | xv6-riscv/kernel/vm.c:352-396 | what copyout stored, copyin over the same range returns |
| `ArenaModel.Apart` | xv6-riscv/user/umalloc.c:25-90 | blocks, free or live, never overlap |
| `ArenaModel.Tiles` | xv6-riscv/user/umalloc.c:25-90 | free and live blocks together cover every unit of the heap exactly once and no other unit; when the heap is what sbrk granted is part of the contracts of morecore and malloc |
| `ArenaModel.Canonical` | xv6-riscv/user/umalloc.c:25-44 | the free list, sizes included, is determined by the live blocks: it is sorted and fully coalesced |
| `Umalloc.Umalloc.Find` | xv6-riscv/user/umalloc.c:30-32 | the search of free ends, from any freep, at the last list element below the block |
| `Umalloc.Umalloc.Free` | xv6-riscv/user/umalloc.c:25-44 | the block leaves the live ones, every other live block keeps place and size, no unit is lost, the list is again circular, sorted and coalesced |
| `Umalloc.Umalloc.Morecore` | xv6-riscv/user/umalloc.c:47-61 | 0 exactly if sbrk fails, and then nothing changed; otherwise the heap has exactly the max(nu, 4096) new units and a free block large enough; the heap is what sbrk granted exactly if nu is below 2^27 |
| `Umalloc.Umalloc.Malloc` | xv6-riscv/user/umalloc.c:64-90 | a new live block of the units asked for, with all other live blocks untouched: in the units the heap had if a free block is large enough, else at the end of the region of one call of sbrk; 0 exactly if there is no such block and sbrk fails; the heap stays what sbrk granted exactly if it did not call sbrk or asked for fewer than 2^27 units |
| `Umalloc.FreeUndoesMalloc` | xv6-riscv/user/umalloc.c:25-90 | free after malloc restores the free list element by element |
| `Umalloc.AskedFor` | xv6-riscv/user/umalloc.c:47-58 | what morecore records is what sbrk, whose argument is an int, granted if and only if it wants fewer than 2^27 units |
| `Umalloc.LimitInBytes` | xv6-riscv/user/umalloc.c:64-71 | that is, for requests of at most 2^31-32 bytes |
| `Umalloc.NothingGranted` | xv6-riscv/user/umalloc.c:54-54 | a request for 2^32-1 bytes is granted one header, and none of the block malloc returns |
| `Pipe.TestsAreExact` | xv6-riscv/kernel/pipe.c:88-113 | the full and empty tests on 32-bit counters that wrap are exact |
| `Pipe.Pipe.Write` | xv6-riscv/kernel/pipe.c:77-103 | between taking and giving up the lock exactly the next bytes of the source enter the queue: as many as fit, up to the first that cannot be read or the moment it is killed; exactly why it sleeps, returns or gives up, and whether it woke readers |
| `Pipe.Pipe.Read` | xv6-riscv/kernel/pipe.c:106-130 | delivers the oldest bytes in order, all that are wanted and there; if a copy fails, those before it, and the byte it was to move is lost; sleeps exactly on an empty writable pipe and gives up there exactly if killed; whether it woke writers |
| `PipeRuns.ClosedEndsWake` | xv6-riscv/kernel/pipe.c:59-74 | on every run, once one end is closed no process sleeps waiting for it |
| `PipeRuns.PipeIsFifo` | xv6-riscv/kernel/pipe.c:77-130 | at every two points of every run: the ring of bytes with its two wrapped counters holds exactly what was stored and not yet taken, what readers took is what writers stored first, each byte once, and both histories only grow |
| `PipeRuns.SleepersHaveReason` | xv6-riscv/kernel/pipe.c:58-130 | on every run: a sleeping reader always means empty and still writable, and a sleeping writer full and still readable, if and only if no step of the run is a writer killed after storing bytes while a reader sleeps |
| `PipeRuns.StrandedReader` | xv6-riscv/kernel/pipe.c:84-87 | a run in which a killed writer leaves a reader asleep beside a byte |
| `VirtioModel.Conservation` | xv6-riscv/kernel/virtio_disk.c:156-213 | free descriptors plus three per live chain make NUM, so at most two requests are under way |
| `VirtioModel.ChainsDisjoint` | xv6-riscv/kernel/virtio_disk.c:215-292 | live chains share no descriptor |
| `VirtioModel.IndicesAgree` | xv6-riscv/kernel/virtio_disk.c:312-312 | two 16-bit ring indices are equal exactly when nothing lies between them |
| `Virtio.Disk.AllocDesc` | xv6-riscv/kernel/virtio_disk.c:157-166 | the first free descriptor, or -1 exactly if none is free |
| `Virtio.Disk.Alloc3Desc` | xv6-riscv/kernel/virtio_disk.c:201-213 | three different descriptors, or none with all of them given back, and then fewer than three were free |
| `Virtio.Disk.Submit` | xv6-riscv/kernel/virtio_disk.c:216-281 | posts a chain the device will read as header, data of this buffer, status, with the request's type and first sector in the header; the disk field is set; every other request is unchanged; it must sleep exactly if fewer than three descriptors are free |
| `Virtio.Disk.Intr` | xv6-riscv/kernel/virtio_disk.c:295-327 | clears the disk field for exactly the requests the device has completed, across index wrap; its panic is unreachable |
| `Virtio.Disk.FreeChain` | xv6-riscv/kernel/virtio_disk.c:186-197 | frees the three descriptors of the chain without meeting either panic of free_desc |
| `Virtio.Disk.Finish` | xv6-riscv/kernel/virtio_disk.c:283-289 | once the disk field is 0 the chain and only it is retired |
| `VirtioRuns.RunConserves` | xv6-riscv/kernel/virtio_disk.c:156-327 | the driver and ring invariant, and conservation of descriptors, at every point of every interleaving with the device |
| `VirtioRuns.ClearedOnlyWhenCompleted` | xv6-riscv/kernel/virtio_disk.c:267-327 | on every run, a buffer's disk field is 0 during its request only if the device completed that very chain |
| `VirtioData.RequestIsDone` | xv6-riscv/kernel/virtio_disk.c:216-292 | on every interleaving of requests with a device that follows the descriptors it finds: when a request's disk field is 0 again, buffer and disk hold the same block, for a write what the buffer held when the request was made, for a read what the disk held |
| `ShellModel.ParseLine` | xv6-riscv/user/sh.c:346-360 | parsing terminates on every input and never moves the cursor back or past the end |
| `Shell.Parser.NextToken` | xv6-riscv/user/sh.c:267-309 | the scanner, loop by loop, gives the token of the grammar |
| `Shell.Parser.TakeRedirs` | xv6-riscv/user/sh.c:376-398 | parseredirs in place against the grammar, with its panic |
| `Shell.Parser.TakeArgs` | xv6-riscv/user/sh.c:430-446 | the argument loop against the grammar, with both panics and MAXARGS |
| `Shell.Parser.TakeLine` | xv6-riscv/user/sh.c:346-360 | parseline in place against the grammar |
| `Shell.Nulterminate` | xv6-riscv/user/sh.c:451-494 | a NUL after every argument and file name, and no other byte changed |
| `ShellParses.TextParses` | xv6-riscv/user/sh.c:329-447 | every line of the shell's language, written down without its parser with words and redirections in any order, any spaces, blocks, and | before & before ;, is read as the command it stands for |
| `ShellSound.ParsedIsText` | xv6-riscv/user/sh.c:329-447 | every line parsecmd accepts is one of that language |
| `ShellSound.ParsesExactly` | xv6-riscv/user/sh.c:329-447 | so parsecmd succeeds exactly on the lines of the language, and whatever way a line is written in it, the command is what that stands for |
| `Shell.Parsecmd` | xv6-riscv/user/sh.c:329-343 | the command the line stands for, or a panic exactly when it is not one of the shell's language, and the line terminated for that command |
| `ShellTokens.StringsAreTokens` | xv6-riscv/user/sh.c:329-343 | after parsecmd every argument and file name is, as a C string, exactly its token of the line |
| `ShellRoundTrip.RoundTrip` | xv6-riscv/user/sh.c:329-447 | every command tree, with at most MAXARGS-1 words a command, is what some line stands for, and parsing that line gives the tree |
| `Grep.MatchHere` | xv6-riscv/user/grep.c:84-95 | true exactly if some prefix of the text (all of it, with $) is in the language of the pattern |
| `Grep.MatchStar` | xv6-riscv/user/grep.c:98-105 | true exactly if some number of the starred character and then the rest match |
| `Grep.Match` | xv6-riscv/user/grep.c:72-81 | true exactly if some substring, at the ends of the text where anchored, is in the language of the pattern |

## Left out

- Log.CrashAtomicity: a one-block write is atomic and the disk does not reorder writes, as the driver waits for each.
- CachedLog.DiskIsLogDisk: up to the first stray release only; what a stray release leaves on the disk later depends on who logs that block next.
- FileSystem.FileSystem.Writei: the block a failed copy left is taken back once, after the call; a later operation that logs the same block would keep those bytes.
- File.ChunkLogsAtMostSeven: for file systems whose bitmap is one block, as mkfs builds them.
- Itable.TableIsCoherent: the inode's size and addresses are one opaque value here; `FileSystem` says what they mean.
- Family.NoLostExit: user memory, open files and the working directory are not part of the process table model.
- Reaping.RoundRobin: no other liveness or fairness is stated.
- FileSystem.FileSystem.Mkfs: the bitmap and the inodes are typed values, as everywhere in `FileSystem`, not bytes of their blocks; the root directory is not part of the state.
- Vm.Vm.Mappages: the kernel's own page table and flushing the TLB are not modelled.
- Uvm.Uvmcopy: user pages have recorded contents, which every page taken from kalloc has.
- UserCopy.Copyout: TRAMPOLINE and TRAPFRAME are not open to user code, as proc_pagetable maps them.
- Umalloc.Umalloc.Malloc: block sizes are not limited to 32 bits; the heap grows upwards, as sbrk's results do.
- Virtio.Disk.Submit: device registers, memory barriers and device errors; a completed request has status 0.
- VirtioData.RequestIsDone: requests under way are for different blocks, as the buffer cache holds a block once; the length fields of descriptors are not modelled.
- ShellSound.ParsesExactly: does not say which of the panics a line outside the language meets; argv arrays are sequences; running commands is not modelled.
- Widths: pipe counters, ring indices and the argument of sbrk wrap as in C; pids, reference counts, noff and sizes do not.
- Sleep-locks and spinlocks as code: a lock is a field naming its holder, and waiting for it is a step that is not enabled.
- Directories, path names, exec, system call entry, traps, console, uart and the other user programs: would add many easy members.
- Kernel boot, assembly and hardware registers.
- uvmfirst, uvmclear and stati: one-line uses of what is modelled.
