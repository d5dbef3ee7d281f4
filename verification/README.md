# xv6, modelled in Dafny

Models of the parts of the xv6 kernel and user programs whose correctness is not plain from
reading them, and proofs about those models. Every file holds one or two modules.

| files | what they model |
|---|---|
| LogDisk, LogRun, Log, LogCalls | log.c: the redo log. LogDisk has commit and recovery as sequences of atomic block writes, LogRun the step relation of whole runs with crashes, Log the loops and fields, proved to put the disk through exactly those states, LogCalls its calls as steps of the runs |
| Bio | bio.c: the LRU ring of buffers, with its pointers |
| Ide | ide.c: the request queue, against memide.c |
| FsImage, Fs | fs.c's bitmap, block lists, readi, writei, itrunc, and file.c's filewrite |
| VmImage, Vm | vm.c's page tables and kalloc.c's free list |
| Sched, ProcTable, SchedStates | proc.c and spinlock.c as a step relation over CPUs, process slots and ptable.lock, the loops over the table, and the states of slots over whole runs |
| Pipe, PipeRun, PipeLocks | pipe.c: the ring with its 32-bit counters, all interleavings of its callers a stretch at a time, and the same with p->lock, ptable.lock and the points between them |
| Malloc | umalloc.c, after section 8.7 of The C Programming Language, second edition (modules FreeList and Malloc) |
| ShellGrammar, ShellParser | sh.c's parser: the grammar on tokens, the characters and the cursor |
| Grep | grep.c's matcher, after chapter 9 of The Practice of Programming |
| Common, Sums | what several modules use; sums over finite maps, for the log's reservations and the allocator's units |

## Results that are not plain agreement

- log.c: with the shipped layout (`nlog = LOGSIZE`, mkfs.c:25) calls within their reservation
  can reach log_write's panic, and, because its test is made before the lock is taken, can even
  put one entry too many; both are impossible exactly when `log.size > LOGSIZE`, but for the
  second also `log.size == 1` (`LogRun.PanicExactly`, `LogRun.OverrunExactly`).
- log.c: commit writes an overrun transaction all the same, over the home block behind the log
  area and before the header. Whole-run safety fails exactly when `2 <= log.size <= LOGSIZE` and
  `log.size < NBUF` (`LogRun.SafetyExactly`, `LogRun.OverrunLoses`). At the shipped size it holds
  because the shipped NBUF equals LOGSIZE: commit of a transaction of NBUF blocks panics in bget
  before its first write (`LogRun.CommitPanicsExactly`), and so does one with a larger log. For
  the same reason lh.n never passes LOGSIZE, which calls beyond their reservation would reach
  with one buffer more (`LogRun.OverflowExactly`).
- file.c: filewrite sizes its chunks by LOGSIZE, not by MAXOPBLOCKS; every full chunk logs more
  different blocks than its begin_op reserved (`Fs.ChunkLeaves`, `Fs.FirstChunkLogs`).
- proc.c: kill marks init like any other process and so leads it to exit(), which panics for it
  (`Sched.InitExits`, `Sched.InitDies`).
- proc.c: kill also finds free slots, by the pid 0 or one left there by a failed fork, and
  allocproc does not clear the mark, so the next process in the slot is born killed
  (`Sched.KilledSince`, `Sched.BornKilled`).
- pipe.c: a killed writer that fills the ring returns without waking the readers; this is the
  only way a wakeup is lost (`PipeLocks.MissedExactly`, `PipeLocks.KillLosesWakeup`).
- pipe.c and proc.c: a kill that falls between the test of `killed` and sleep's taking of
  ptable.lock leaves the killed process asleep; this is the only way one is
  (`PipeLocks.CaughtExactly`, `PipeLocks.KilledLeftAsleep`).
- vm.c: deallocuvm's jump over a missing page table goes 1024 pages from wherever it stands, so
  it can pass over mapped pages of a later table (`Vm.StrideMisses`), exactly in the case
  `VmImage.PassesOver` names. With user pages `[0, sz)`, and in freevm, it never does
  (`VmImage.FreesAll`, `VmImage.FreesWhole`).
- vm.c: allocuvm ignores a failed mappages. A frame is lost exactly when the free frames run out
  at a page table, and when it was the last page's the new size is returned with that page
  missing (`Vm.Vm.Allocuvm`, `Vm.LosesAFrame`); setupkvm and copyuvm leak in the same case
  (`Vm.Vm.Setupkvm`, `Vm.Vm.Copyuvm`).
- ide.c: a read that the status register reports as failed still marks the buffer valid, so
  iderw returns with whatever the buffer held; that is the only way it differs from memide's
  (`Ide.ReturnsAsSync`).

## How the models read the source

- Integers are unbounded except where the source's width matters: the pipe counters wrap at
  2^32, readi and writei test for 32-bit overflow, page-table entries and indirect blocks are
  32-bit words. Addresses of the storage allocator are counted in its 8-byte units.
- A panic is a result of the operation (`ok == false`, or a case of its result type).
- A sleep ends an operation's stretch under its lock; the step relations resume it. LogRun,
  PipeRun, Sched and Ide interleave such stretches in every order. A critical section that does
  not sleep is one step. A swtch and each disk write are steps of their own. In PipeLocks the
  two locks and the points of sleep and wakeup between them are steps too, and a kill may come
  at any point at which ptable.lock is free; what a stretch does under p->lock alone is one
  step, since a kill in the middle of it shows only in its one test of `killed`.
- The disk carries out a block write entirely or not at all. Home blocks lie outside the log
  area, as fs.h lays the disk out.
- In LogRun and Log the buffer cache is what log.c sees of it: NBUF buffers, of which a dirty or
  busy one is not given to another block, so that bread panics when none is left. A log_write is
  two steps, its tests and its append, between which its call holds the buffer. A store past the
  end of lh.block ends the run: nothing is said about what comes after it.
- In Sched, callers keep proc.c's own rules: sleep is called with one other spinlock held,
  yield, exit and wait with none. An exit of init is a panic and takes no further step. Spinlocks
  are taken at once; spinning has no effect but time.
- In Bio and Ide, clients change only busy buffers, and call log_write or bwrite before brelse.
- What comes from outside is a parameter: whether kalloc's callers find a frame follows from the
  free list, sbrk's answer and the disk's read status are arguments, kill is an action of the runs.

## Model

| member | source | states |
|---|---|---|
| LogDisk.CrashAtomicity | COL331/HW1/xv6/log.c:67-121 | commit stopped after any k block writes, then any number of recoveries each stopped anywhere, then one that finishes: the header on disk is empty and every home block is as before the transaction (k up to the header write) or as after it (from the header write on) |
| LogDisk.CommitCrash | COL331/HW1/xv6/log.c:173-199 | what the disk means after any prefix of commit's writes: the old home blocks up to and with the last log block, the whole transaction from the header write on |
| LogDisk.CommitStep | COL331/HW1/xv6/log.c:189-199 | commit is, write by write, the log blocks in order, the header, the home blocks in order, the empty header; one block each |
| LogDisk.CommitGoes | COL331/HW1/xv6/log.c:173-199 | with bread and its buffers: commit's first write goes through if and only if fewer blocks are pinned than there are buffers, and then every later one does, and each is the next write of a commit; for a transaction the log area has room for |
| LogDisk.CommitCompletes | COL331/HW1/xv6/log.c:189-199 | a commit that is not interrupted leaves an empty header and every block of the transaction at home |
| LogDisk.RecoveryCrash | COL331/HW1/xv6/log.c:67-121 | a crash after any number of recovery's writes leaves the meaning of the disk unchanged, so recovery can be repeated |
| LogDisk.RecoverGoes | COL331/HW1/xv6/log.c:67-121 | with bread and its buffers: every write of a recovery goes through and is the next one of RecoveryCrash's |
| LogDisk.RecoverInstalls | COL331/HW1/xv6/log.c:114-121 | a completed recovery puts every block's meaning at home and empties the header |
| LogDisk.InterruptedMeaning | COL331/HW1/xv6/log.c:114-121 | any sequence of interrupted recoveries keeps the meaning of the disk |
| LogRun.WholeRunSafety | COL331/HW1/xv6/log.c:123-230 | from any disk whose log header can be loaded, as an earlier crash may have left it, for every interleaving of begin_op, log_write (any number of them a call), end_op, commits and crashes at single writes, in which no commit writes a transaction of log.size or more blocks: the recovered home blocks are a prefix of the history applied to the original disk, recovered; no call is cut in two by that prefix, and every group whose commit returned is in it |
| LogRun.SafetyExactly | COL331/HW1/xv6/log.c:142-230 | safety of every run, and of every run whose calls keep to MAXOPBLOCKS log_writes: both hold if and only if not (2 <= log.size <= LOGSIZE and log.size < NBUF) |
| LogRun.OverrunLoses | COL331/HW1/xv6/log.c:173-187 | for each of those sizes a run, its calls within their reservations, in which commit overwrites the block behind the log area before it writes the header, and after whose crash and recovery the home blocks equal no prefix of the history |
| LogRun.AlwaysFits | COL331/HW1/xv6/log.c:142-171 | with log.size > LOGSIZE, log.size == 1 or log.size >= NBUF, no commit of any run writes a transaction that does not fit, however many log_writes its calls make; so WholeRunSafety holds of every run |
| LogRun.AllOrNothing | COL331/HW1/xv6/log.c:142-171 | in every run, overrun commits included: a write inside the durable prefix of the history belongs to a call whose end_op also lies in that prefix, so a call's updates count entirely or not at all |
| LogRun.ReadsAreCurrent | COL331/HW1/xv6/log.c:201-230 | in every run whose commits fit: outside of commits the pinned buffer, or else the disk, holds the result of every write so far |
| LogRun.BooksKept | COL331/HW1/xv6/log.c:123-140 | a log_write inside its call's reservation, and every other step, keeps lh.n plus the unused reservations within LOGSIZE |
| LogRun.StepKeeps | COL331/HW1/xv6/log.c:123-230 | every step, crashes and overrun commits included, keeps outstanding, the shape of the history and the header loadable; and every step but a write of a commit that does not fit keeps what the disk means |
| LogRun.RunShape | COL331/HW1/xv6/log.c:123-230 | every state of every run has the first invariant, and the reservation books too if its calls keep to MAXOPBLOCKS log_writes |
| LogRun.RunKeeps | COL331/HW1/xv6/log.c:123-230 | every state of a run whose commits fit, from any disk with a loadable log header, has both invariants |
| LogRun.CommitPanicsExactly | COL331/HW1/xv6/bio.c:59-96 | in every run, commit of a non-empty transaction gets its first buffers if and only if lh.n < NBUF; otherwise bget panics before anything is written |
| LogRun.NeverStuck | COL331/HW1/xv6/log.c:67-121 | in a run whose commits fit: a crashed machine can load its header, recovery always has a next write, and so has a commit with lh.n < log.size and lh.n < NBUF |
| LogRun.PanicExactly | COL331/HW1/xv6/log.c:215-218 | calls that keep to MAXOPBLOCKS log_writes can reach a panic of log_write if and only if log.size <= LOGSIZE (mkfs makes it equal, mkfs.c:25) |
| LogRun.OverrunExactly | COL331/HW1/xv6/log.c:215-227 | because the size test comes before the lock, two calls can take the last slot: calls that keep to MAXOPBLOCKS log_writes can bring lh.n past log.size - 1 if and only if 2 <= log.size <= LOGSIZE |
| LogRun.OverflowExactly | COL331/HW1/xv6/log.c:215-227 | for calls of any number of log_writes: lh.n can pass LOGSIZE, so that lh.block is written past its end, if and only if log.size >= LOGSIZE and NBUF > LOGSIZE (the shipped NBUF is LOGSIZE) |
| Log.Log.WriteLog | COL331/HW1/xv6/log.c:173-187 | for a transaction of any length: the loop copies the pinned blocks to the blocks behind the header, in order, through exactly the disks of that many writes, and stops early exactly where bread has no block or no buffer |
| Log.Log.WriteHead | COL331/HW1/xv6/log.c:97-112 | writes n and the n block numbers over the old header words and keeps the rest; nothing changes exactly when there is no buffer for it |
| Log.Log.InstallTrans | COL331/HW1/xv6/log.c:67-81 | for a transaction of any length: copies log blocks home in order, through exactly the disks of that many writes, and stops early exactly where bread has no block or no buffer |
| Log.Log.Commit | COL331/HW1/xv6/log.c:189-199 | for a transaction of any length: the disk passes through commit's writes in order and no other, all of them or up to the first that has no block or no buffer; one that fits, with a buffer to spare, ends with an empty log and nothing pinned |
| Log.Log.RecoverFromLog | COL331/HW1/xv6/log.c:83-121 | from any header the array can take: reads it into memory, replays and clears it; the disk passes through recovery's writes in order and no other, all of them if the header fits the log |
| Log.Log.BeginOp | COL331/HW1/xv6/log.c:123-140 | admits a call exactly when no commit runs and the worst case of one more call fits the log |
| Log.Log.EndOp | COL331/HW1/xv6/log.c:142-171 | commits exactly when the last call leaves, whatever the size of the transaction; panics exactly when a commit is under way or its commit has no block or no buffer |
| Log.Log.LogWrite | COL331/HW1/xv6/log.c:201-230 | the two panics in their order; otherwise the block is pinned and gets one entry, the old one if it had one |
| LogCalls.BeginCall | COL331/HW1/xv6/log.c:123-140 | begin_op is let in exactly when the runs can take its step, and then takes it: the fields are those of the run's state |
| LogCalls.WriteCall | COL331/HW1/xv6/log.c:201-230 | log_write makes the runs' two steps of it, its tests and its append, or its panic exactly when they cannot take the first |
| LogCalls.EndCall | COL331/HW1/xv6/log.c:142-199 | end_op makes its step and, as the last call out, commit's writes as one step each and the step that ends it; if commit stops, so does the run, there |
| LogCalls.RecoverCall | COL331/HW1/xv6/log.c:83-121 | recover_from_log after a crash makes the runs' steps of a recovery, one for each write, to the end or to where both stop |
| Bio.Bcache.constructor | COL331/HW1/xv6/bio.c:39-57 | the ring holds every buffer once, the last first, and no buffer holds a block |
| Bio.Bcache.Bget | COL331/HW1/xv6/bio.c:59-96 | a cached block's buffer, made busy, if it is free, else a wait; otherwise, of the buffers neither busy nor dirty, the one released longest ago, emptied; a panic exactly when there is none. No dirty buffer is taken and no two buffers hold one block |
| Bio.Bcache.Bread | COL331/HW1/xv6/bio.c:98-109 | the buffer returned holds the bytes last released for the block; dirty and busy buffers of other blocks are untouched; it waits or panics for want of a buffer exactly when bget does, and otherwise panics exactly when the disk has no such block |
| Bio.Bcache.Bwrite | COL331/HW1/xv6/bio.c:111-119 | the buffer's bytes are on the disk and it is clean; a panic exactly when it is not busy |
| Bio.Bcache.Brelse | COL331/HW1/xv6/bio.c:121-142 | the buffer's bytes become those last released for its block and it moves to the front of the ring, all others keeping their order; a panic exactly when it is not busy |
| Bio.Bcache.Edit | COL331/HW1/xv6/bio.c:6-14 | a client changes the data of the buffer it holds; the disk, the other buffers and what was last released stay as they were |
| Bio.Bcache.MarkDirty | COL331/HW1/xv6/log.c:228-228 | the pin of log_write: the buffer counts as dirty from here on |
| Bio.Bcache.Iderw | COL331/HW1/xv6/memide.c:34-59 | a dirty buffer goes to the disk, else the block comes to the buffer, and afterwards they agree; a panic, with nothing changed, exactly on a buffer that is not busy, has nothing to do or names a block that is not there |
| Bio.ReleaseRing | COL331/HW1/xv6/bio.c:131-136 | brelse's six pointer writes turn the doubly linked ring a, b, c into b, a, c and change no buffer otherwise |
| Bio.ReleaseOrder | COL331/HW1/xv6/bio.c:121-142 | the ring stays in order of last release |
| Bio.OneBuf | COL331/HW1/xv6/bio.c:98-142 | changing one buffer, and the disk at its block, keeps blocks in at most one buffer and every other buffer faithful to the disk |
| Bio.Recycled | COL331/HW1/xv6/bio.c:83-94 | giving a clean, free buffer to a block no buffer holds loses nothing: the disk has what was last released |
| Ide.Driver.Iderw | COL331/HW1/xv6/ide.c:129-163 | iderw up to its first sleep: the walk along qnext appends the buffer, the disk is started exactly when it was idle; a panic exactly on a buffer not busy, with nothing to do or for a missing second disk, or, with an idle disk, on a block out of range |
| Ide.Driver.Ideintr | COL331/HW1/xv6/ide.c:98-127 | the head leaves the queue up to date and the next request starts; if the head was a write, its bytes are at block blockno of drive dev mod 2, and the disk is otherwise as before; a spurious interrupt changes nothing; a panic exactly when the next request is for a block out of range |
| Ide.InOrder | COL331/HW1/xv6/ide.c:98-163 | for every interleaving, failed reads included: queued buffers are distinct and busy, the controller has the request of the head and no other, and one whenever the queue is not empty, and requests finish in the order they came |
| Ide.ReturnsAsSync | COL331/HW1/xv6/ide.c:113-163 | in every run, when iderw can return, its request has been carried out; the buffer is what memide's iderw makes of the buffer at the call and the disk at that moment if and only if the request was a write, its completion reported no error, or the buffer held the block's bytes already |
| Ide.DiskAsSync | COL331/HW1/xv6/memide.c:34-59 | in every run the disk changes only when a request is carried out, and then as memide's iderw changes it for the buffer of that call |
| Ide.ReadsLastWrite | COL331/HW1/xv6/ide.c:70-163 | in every run, when iderw can return: a read without error has the bytes of the last write to the same block of the same drive (dev mod 2) among the calls made before it, or, if there was none, those the disk began with; a write, and a read with an error, has the bytes it was called with |
| Ide.DiskFollows | COL331/HW1/xv6/ide.c:84-95 | in every run each block of the disk holds the bytes of the last write to it among the requests completed so far, or those it began with |
| FsImage.BitChanges | COL331/HW1/xv6/fs.c:63-65 | the byte-and-mask updates of the bitmap change the bit of one block and no other |
| FsImage.WordSet | COL331/HW1/xv6/fs.c:374-377 | a 32-bit word written into an indirect block reads back, and the other words stay |
| FsImage.GivenInv | COL331/HW1/xv6/fs.c:356-384 | a free block put into an empty slot keeps every block owned by exactly one slot and every bit set exactly for metadata and owned blocks |
| FsImage.GivenBytes | COL331/HW1/xv6/fs.c:52-75 | allocating and zeroing a block changes no byte of any file |
| FsImage.PatchedBytes | COL331/HW1/xv6/fs.c:479-485 | writing into the block of one entry changes those bytes of that file and no byte of any file else |
| FsImage.WroteContents | COL331/HW1/xv6/fs.c:479-491 | after the blocks and the size are written, the file reads as overwritten and every other file as before |
| FsImage.TruncInv | COL331/HW1/xv6/fs.c:391-419 | clearing exactly the bits of the blocks a file owned leaves ownership and bitmap in step and the other files as they were |
| Fs.Fs.Balloc | COL331/HW1/xv6/fs.c:52-75 | the first free block, marked and zeroed; a panic exactly when no block is free |
| Fs.Fs.Bfree | COL331/HW1/xv6/fs.c:77-93 | clears that bit; a panic exactly when it is clear already |
| Fs.Fs.Bmap | COL331/HW1/xv6/fs.c:354-384 | the block of entry bn across the direct and indirect lists, allocated if absent, with the indirect block if need be; ownership stays exact, no slot loses its block and no file changes; a panic if and only if bn is out of range or fewer blocks are free than are missing; the exact number of log_write calls |
| Fs.Fs.Itrunc | COL331/HW1/xv6/fs.c:386-419 | frees exactly the blocks the inode owned, none twice (the panic of bfree is not reached), leaves it empty and the other files as they were |
| Fs.Fs.Readi | COL331/HW1/xv6/fs.c:432-458 | -1 exactly past the end or on 32-bit overflow; else the slice of the file from off, of n bytes or to the end; nothing changes |
| Fs.Fs.Writei | COL331/HW1/xv6/fs.c:460-492 | -1, with nothing changed, exactly past the end, on overflow or past the largest file; else bytes [off, off+n) are replaced, the size grows to at least off+n, and no other file changes; a panic if and only if fewer blocks are free than those bytes lack, indirect block included, and the free count falls by exactly that many; and the exact number of log_write calls: two for a block allocated, one more for an entry of the indirect block, one for a block written, one if the file grows |
| Fs.Fs.Filewrite | COL331/HW1/xv6/file.c:116-152 | -1 for a negative n or an unwritable file; else the bytes written are there as if by one write and f->off has moved on by them: all n if the largest file can hold them, else the whole chunks that it can, and -1; a panic if and only if fewer blocks are free than those bytes lack |
| Fs.ChunkLeaves | COL331/HW1/xv6/file.c:132-142 | a full chunk of filewrite lies in at least 13 different blocks of the file, all of them logged, and MAXOPBLOCKS is 10: every full chunk leaves its reservation |
| Fs.FirstChunkLogs | COL331/HW1/xv6/fs.c:460-492 | the first chunk of an empty file makes 43 log_write calls |
| VmImage.WithTableDenotes | COL331/HW1/xv6/vm.c:45-65 | a new page table changes nothing that any directory denotes |
| VmImage.WithPteDenotes | COL331/HW1/xv6/vm.c:81-83 | a write of one entry changes what is denoted at that page of that directory and nowhere else |
| VmImage.PageInv | COL331/HW1/xv6/vm.c:78-84 | mapping a frame in hand to a free user page keeps every frame owned by exactly one slot or free |
| VmImage.UnpageInv | COL331/HW1/xv6/vm.c:263-270 | freeing a user page and clearing its entry keeps every frame owned by exactly one slot or free |
| VmImage.PassesOver | COL331/HW1/xv6/vm.c:258-262 | deallocuvm's loop passes over a page that has a page table if and only if it began in the middle of a missing table, at a higher place in it, with no table in between |
| VmImage.FreesAll | COL331/HW1/xv6/vm.c:249-273 | with user pages exactly [0, sz), the pages of the range are freed exactly, despite the stride |
| VmImage.FreesWhole | COL331/HW1/xv6/vm.c:284-284 | from page 0 the stride passes over nothing, whatever is mapped |
| Vm.Vm.constructor | COL331/HW1/xv6/kalloc.c:45-52 | every frame of the range is on the free list once |
| Vm.Vm.Kalloc | COL331/HW1/xv6/kalloc.c:79-95 | the first frame of the list, now owned by nobody else; 0 exactly when the list is empty |
| Vm.Vm.Walk | COL331/HW1/xv6/vm.c:42-65 | the page table of the page, created only if asked and from a free frame; what every directory denotes is unchanged |
| Vm.Vm.Mappages | COL331/HW1/xv6/vm.c:67-90 | on success every directory denotes what it did, but for the pages of the range, mapped in turn to consecutive frames, each byte of [va, va+size) thus by its page; it fails exactly when there are fewer free frames than page tables missing, with a prefix mapped; it panics exactly on a page mapped already |
| Vm.Vm.Deallocuvm | COL331/HW1/xv6/vm.c:245-273 | the visited pages of the range, and they alone, are unmapped and their frames freed once each; the page of every byte below newsz is as before, with its bytes; if the user pages were those of bytes [0, size), for any size, they now are those but for the pages that begin in [newsz, oldsz); the panic of kfree is not reached |
| Vm.Vm.Freevm | COL331/HW1/xv6/vm.c:275-292 | every user frame, page table and the directory go to the free list once each; no other frame changes hands and no other directory changes |
| Vm.Vm.Setupkvm | COL331/HW1/xv6/vm.c:127-144 | a new directory that maps exactly the kernel's ranges and no user page, exactly when there are free frames for it and its page tables; otherwise 0, and a directory already taken is left behind |
| Vm.Vm.Allocuvm | COL331/HW1/xv6/vm.c:218-243 | for user pages of bytes [0, oldsz): all pages of bytes [0, newsz) and no others, those that begin at oldsz or above zeroed and in frames nobody had, the rest as before, exactly when there are free frames for them and their page tables; else the pages as before and 0; a frame is lost if and only if the free frames run out at a page table, and newsz is then returned with the last page missing if and only if that was the last page's table |
| Vm.Vm.Copyuvm | COL331/HW1/xv6/vm.c:307-337 | for every byte of [0, sz) the child's page has the parent's bytes and flags, in a frame no one had, the child has no other user page and the parent is untouched, exactly when the free frames suffice; on failure every frame is given back, if and only if the frames did not run out at a page table; a panic if and only if a page of the parent is missing and the frames suffice for the pages before it |
| Vm.LosesAFrame | COL331/HW1/xv6/vm.c:232-241 | two free frames, setupkvm, allocuvm of one page: the result is the new size, the page is not mapped and a frame is lost |
| Vm.StrideMisses | COL331/HW1/xv6/vm.c:245-273 | a directory made by setupkvm with only page 1024 mapped: deallocuvm from page 1 up reports success and leaves the page mapped |
| Vm.GrownBack | COL331/HW1/xv6/vm.c:234-238 | allocuvm's deallocuvm after a failure restores the user pages exactly |
| Sched.SchedulerExclusion | COL331/HW1/xv6/proc.c:266-326 | in every run, whenever ptable.lock is free, a process is RUNNING if and only if it is some CPU's current process, of exactly one CPU, and that CPU is on its kernel stack |
| Sched.NoPanic | COL331/HW1/xv6/proc.c:300-316 | no step of any run meets a panic condition of release, popcli or sched: whoever resumes in sched or forkret holds the lock on its own CPU, with ncli 1 and interrupts off |
| Sched.AcquireNeverPanics | COL331/HW1/xv6/spinlock.c:24-40 | in every state of every run, wherever code may try to take ptable.lock, free or not, its CPU does not hold it: the scheduler at the top of its loop, a process outside proc.c's critical sections, and any interrupt handler |
| Sched.InitExits | COL331/HW1/xv6/proc.c:169-179 | in every run init is marked killed if and only if some kill() of the run found its slot, and only then can it come to the exit() of a killed process, which panics |
| Sched.InitDies | COL331/HW1/xv6/proc.c:410-429 | a run from boot in which init kills itself and comes to exit()'s panic |
| Sched.KilledExactly | COL331/HW1/xv6/proc.c:410-429 | a step marks a slot killed exactly if it is a kill() that finds its pid there, in use or free, and unmarks it exactly if it is the wait() that frees it; allocproc does not |
| Sched.KilledSince | COL331/HW1/xv6/proc.c:36-70 | over every run: a slot is marked if and only if a kill() found it since it was last freed, so a process is born killed exactly if its slot was found while it was free |
| Sched.BornKilled | COL331/HW1/xv6/proc.c:128-165 | a run from boot in which kill(0) finds the free slot and the child that fork then makes in it is born killed |
| Sched.WaitFreesIdleStack | COL331/HW1/xv6/proc.c:216-255 | when wait frees a zombie's kernel stack, no CPU is on that stack or has that process as current |
| Sched.NoLostExit | COL331/HW1/xv6/proc.c:169-255 | in every state of every run, no process asleep in wait has a zombie child, and every started process but init has a parent that is neither free, new nor a zombie |
| Sched.FlagComesBack | COL331/HW1/xv6/spinlock.c:92-116 | when a thread lets go of its last lock, the interrupt flag is the one it had when it took its first, on whichever CPU and after however many swtches |
| Sched.FlagIsOwn | COL331/HW1/xv6/proc.c:313-315 | the flag so restored is recorded only at a thread's first lock and at its very first start |
| Sched.StepKeeps | COL331/HW1/xv6/proc.c:128-429 | every step of every CPU and process keeps the invariant of lock, stacks, CPUs, parents and waiters |
| Sched.Exited | COL331/HW1/xv6/proc.c:194-211 | exit's wakeups and re-parenting leave no waiter with a zombie child and no child with a dead parent |
| ProcTable.Table.Wakeup1 | COL331/HW1/xv6/proc.c:389-397 | the loop makes RUNNABLE exactly the processes asleep on the channel and changes nothing else |
| ProcTable.Table.Exit | COL331/HW1/xv6/proc.c:194-211 | the caller is a ZOMBIE, its children are init's, and another slot is woken exactly if it slept on the caller's parent, or on init with a zombie among those children; nothing else changes; this is the table the step relation uses |
| ProcTable.Table.Wait | COL331/HW1/xv6/proc.c:222-253 | the first zombie child is freed (UNUSED, pid 0, no parent, stack or mark) and its pid returned; nobody to wait for exactly when there is no child or the caller was killed; else a sleep |
| ProcTable.Table.Kill | COL331/HW1/xv6/proc.c:411-429 | the first slot with that pid is marked, RUNNABLE if it slept and otherwise in the state it was in; no other slot changes; 0 exactly when there is such a slot |
| ProcTable.Table.Alloc | COL331/HW1/xv6/proc.c:40-50 | the first free slot becomes an embryo with the next pid; none exactly when no slot is free |
| SchedStates.StateMoves | COL331/HW1/xv6/proc.c:35-429 | for every step of every CPU and every slot: exactly when the slot is SLEEPING, RUNNABLE, RUNNING, ZOMBIE, EMBRYO and UNUSED afterwards, by the operation the step is part of |
| SchedStates.AsleepExactly | COL331/HW1/xv6/proc.c:351-406 | after a step a slot sleeps on ch if and only if it went to sleep on ch in that step, or slept on ch before and the step neither wakes ch nor is a kill() that finds the slot |
| SchedStates.SleepsUntil | COL331/HW1/xv6/proc.c:351-429 | over every run: a slot sleeps on ch if and only if it was put to sleep on ch and no wakeup of ch and no kill() that found it has come since |
| SchedStates.SleeperUnhit | COL331/HW1/xv6/proc.c:411-429 | in every run from boot a SLEEPING slot, marked killed or not, went to sleep after the last kill() that found it, and sleeps on a channel not woken since |
| SchedStates.OnePerPid | COL331/HW1/xv6/proc.c:45-48 | in every run no two slots have the same pid other than 0, free slots with the pid of a failed fork included |
| Pipe.CountersTell | COL331/HW1/xv6/pipe.c:84-84 | the wrapping 32-bit counters tell a full ring from an empty one for every fill from 0 to 512 |
| Pipe.WrappedPlace | COL331/HW1/xv6/pipe.c:92-92 | a counter that wrapped still points at its place: 512 divides 2^32 |
| Pipe.Pipe.WriteSome | COL331/HW1/xv6/pipe.c:82-97 | from its loop to its next sleep or return, pipewrite appends as many bytes as fit, in order; how it ends and whether it woke the readers |
| Pipe.Pipe.ReadSome | COL331/HW1/xv6/pipe.c:104-120 | piperead sleeps exactly on an empty open pipe, else takes the first bytes, n or all there are, in order, and wakes the writers |
| Pipe.Pipe.Close | COL331/HW1/xv6/pipe.c:58-74 | closes that end, wakes the other side; the pipe is freed exactly when both ends are closed |
| PipeRun.FirstInFirstOut | COL331/HW1/xv6/pipe.c:76-120 | any number of readers and writers, any interleaving of their stretches, kills included: bytes read plus at most 512 in between are the bytes written, in order; each call's bytes are stored in order, all of them if it returns its count; each read is consecutive |
| PipeRun.EndOfFile | COL331/HW1/xv6/pipe.c:104-120 | a read that returns 0 means the write end is closed, everything sent has been read, and nothing is sent afterwards |
| PipeRun.ReadReturned | COL331/HW1/xv6/pipe.c:99-120 | for every read of every run that returned a count there is the stretch at which it did: it took the first n bytes then in the pipe, or all if they were fewer, and none only from an empty pipe with its write end closed |
| PipeRun.WriteStores | COL331/HW1/xv6/pipe.c:76-97 | in every run a write's stretch stores what is left of its bytes or what there is room for of 512, in order, and returns, fails, sleeps and wakes exactly as the source has it |
| PipeRun.Step | COL331/HW1/xv6/pipe.c:58-120 | the methods of the ring make exactly the steps of the runs: done on a pipe that shows the state, each leaves one that shows the next |
| PipeLocks.StepInv | COL331/HW1/xv6/proc.c:351-429 | every step under p->lock and ptable.lock keeps who holds which lock, what each call has decided by where it is, and an end that is being closed unused |
| PipeLocks.StepRefines | COL331/HW1/xv6/pipe.c:58-120 | every such step, wakeup, kill and the halves of sleep included, is a step of the relation over whole stretches or invisible to it |
| PipeLocks.Refines | COL331/HW1/xv6/pipe.c:58-120 | every run under the two locks is a run of whole stretches |
| PipeLocks.FirstInFirstOut | COL331/HW1/xv6/pipe.c:76-120 | first in, first out, for every run under the two locks |
| PipeLocks.EndOfFile | COL331/HW1/xv6/pipe.c:104-120 | for every run under the two locks, a read that returns 0 means the write end is closed, everything sent has been read, and nothing is sent afterwards |
| PipeLocks.ReadReturned | COL331/HW1/xv6/pipe.c:99-120 | the same for every read of every run under the two locks |
| PipeLocks.RunStretch | COL331/HW1/xv6/pipe.c:58-120 | the methods of the ring make exactly the stretches of the runs under the two locks |
| PipeLocks.NoLostWakeup | COL331/HW1/xv6/proc.c:360-383 | in every run without kill, whenever p->lock is free or its holder is not about to wake them, no reader sleeps on a non-empty or write-closed pipe and no writer on a non-full or read-closed one; and a reader and a writer are never both stuck: with both locks free some call is runnable |
| PipeLocks.MissedExactly | COL331/HW1/xv6/pipe.c:84-91 | a step under the two locks, kills included, loses a wakeup if and only if it is the stretch of a killed writer with more than 512 bytes left, which fills the ring and returns -1 while an unkilled reader waits |
| PipeLocks.NoneLostUnless | COL331/HW1/xv6/pipe.c:82-119 | in every run with any kills in which no such step occurs, whoever sleeps, is not killed and has no wakeup coming has nothing to do |
| PipeLocks.KillLosesWakeup | COL331/HW1/xv6/pipe.c:85-88 | a run that ends with both locks free, every writer returned and a reader asleep on a full pipe |
| PipeLocks.CaughtExactly | COL331/HW1/xv6/proc.c:411-429 | a killed process comes to be asleep, or bound to be, if and only if the kill falls between its test of killed and sleep's taking of ptable.lock |
| PipeLocks.FreedExactly | COL331/HW1/xv6/proc.c:389-424 | such a process is freed if and only if it is asleep and the wakeup of its side or another kill comes |
| PipeLocks.KilledWakes | COL331/HW1/xv6/proc.c:411-429 | in every run without a kill in that window, no killed process is ever asleep |
| PipeLocks.KilledLeftAsleep | COL331/HW1/xv6/pipe.c:105-111 | a run that ends with both locks free and a killed reader asleep on an empty pipe nobody else uses |
| FreeList.InsertCoalesced | COL331/HW1/xv6/umalloc.c:33-42 | inserting a block with its joins keeps the list ordered, disjoint and without touching neighbours |
| FreeList.InsertCovers | COL331/HW1/xv6/umalloc.c:33-42 | it adds exactly the units of the block |
| FreeList.TakeCoalesced | COL331/HW1/xv6/umalloc.c:75-82 | taking a block, or its end, keeps the list ordered, disjoint and coalesced |
| FreeList.TakeCovers | COL331/HW1/xv6/umalloc.c:75-82 | it removes exactly the units handed out |
| FreeList.Canonical | COL331/HW1/xv6/umalloc.c:24-44 | a coalesced list is determined by the units it covers, so the order of the frees leaves no trace |
| Malloc.LinkInsert | COL331/HW1/xv6/umalloc.c:33-42 | free's header writes turn the circular linked list into that of the list with the block inserted |
| Malloc.Conservation | COL331/HW1/xv6/umalloc.c:46-90 | free units plus units in use equal the units obtained from sbrk |
| Malloc.BooksFree | COL331/HW1/xv6/umalloc.c:24-44 | freeing moves the block's units from in use to free and keeps every unit in exactly one place |
| Malloc.BooksTake | COL331/HW1/xv6/umalloc.c:74-85 | handing out moves units from free to in use and keeps every unit in exactly one place |
| Malloc.BooksGrow | COL331/HW1/xv6/umalloc.c:52-59 | memory from sbrk is new, and in exactly one place |
| Malloc.RunInOne | COL331/HW1/xv6/umalloc.c:46-61 | a run of free units lies in one free block |
| Malloc.Units | COL331/HW1/xv6/umalloc.c:69-69 | the units asked for hold a header and nbytes, with less than one unit to spare |
| Malloc.Allocator.Place | COL331/HW1/xv6/umalloc.c:30-32 | free's walk around the circle ends, from any freep, at the one place for the block |
| Malloc.Allocator.Free | COL331/HW1/xv6/umalloc.c:24-44 | the block goes back, joined with both neighbours it touches; the list stays circular, ordered with one wrap, and coalesced; freep is the last list block below it |
| Malloc.Allocator.MoreCore | COL331/HW1/xv6/umalloc.c:46-61 | 4096 units, or nu if that is more, join the list at the top, and some free block then has nu; freep is the last list block below them; nothing changes when sbrk refuses |
| Malloc.Allocator.Seek | COL331/HW1/xv6/umalloc.c:74-86 | one turn around the circle ends and finds, with its predecessor, the first block after freep of that size, if and only if there is one |
| Malloc.Allocator.Carve | COL331/HW1/xv6/umalloc.c:75-84 | the whole block or its last units go to the caller, disjoint from every free and every live block; freep is the list block before it |
| Malloc.Allocator.Malloc | COL331/HW1/xv6/umalloc.c:63-90 | ends, restart after morecore included; the block is large enough and nobody else's: the last units of the first block after freep that fits, or, exactly when none does, of the memory newly obtained, which is 4096 units or what was asked if that is more; freep is then the list block before the one it was taken from; 0 exactly when no free block is large enough and sbrk refuses |
| ShellGrammar.RoundTrip | COL331/HW1/xv6/sh.c:328-447 | parsing the printed form of any tree with at most 9 words per exec node gives the tree back, with nothing left over |
| ShellGrammar.Trees | COL331/HW1/xv6/sh.c:416-447 | a tree is some parse's result if and only if every exec node has at most 9 words |
| ShellGrammar.ExecItems | COL331/HW1/xv6/sh.c:375-447 | a simple command with its words and redirections in any order is the exec node of the words, in order, inside the redirections, in order, the last outermost, written for > and >>; with ten words or more it is the panic |
| ShellGrammar.LineKeeps | COL331/HW1/xv6/sh.c:345-447 | the tree holds every word that was read, as often as it was read |
| ShellGrammar.LineMap | COL331/HW1/xv6/sh.c:345-447 | the parser never looks inside a word |
| ShellLexer.LexWords | COL331/HW1/xv6/sh.c:266-309 | every word token is a maximal run of word characters |
| ShellLexer.LexRender | COL331/HW1/xv6/sh.c:266-309 | gettoken cuts any spacing of a token list back into that list |
| Shell.Parser.GetToken | COL331/HW1/xv6/sh.c:266-309 | takes the first token of what is left, with its span, and leaves the rest |
| Shell.Parser.Peek | COL331/HW1/xv6/sh.c:311-321 | tells whether the next token is one of the symbols and moves over white space only |
| Shell.Parser.ParseRedirs | COL331/HW1/xv6/sh.c:375-398 | the loop reads the grammar's redirections, in order, or its panic |
| Shell.Parser.ParseWords | COL331/HW1/xv6/sh.c:430-446 | the loop reads the grammar's arguments and redirections, or its panic |
| Shell.Parser.ParseBlock | COL331/HW1/xv6/sh.c:400-414 | agrees with the grammar on a parenthesised line |
| Shell.Parser.ParseCommand | COL331/HW1/xv6/sh.c:416-447 | agrees with the grammar |
| Shell.Parser.ParsePipe | COL331/HW1/xv6/sh.c:362-373 | agrees with the grammar |
| Shell.Parser.ParseLine | COL331/HW1/xv6/sh.c:345-360 | agrees with the grammar, and the mutual recursion ends on every input |
| Shell.Parser.NulTerminate | COL331/HW1/xv6/sh.c:449-494 | puts a NUL at the end of every word of the tree and changes nothing else |
| Shell.Parser.ParseCmd | COL331/HW1/xv6/sh.c:328-343 | the grammar's tree, in which every word reads as the C string that stood in the line; or the grammar's panic, with the line as it was |
| Shell.Terminated | COL331/HW1/xv6/sh.c:449-494 | clearing the ends of all words leaves each word whole |
| Shell.ShellRoundTrip | COL331/HW1/xv6/sh.c:266-447 | print any tree of valid words, at most 9 per exec node, with any white space that keeps tokens apart: parsecmd's tree spells the same commands |
| Grep.MatchesOne | COL331/HW1/xv6/grep.c:93-94 | a pattern that starts with a character matches here exactly when the first character does and the rest matches behind it |
| Grep.MatchesStar | COL331/HW1/xv6/grep.c:89-90 | a pattern that starts with c* matches here exactly when the rest matches behind some run of c |
| Grep.MatchHere | COL331/HW1/xv6/grep.c:84-96 | true if and only if the pattern's declarative meaning holds at the beginning of the text |
| Grep.MatchStar | COL331/HW1/xv6/grep.c:98-106 | true if and only if the rest matches behind some run of the character |
| Grep.Match | COL331/HW1/xv6/grep.c:72-82 | true if and only if some position of the text, or the first one after ^, satisfies the pattern's meaning |

## Left out

- Directories and paths (dirlookup, dirlink, skipelem, namex), inode cache and inode allocation: they would add members that follow from readi and writei, and a second cache like bio.c's.
- Device inodes, console, traps, system-call argument fetching, exec, boot code and hardware set-up: plumbing settled by reading one branch.
- grep's read loop, which discards partial lines, and printing and string helpers.
- sh.c's runcmd and main, and the run-time meaning of the command tree.
- copyout, loaduvm and inituvm: byte copies through uva2ka and one-page cases of what Mappages states.
- uthread_student.c, sys_dup2 and the JOS lab files.
- Fairness: nothing is claimed about when a runnable process runs, only about which states are reachable.
- Fs.Fs.Filewrite: takes the chunks of one call one after another; other calls on the same file between two chunks are not interleaved.
- Fs.Fs.Writei: works on the current contents of blocks, one call at a time; its log_write calls are counted, not run through LogRun.
- Fs.Fs.Bmap: the in-memory inode and its disk copy are one value; of iupdate only its log_write is counted.
- Vm.Vm.Kalloc: the free list's lock and the junk kfree fills pages with are not modelled.
- Malloc.Allocator.Malloc: sizes and addresses do not wrap, and the static header lies below the heap.
- Malloc.Allocator.Free: the pointer is one that malloc returned and that was not freed since.
- LogRun.CommitPanicsExactly: buffers that other calls hold while a commit runs are not counted; with them bget can panic earlier.
- LogRun.OverrunLoses: says that the disk is lost after a crash, not what an overrun commit leaves when it completes.
- Sched.InitExits: a fault in user space, which also marks the process killed (trap.c:94), is not a step of the runs.
- Sched.KilledSince: counts the marks of kill() only, for the same reason.
- Sched.NoLostExit: files and working directory of an exiting process, and freevm in wait, are not part of the process slot.
- Sched.FlagIsOwn: a thread that starts in forkret takes over whatever interrupt flag its CPU recorded last; no claim is made about that first flag.
- Ide.DiskAsSync: a write is carried out as given; ide.c never looks at a write's status.
- PipeLocks.NoLostWakeup: says that a reader and a writer are never both asleep for good, not that either makes progress within a bound.
