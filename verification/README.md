# StrideXV6 in Dafny

A model of the hard parts of StrideXV6, the xv6 kernel with a stride scheduler, and proofs about
them: the crash-safe storage stack, the process table with its scheduler and its sleep and wakeup,
the user allocator, page tables, pipes, the shell's parser and grep's matcher. `dafny verify
dfyconfig.toml` checks all of it.

| file | models |
|---|---|
| Blocks.dfy, Bitmap.dfy, Sets.dfy | disk blocks, words and bits in them; sizes of sets |
| Journal.dfy | what log.c writes to disk, and recovery, with a crash between any two block writes |
| BufferCache.dfy | bio.c: the doubly linked buffer ring over the synchronous disk of memide.c |
| Log.dfy | the in-memory side of log.c, through the buffer cache |
| GroupCommit.dfy | begin_op, log_write, end_op, commit, recovery and crashes as one machine |
| Files.dfy | fs.c: block allocation, bmap, itrunc, readi, writei, and file.c's filewrite |
| InodeCache.dfy | references to and locks on cached inodes: iget, ilock, iput, ialloc of fs.c |
| Directories.dfy | directories and link counts of fs.c and sysfile.c |
| Proc.dfy, Stride.dfy | the process table and the stride scheduler of proc.c |
| ExitWait.dfy, SleepWakeup.dfy | fork, exit and wait; sleep and wakeup, as machines |
| UMalloc.dfy | umalloc.c |
| Kalloc.dfy, Vm.dfy | kalloc.c and the page tables of vm.c |
| Shell.dfy | the parser of sh.c |
| Pipe.dfy | pipe.c |
| Regexp.dfy | the matcher of grep.c |

Code that updates state is a class or a method with loops, tied by its contract to a function on
values; the theorems are about those functions. Protocols are machines: `Enabled` says when a step
may happen, `Do` what it does, `Inv` is kept by every step, and the main lemmas speak of every state
of every run. A step is what one process does between taking a lock and giving it up, except in
SleepWakeup.dfy, where every single lock operation is a step.

Some properties one would expect do not hold. For these the code is modelled as it is, with a lemma
that gives a case where it fails and one that says exactly when it holds:

- The scheduler's scan uses 0 both as a pass and as "nothing yet" (`Stride.PassedOver`, `Stride.PicksLeastIff`),
  so a process starves if its own slot or a later one has pass 0 and a slot after that is runnable
  (`Stride.StarvedIff`, `Stride.StarvedBehindZero`).
- The scheduler does not reset its choice, so with nobody runnable it dispatches its last one, asleep or
  a zombie (`Stride.DispatchesSleeper`, `ExitWait.ZombieIsNextChoice`, `Stride.DispatchedIsRunnable`).
- `log_write` can refuse an operation within its reservation: mkfs makes the log area one block too small,
  and the guard comes before the search, so that with a full list a block already in it is refused too
  (`GroupCommit.GuardCanRefuse`, `GroupCommit.RelogIsRefused`, `GroupCommit.GuardExactly`).
- `create` and `link` in a directory removed meanwhile make an orphan (`Directories.CreateInRemovedDirectory`,
  `Directories.LinkIntoRemovedDirectory`, `Directories.SectionKeepsIff`).
- The ".." of a removed directory can name an inode that is being freed, is free, or is another by now, and
  iget does not ask: ilock then stops on a free inode, or an inode is freed under a reference to it
  (`Directories.DotDotOutlivesParent`, `Directories.EntriesLinkedIff`, `Directories.DotDotLasts`,
  `InodeCache.LocksFreeInode`, `InodeCache.FreedWhileHeld`, `InodeCache.StepKeeps`). Looking up only in
  directories with a link would be enough (`InodeCache.LinkedIsSafe`).
- An unlinked inode that is held during a crash is never freed (`InodeCache.LeaksForGood`,
  `InodeCache.CrashOrphansIff`); otherwise it is, once let go (`InodeCache.OrphansIff`).
- There are as many buffers as log entries, so that a transaction within its reservations can leave bget
  without one (`Log.RedoLog.BuffersRunOutIff`).
- `kill` does not ask whether a slot is in use, and the next process there is born killed
  (`Proc.KillZero`, `Proc.BornKilledIff`).
- A killed writer that leaves a full pipe wakes no reader (`Pipe.StrandedReader`, `Pipe.ReadersOkIff`).
- The 4MB jump of `deallocuvm` can pass over mapped pages (`Vm.SpaceWithGap`, `Vm.ClearsAllIff`); `freevm`
  and contiguous address spaces are not affected (`Vm.SkipIsSafe`, `Vm.ContiguousIsCleared`).
- `malloc` of 2GB or more: the byte count sent to sbrk wraps or turns negative, and near 4GB the rounding
  wraps too (`UMalloc.NotServed`, `UMalloc.ServedIff`).

Parameters stand for what the model does not contain: where a process ends and whether the kernel has
room for it to grow, the page where the kernel's
data start, the interleaving of processes, the moments of crashes and kills.

Where code and comments disagree the code is followed: the remark in file.c that its chunks keep
within the maximum transaction size holds for the log area (17 of 29 blocks), not for MAXOPBLOCKS.

## Model

| member | source | states |
|---|---|---|
| Blocks.PutWordWord | log.c:101-112 | storing a 32-bit word in a block changes that word and no other |
| Journal.HeadRoundTrip | log.c:83-112 | read_head after write_head gives back exactly the list that was written, whatever the block held before |
| Journal.RecoverMeaning | log.c:67-121 | a finished recovery leaves the header empty and every home block as the last log block listed for it, or as it was |
| Journal.RecoverClean | log.c:114-121 | recovering a disk with an empty header changes no home block |
| Journal.CrashInRecovery | log.c:67-121 | recovery stopped after any number of its block writes and run again ends with the same home blocks |
| Journal.ManyCrashes | log.c:114-121 | the same for any number of interrupted recoveries in a row |
| Journal.CrashInCommit | log.c:173-199 | commit stopped after any of its block writes recovers to all old home blocks before the header write, to all new ones from it on |
| Journal.CommitFinished | log.c:189-199 | a finished commit has installed every listed block and emptied the header |
| Journal.CrashAtomicity | log.c:67-199 | commit stopped anywhere, then recovery stopped anywhere any number of times: the first finished recovery leaves all home blocks old or all new, and the header empty |
| BufferCache.Cache.constructor | bio.c:39-57 | binit makes a well-formed ring of NBUF clean unassigned buffers |
| BufferCache.Cache.PushFront | bio.c:133-136 | pointer surgery that puts a buffer at the front of the ring, as a doubly linked list |
| BufferCache.Cache.Detach | bio.c:131-132 | pointer surgery that takes a buffer out of the ring and leaves the others in order |
| BufferCache.Cache.Lookup | bio.c:70-81 | the forward scan finds the block's buffer if and only if there is one |
| BufferCache.Cache.Victim | bio.c:83-95 | the backward scan finds the least recently used buffer that is neither busy nor dirty, if and only if there is one |
| BufferCache.Cache.BGet | bio.c:62-96 | a block never gets a second buffer; a pinned (busy or dirty) buffer is never reassigned; when it sleeps and when it panics, exactly |
| BufferCache.Cache.IdeRw | memide.c:37-59 | a dirty buffer is written out as one block write, any other is read in |
| BufferCache.Cache.BRead | bio.c:98-109 | the caller gets the only buffer of the block, holding what the last writer stored, logged or not |
| BufferCache.Cache.BWrite | bio.c:111-119 | exactly one block write, of what the buffer holds |
| BufferCache.Cache.BRelse | bio.c:121-142 | a buffer that was written or logged becomes the most recently used, the others keep their order, and the cache stays coherent |
| BufferCache.Cache.SomeUnpinned | bio.c:83-95 | fewer dirty blocks and held buffers than NBUF leave a buffer that can be reassigned |
| BufferCache.Cache.AllPinnedIff | bio.c:83-95 | no buffer can be reassigned exactly when the blocks that wait for the log and the clean buffers in use number NBUF |
| BufferCache.Cache.CopyBlock | log.c:173-187 | one round of write_log or install_trans writes exactly the source block's current contents to the target block |
| Log.RedoLog.LogWrite | log.c:210-230 | a block is listed at most once, its buffer becomes dirty and so pinned; refusal exactly at the panic conditions |
| Log.RedoLog.BuffersRunOutIff | log.c:210-230 | in a transaction that is exactly when the listed blocks and the clean buffers in use number NBUF |
| Log.RedoLog.WriteLog | log.c:173-187 | the k-th log block gets the last contents logged for the k-th listed block; stopped early, a prefix of those writes was made |
| Log.RedoLog.WriteHead | log.c:97-112 | one write of the header block, which then lists exactly the blocks in memory |
| Log.RedoLog.ReadHead | log.c:83-95 | the list in memory becomes what the header block lists, and nothing is written |
| Log.RedoLog.InstallTrans | log.c:67-81 | each log block goes to the home block listed for it and its buffer is unpinned |
| Log.RedoLog.RecoverFromLog | log.c:114-121 | the writes issued through the cache are those of recovery on the disk, and cache and disk agree afterwards |
| Log.RedoLog.Commit | log.c:189-199 | the writes issued through the cache are exactly those of the crash proof, in order; afterwards the disk is what readers see, the list is empty and nothing is pinned |
| Log.RedoLog.BeginOp | log.c:123-140 | admitted exactly when no commit runs and the listed blocks and all reservations fit in LOGSIZE |
| Log.RedoLog.EndOp | log.c:142-171 | only the last operation commits; readers never see a change of contents |
| GroupCommit.StepKeeps | log.c:123-230 | every begin_op, log_write, end_op, single write of commit or recovery, and every crash keeps the invariant of the log |
| GroupCommit.RunInv | log.c:123-230 | the invariant holds in every state of every run |
| GroupCommit.EveryCrashRecovers | log.c:67-230 | stopped in any reachable state the machine recovers to the initial disk with exactly the updates of the committed groups, in order |
| GroupCommit.GroupsAreWhole | log.c:144-199 | updates become durable only by the header write, all of a group at once, with no operation active |
| GroupCommit.Reservations | log.c:123-171 | while every operation keeps to its share, the listed blocks and all unused reservations fit in LOGSIZE, so one within its share finds room; with nobody active and no commit the list is empty and begin_op is admitted; during a commit the list is fixed |
| GroupCommit.GuardCanRefuse | log.c:215-216 | with a log area of up to LOGSIZE blocks, as mkfs makes it, a run in which an operation within its share is stopped by the guard of log_write |
| GroupCommit.RelogIsRefused | log.c:215-227 | with any larger log area, a run in which writing a block again that is listed already is stopped by it, for it comes before the search |
| GroupCommit.GuardExactly | log.c:215-227 | a write an operation is entitled to is refused exactly when the log area is full, or the list is full and the block is listed or some operation has exceeded its share |
| Bitmap.SetBitBits | fs.c:62-66 | setting a bit in a bitmap block changes that bit only |
| Bitmap.ClearBitBits | fs.c:86-91 | clearing a bit in a bitmap block changes that bit only |
| Bitmap.MarkFirst | mkfs.c:237-251 | the bitmap mkfs writes has exactly the bits of the blocks in use |
| Files.AllocSound | fs.c:53-75 | marking and zeroing a free block touches nothing that any file reaches |
| Files.LinkSound | fs.c:362-372 | a fresh block stored in an empty pointer of an inode gets that pointer as its only owner |
| Files.LinkEntrySound | fs.c:373-380 | the same for an entry of the indirect block |
| Files.PatchFile | fs.c:479-485 | changing part of one mapped block changes exactly those bytes of that file and no byte of another |
| Files.SpliceTwice | file.c:133-151 | writing a string in two consecutive parts is writing it at once |
| Files.TransactionFits | file.c:132-151 | at any offset a chunk of filewrite logs at most 17 distinct blocks when the bitmap is one block |
| Files.Volume.BAlloc | fs.c:53-75 | the lowest free block, marked and zeroed; none exactly when every block is in use |
| Files.Volume.BMap | fs.c:355-384 | the block of a file block number, allocated if missing; no other pointer changes; none at MAXFILE and beyond, and below it only when every block of the disk is in use |
| Files.Volume.WriteI | fs.c:460-492 | refused exactly on the three range checks; otherwise the file is the old byte string overwritten or extended, no other file changes, and an inode whose disk copy was current has a current one again; a panic only when every block is in use |
| Files.Volume.ReadI | fs.c:432-458 | refused exactly on the two range checks; otherwise that stretch of the byte string, cut at the end, and nothing is allocated |
| Files.Volume.BFree | fs.c:77-93 | the block's bit is cleared; a panic exactly if it was clear already |
| Files.Volume.ITrunc | fs.c:386-419 | exactly the blocks the file owned become free, none twice; every other file is unchanged |
| Files.Volume.FileWrite | file.c:114-155 | from any offset: past the end nothing happens; else what is written is a prefix of the data placed at the offset, cut only at a refused chunk, in transactions of at most 17 blocks; a panic only when every block is in use |
| Files.Volume.Session | fs.c:432-492 | any sequence of reads and writes of a file answers and ends like one byte string, and no other file changes; it is cut short only when every block is in use |
| Files.FormattedIsSound | mkfs.c:109-165 | a volume without files whose bitmap marks the metadata blocks satisfies the invariant |
| Files.Mkfs | mkfs.c:109-165 | and mkfs makes one, with every file empty |
| Proc.Tickets | proc.c:138-147 | the ticket count fork uses lies in the range allowed, default included |
| Proc.StrideOf | proc.c:34-50 | strides lie between 5 and 400 |
| Proc.PTable.AllocProc | proc.c:34-74 | the first unused slot becomes an embryo with a new pid and pass 0; none exactly if no slot is unused |
| Proc.PTable.Wakeup1 | proc.c:405-414 | exactly the processes asleep on the channel become runnable |
| Proc.PTable.HandOver | proc.c:215-222 | the children of an exiting process go to init, which is woken if one of them is a zombie |
| Proc.PTable.Exit | proc.c:188-228 | the table after exit: zombie, parent and init woken as needed, children adopted; a panic exactly for init |
| Proc.PTable.WaitOnce | proc.c:232-272 | one scan of wait reaps the first zombie child; gives up exactly with no children or when killed |
| Proc.PTable.Kill | proc.c:428-446 | the first slot with the pid is marked and roused; -1 exactly if there is none |
| Proc.BornKilledIff | proc.c:34-50 | after a kill the next process made is born killed exactly if its slot was marked before or was the first with that pid, unused though it was |
| Proc.KillZero | proc.c:428-446 | kill(0) does so in a table whose slots in use come first |
| Stride.Scan | proc.c:286-297 | what the scan picks, with 0 as its marker for nothing yet; with nobody runnable it keeps its old choice |
| Stride.DispatchedIsRunnable | proc.c:286-311 | what is dispatched is runnable exactly when some slot is |
| Stride.DispatchesSleeper | proc.c:286-303 | with the last choice asleep and nobody runnable the scheduler chooses it again and runs it |
| Stride.PicksLeastIff | proc.c:292-297 | the pick has the least pass exactly when no runnable slot has pass 0 or the last runnable one has |
| Stride.PassedOver | proc.c:292-297 | a table in which a process with pass 0 is passed over |
| Stride.StarvedIff | proc.c:49-300 | in runs longer than the waiting bound, from every table, a runnable process is dispatched exactly if no pass 0 stands in its slot or a later one with a runnable slot after it |
| Stride.StarvedBehindZero | proc.c:292-297 | passes 100, 0, 500: the first two are never dispatched, however long the run |
| Stride.Dispatch | proc.c:286-311 | one round charges the choice its stride and runs it, and changes no other slot; the choice is the pick of the scan, or the last one made if nobody is runnable |
| Stride.PassAfter | proc.c:299-303 | a pass is its first value plus one stride for each dispatch |
| Stride.GapAfter | proc.c:286-311 | where no pass 0 misleads the scan, no two runnable passes drift further apart over any run than the larger of the first gap and the largest stride |
| Stride.ServedRun | proc.c:286-311 | a run from any table is a run of the processes that no pass 0 blocks, and no other is ever dispatched |
| Stride.Fairness | proc.c:286-311 | from every table and over runs of any length the stride-weighted dispatch counts of two processes that are not blocked differ by at most their first gap plus the larger of it and the largest stride |
| Stride.ExactWait | proc.c:286-311 | from every table a blocked process is never dispatched, and any other for the first time after an exactly computed number of dispatches of others, ties going to the higher slot |
| Stride.WaitAtMost | proc.c:286-311 | that number is at most the sum over processes with no larger pass of the pass difference over the stride, plus one |
| ExitWait.ExitSlots | proc.c:188-228 | what exit leaves in each slot of the table |
| ExitWait.StepKeeps | proc.c:138-272 | every step of fork, exit, wait, sleep, wakeup, kill and the scheduler, which may also run a sleeper, keeps the invariant |
| ExitWait.ExitWaitProtocol | proc.c:188-272 | in every state of every run: nobody sleeps in wait with a zombie child, zombies have no children, parents are alive, pids distinct, each exit reaped at most once |
| ExitWait.ZombieIsNextChoice | proc.c:286-311 | a run after which nobody is runnable, the slot last run is a zombie, and the scheduler can only choose it and set it running |
| SleepWakeup.StepKeeps | proc.c:368-423 | every interleaving of the two locks, sleep and the loop of wakeup1 keeps the invariant |
| SleepWakeup.NoLostWakeup | proc.c:368-423 | for any number of processes and any interleaving, whenever the lock is free nobody sleeps, or is about to, with the condition true |
| SleepWakeup.LateWakeupIsSafe | sleep1.p:61-133 | with the wakeup sent after the lock is released, a sleeper whose condition is true still has a wakeup coming |
| UMalloc.InsertGapped | umalloc.c:33-43 | after joining the free list is in address order and no two free blocks are adjacent |
| UMalloc.InsertCovers | umalloc.c:33-43 | joining adds exactly the freed units to the free ones |
| UMalloc.FreedLinked | umalloc.c:33-43 | the pointer writes of free build the joined circular list |
| UMalloc.Heap.FindPlace | umalloc.c:29-32 | the circular search ends, from anywhere, at the last free block below the address |
| UMalloc.Heap.Free | umalloc.c:24-44 | the block's units move from the live to the free ones; list, live blocks and arena stay consistent |
| UMalloc.Heap.MoreCore | umalloc.c:46-61 | for every size: the units asked for go on the list; they are what sbrk has given exactly if the byte count is below 2GB |
| UMalloc.AskedIsWhole | umalloc.c:52-54 | the 32-bit signed byte count sent to sbrk is that of the units put on the list exactly below 2GB, and never more |
| UMalloc.SbrkGives | proc.c:107-123 | what the process then has is the old memory and those units exactly below 2GB |
| UMalloc.Heap.Malloc | umalloc.c:63-90 | a new live block of the right number of units, disjoint from all live ones; sbrk is asked at most once and only if no free block is large enough; the list holds only memory obtained exactly if sbrk was not asked or the byte count is below 2GB |
| UMalloc.RoomIff | umalloc.c:69-69 | the block has room for the bytes asked for exactly when the rounding does not wrap in 32 bits |
| UMalloc.ServedIff | umalloc.c:52-69 | a request that goes to sbrk gets a block with room for it, of memory obtained, exactly up to 0x7FFFFFF0 bytes |
| UMalloc.NotServed | umalloc.c:52-69 | three requests that fail: the rounding wraps, sbrk succeeds and gives nothing, sbrk succeeds and takes memory away |
| InodeCache.Scan | fs.c:219-251 | the loop of iget settles on the slot that holds the inode, else on the first empty one |
| InodeCache.StepKeeps | fs.c:173-336 | a locked section of iget, idup, ilock, iunlock, iput or ialloc keeps the invariant of the cache exactly if it is not a lookup of an inode that is free, being freed or just allocated |
| InodeCache.LinkedIsSafe | fs.c:613-631 | an inode with a link is never free, being freed or just allocated, so that looking it up keeps the invariant |
| InodeCache.BaseKeeps | fs.c:173-336 | every section, whatever it looks up, keeps counts, slots and locks right |
| InodeCache.CacheIsSound | fs.c:217-336 | in every state of every run an inode has at most one slot, counts are the number of references, the lock has one holder at most, and an iput that frees never finds the inode locked |
| InodeCache.NoPanics | fs.c:265-336 | in every state of every run with safe lookups ilock never finds a free inode, and the holder sees the inode as on disk, whatever ialloc does meanwhile |
| InodeCache.FreedUnshared | fs.c:310-336 | in such runs an inode is freed only without links and without any other reference |
| InodeCache.LocksFreeInode | fs.c:265-294 | from every start, a run in which an inode is freed, looked up again and locked while free |
| InodeCache.FreedWhileHeld | fs.c:310-336 | from every start, a run in which an inode looked up while it is being freed is freed under that reference |
| InodeCache.OrphansIff | fs.c:310-336 | every inode in use without links stays held by somebody, exactly unless the last reference to one just allocated is dropped before it was loaded |
| InodeCache.UnlinkedIsHeld | fs.c:310-336 | so in every state of such runs an inode in use has a link or a holder, and is free once the last holder lets go |
| InodeCache.CrashOrphansIff | fs.c:173-336 | a crash leaves orphans exactly if an inode in use had no link |
| InodeCache.LeaksForGood | fs.c:173-336 | over runs of any length an orphan that is not looked up stays in use and held by nobody |
| Directories.Index | fs.c:505-529 | the first slot with the name, or the end |
| Directories.FreeSlot | fs.c:543-549 | the first empty slot, or the end |
| Directories.CreatedKeeps | sysfile.c:238-281 | create in a linked directory keeps link counts and tree |
| Directories.RelinkedKeeps | sysfile.c:137-160 | counting a link ahead of its entry, and taking it back, keeps link counts and tree |
| Directories.EnteredKeeps | fs.c:531-559 | entering the name of a link that was counted keeps link counts and tree |
| Directories.EmptyHasOneLink | sysfile.c:210-226 | an empty directory has exactly one link, the entry in its parent |
| Directories.ParentHasTwoLinks | sysfile.c:218-221 | a directory with a subdirectory has at least two links, so removing the child leaves it linked |
| Directories.RemovedKeeps | sysfile.c:210-226 | unlink keeps link counts and tree |
| Directories.ReleasedKeeps | fs.c:310-336 | freeing an inode without links keeps link counts and tree |
| Directories.NamedHasLink | sysfile.c:204-209 | unlink never meets a link count below one |
| Directories.SectionKeeps | sysfile.c:115-281 | every locked section of create, link, unlink and iput that makes no entry in a removed directory keeps the invariant |
| Directories.SectionKeepsIff | sysfile.c:115-281 | a section keeps the invariant exactly if it makes no entry in a directory without a link |
| Directories.FormattedIsSound | mkfs.c:117-128 | the volume mkfs makes satisfies it |
| Directories.LinkCountsAreExact | sysfile.c:115-281 | in every state of every run without entries made in removed directories the link count is the number of names in linked directories, other than ".", plus links in flight; a free inode has no name but perhaps the ".." of a removed directory |
| Directories.DirectoriesFormATree | sysfile.c:115-281 | in every state of such runs each linked directory reaches the root by "..", holds its dots first and no name twice, and is named once, in its parent; an unlinked one is empty and unnamed |
| Directories.EntriesLinkedIff | sysfile.c:164-226 | in every state of such runs a directory has a link exactly if every inode its entries name is in use and has one; without a link it holds its dots only |
| Directories.DotDotStep | sysfile.c:115-281 | no section changes the ".." of a directory that stays; the inode it names is in use afterwards exactly if it was and is not put, or is the one allocated |
| Directories.DotDotLasts | fs.c:310-336 | while a directory that was once linked stays, linked or not, the inode its ".." names stays in use exactly as long as it is not put |
| Directories.DotDotOutlivesParent | sysfile.c:181-236 | from every formatted volume with four inodes, a run that leaves a removed directory whose ".." names a free inode |
| Directories.CreateKeepsIff | sysfile.c:238-281 | create keeps the invariant exactly when its directory is still linked |
| Directories.EnterKeepsIff | sysfile.c:141-148 | entering a counted link keeps the invariant exactly when the directory is still linked |
| Directories.CreateInRemovedDirectory | sysfile.c:238-281 | from every formatted volume, a run that creates in a removed directory and breaks it |
| Directories.LinkIntoRemovedDirectory | sysfile.c:115-162 | from every formatted volume, a run that enters a link in a removed directory and breaks it |
| Directories.Namespace.DirLookup | fs.c:505-529 | the scan returns the first slot with the name, or the end |
| Directories.Namespace.DirLink | fs.c:531-559 | the entry goes to the first empty slot or the end; fails exactly if the name is present, panics exactly if the directory is full |
| Directories.Namespace.IsDirEmpty | sysfile.c:164-178 | true exactly if no slot past the dots is in use |
| Directories.Namespace.IAlloc | fs.c:173-196 | the first free inode is taken; a panic exactly if there is none |
| Directories.Namespace.Create | sysfile.c:238-281 | an existing name changes nothing; otherwise the new inode, its dots and its entry; the invariant is kept exactly in a linked directory |
| Directories.Namespace.LinkBegin | sysfile.c:125-139 | directories are refused; otherwise the link is counted |
| Directories.Namespace.LinkFinish | sysfile.c:141-162 | the name is entered, or the link is taken back exactly if the name exists; entering keeps the invariant exactly in a linked directory |
| Directories.Namespace.Unlink | sysfile.c:181-236 | succeeds exactly for a present name, not a dot, of a file or an empty directory; the invariant is kept in every case |
| Directories.Namespace.IPut | fs.c:310-336 | an inode without links is freed, any other is untouched |
| Kalloc.Memory.Kalloc | kalloc.c:79-95 | the first page of the list threaded through free memory, which stays a list of distinct pages; 0 exactly if there is none |
| Kalloc.Memory.KFree | kalloc.c:54-77 | the page heads the free list and no other page changes; stops exactly for a page outside the allocator's range |
| Kalloc.Memory.FreeRange | kalloc.c:45-52 | exactly the pages of the range are added to the free ones |
| Vm.MakePteParts | vm.c:83-83 | an entry gives back its frame and flags |
| Vm.SameTables | vm.c:45-65 | an address space depends on its directory and tables alone |
| Vm.AddTableKeeps | vm.c:53-63 | a new zeroed page table changes no mapping |
| Vm.PutEntryKeeps | vm.c:81-83 | writing an entry changes that mapping only, and no frame is used twice |
| Vm.WalkPgdir | vm.c:42-65 | finds or makes the table; changes no mapping; fails exactly when it may not or cannot allocate |
| Vm.MapOne | vm.c:67-90 | one round of mappages: the mapping asked for and no other; a panic exactly if the page is mapped |
| Vm.MapPages | vm.c:67-90 | the range is mapped frame by frame, every other page as before, user pages on frames of their own, new tables taken from the free list |
| Vm.SetupKvm | vm.c:127-144 | a directory whose entries are exactly the four ranges of the kernel; directory and tables account for every page taken from the free list; it fails only when that is used up, and 1026 pages are enough |
| Vm.PlacePage | vm.c:231-240 | one round of allocuvm or copyuvm: a page from the free list with the contents and permissions, no other mapping changed, and the page that is lost if there is no table for it |
| Vm.AllocUvm | vm.c:218-243 | pages are conserved but for those lost when mappages fails; with two free pages for each new one nothing is lost and every new page is mapped, zeroed and private; contiguous address spaces stay so |
| Vm.VisitsExactly | vm.c:258-271 | which pages deallocuvm looks at, when it jumps 4MB over a missing table |
| Vm.ClearsAllIff | vm.c:249-273 | it reaches every mapped page of the range exactly when the first table present maps nothing in the slots before the starting one |
| Vm.SkipIsSafe | vm.c:249-273 | from a 4MB boundary or a page whose table exists, it passes over no mapped page |
| Vm.SkipPassesOver | vm.c:249-273 | with no table for page 1 it passes over page 1024 |
| Vm.SpaceWithGap | vm.c:249-273 | a well-formed address space in which it does |
| Vm.ContiguousIsCleared | vm.c:249-273 | in a contiguous address space it passes over nothing, from wherever it starts |
| Vm.DeallocUvm | vm.c:245-273 | exactly the pages looked at are unmapped and freed; tables and everything else stay; a contiguous address space is so again at the new size |
| Vm.FreeVm | vm.c:275-292 | the free pages grow by exactly the frames of the address space, and no other frame is touched |
| Vm.CopyPage | vm.c:324-330 | one round of copyuvm: a fresh frame with the bytes and flags of the original |
| Vm.CopyUvm | vm.c:307-337 | the child is contiguous, its pages hold the bytes and flags of the parent, the kernel part is mapped, every frame used came from the free list, and the parent is unchanged; panics only for a missing page; 1026 free pages and one for each of the parent are enough |
| Vm.ChildFramesFresh | vm.c:317-331 | the child's frames are pairwise distinct, were free, and are none of the parent's |
| Vm.CopyThenFree | vm.c:275-337 | copying and freeing the copy restores exactly the set of free pages and leaves the parent's memory alone |
| Shell.GetToken | sh.c:266-309 | the next token of the line and its extent, and the rest of the tokens behind it |
| Shell.Peek | sh.c:311-321 | whether the next token starts with one of the characters; no token is consumed |
| Shell.SimpleSound | sh.c:417-447 | what the parser takes as a simple command is words and redirections, fewer than MAXARGS words, wrapped in order |
| Shell.ExecSound | sh.c:400-447 | what it takes as a command is a simple command or a block of the grammar |
| Shell.LineSound | sh.c:345-360 | what it takes as a line is a line of the grammar |
| Shell.LineComplete | sh.c:345-360 | every line of the grammar is taken, with the tree the grammar gives it |
| Shell.ParsesTheGrammar | sh.c:328-447 | a line is accepted with a tree exactly when the grammar derives that tree from its tokens |
| Shell.RunsFrom | sh.c:266-309 | the word tokens are exactly the maximal runs of word characters, each once |
| Shell.EachWordOnce | sh.c:328-447 | each word of an accepted line stands in the tree exactly once and nothing else does |
| Shell.ParseRedirs | sh.c:375-398 | parseredirs on the line follows the token parser |
| Shell.ParseSimpleExec | sh.c:426-447 | so does the argument loop of parseexec, argument limit included |
| Shell.ParseExec | sh.c:416-447 | so does parseexec |
| Shell.ParseBlock | sh.c:400-414 | so does parseblock; it panics exactly without a parenthesis or on what follows |
| Shell.ParsePipe | sh.c:362-373 | so does parsepipe |
| Shell.ParseLine | sh.c:345-360 | so does parseline; the recursion ends on every line |
| Shell.NulTerminate | sh.c:449-494 | NULs are written exactly at the ends of the tree's words |
| Shell.CutAtEnds | sh.c:449-494 | after that every word of the tree, read as a C string, is its original text |
| Shell.ParseCmd | sh.c:328-343 | the tree the grammar derives, or a panic exactly if there is none; each word once; each argument and file pointer reads as its original text |
| Pipe.PutQueues | pipe.c:92-92 | a byte put into the ring is appended to the queue, across the wrap of counters and slots |
| Pipe.SkipDequeues | pipe.c:115-115 | a byte taken from the ring is the oldest of the queue |
| Pipe.PutRunQueues | pipe.c:83-93 | a run of writing appends as many of the bytes as there is room for |
| Pipe.TakeRunDequeues | pipe.c:112-116 | a run of reading takes the oldest bytes in order |
| Pipe.RingBuffer.Write | pipe.c:83-93 | the loop over the array is that run of writing |
| Pipe.RingBuffer.Read | pipe.c:112-116 | the loop over the array is that run of reading |
| Pipe.StepKeeps | pipe.c:58-120 | every locked section of write, read and close, and every kill, keeps the invariant |
| Pipe.Fifo | pipe.c:58-120 | in every state of every run what was read is a prefix of what was written, at most 512 bytes are unread, and a writer sleeps only on a full pipe whose read end is open |
| Pipe.ReadersOkIff | pipe.c:84-91 | a step leaves no reader asleep beside unread bytes or a closed write end, exactly unless it is a killed writer's with more than a pipeful to go |
| Pipe.StrandedReader | pipe.c:84-91 | from every start, a run that leaves a reader asleep beside a full pipe |
| Pipe.NoReaderStranded | pipe.c:58-120 | in runs without such a step sleeping readers always wait on an empty open pipe |
| Regexp.HereSplit | grep.c:84-106 | a match at one place splits at the first item of the pattern |
| Regexp.HereStar | grep.c:98-106 | a starred character matches exactly when some stretch that fits is followed by a match of the rest |
| Regexp.Match | grep.c:72-82 | found exactly when some suffix of the text, all of it under '^', has a prefix in the pattern's language |
| Regexp.MatchHere | grep.c:84-96 | found exactly when some prefix of the text is in the language, all of the text under a final '$' |
| Regexp.MatchStar | grep.c:98-106 | found exactly when a stretch that fits is followed by a match of the rest |

## Left out

- Drivers, boot code, assembly, segments, interrupts, spinlock.c and memory ordering: locks are atomic, a context switch is one step, the disk is that of memide.c.
- Console, printing, exec, system-call argument fetching, user commands other than the shell's parser and grep's matcher.
- Device inodes in readi and writei.
- The byte layout of on-disk inodes and directory entries: the inode table holds inodes as values, with a copy for the disk that iupdate refreshes. Log headers, bitmaps and indirect blocks are modelled byte by byte.
- Path lookup (namex): a directory operation is handed the inodes it works on, and freeing an unlinked inode may happen at any moment after the last link is gone. InodeCache.dfy says when it does.
- filealloc, filedup, fileclose: simple counting.
- Short overflow of nlink, and 32-bit overflow of passada and nextpid.
- copyout, loaduvm, clearpteu and inituvm: single accesses through walkpgdir.
- grep's reading loop, which drops a last line without a newline.
- Running the shell's tree (runcmd).
- Log.RedoLog.LogWrite: one atomic step, although the source looks at the count before it takes the lock.
- Log.RedoLog.Commit: one holder at a time. A commit that finds a buffer held by someone else, where the source would sleep, is a stopped run of which a prefix of the writes was made.
- BufferCache.Cache.BRelse: for holders that have written or logged what they changed, as all callers do.
- UMalloc.Heap.Free: for blocks that malloc returned and that are still live.
- UMalloc.Heap.Malloc: called while the list holds only memory obtained. What a program does after a request of 2GB or more is not followed.
- UMalloc.Heap.MoreCore: pointer sums beyond 4GB, which only such requests lead to, do not wrap.
- Directories.Namespace.Create: nothing is said of the table after a panic.
- Directories.LinkCountsAreExact: create and link go to directories that are still linked. Otherwise it is false (Directories.SectionKeepsIff).
- InodeCache.StepKeeps: one device. A cache without an empty slot stops the kernel.
- InodeCache.NoPanics: for runs with safe lookups, such as those in directories that have a link. Otherwise it is false (InodeCache.LocksFreeInode).
- InodeCache.FreedUnshared: the same (InodeCache.FreedWhileHeld).
- Stride.Dispatch: no pass is negative, and the choice is no slot at first, where the source leaves it undefined.
- ExitWait.StepKeeps: the scheduler runs runnable or sleeping processes. That its last choice may be a zombie or a free slot is left out, for the kernel then stops or runs a dead stack (ExitWait.ZombieIsNextChoice).
- Stride.Fairness: one processor, a fixed set of processes that are always runnable, no pass negative, strides positive.
- Stride.ExactWait: the same.
- Vm.CopyUvm: when memory runs out, one page of its own may be lost, as in the source.
- Vm.SetupKvm: pages taken before memory ran out are lost, as in the source.
- Vm.MapPages: addresses are page numbers; the rounding of the source's byte addresses is in UpPages only.
- Vm.DeallocUvm: sizes up to KERNBASE.
- Pipe.StepKeeps: an end is closed when no process is using it, which is what the file table's reference counts ensure.
