# Verified models of xv6-riscv with tournament locks

These Dafny modules model the parts of the kernel, its C library and its shell whose correctness
is about more than one function: protocols over every interleaving, on-disk and in-memory
structures over every sequence of operations, and a parser over every line. Operations that the
C code does in place are methods of classes, with the C loops; protocols between processes are
transition systems whose steps are the critical sections of the code. `dafny verify dfyconfig.toml`
checks everything.

| part | modules |
|---|---|
| Peterson locks and the tournament tree over them | Peterson, Tournament, TournamentProgress, TournamentBypass, TournamentFairness, TournamentLibrary |
| redo log, crash recovery, group commit | RedoLog, CrashHistory, LogCode, LogAdmission, LogProgress |
| buffer cache | BufferCache, BufferCacheCode, BufferCacheHistory |
| block allocation, inodes, file writes, and crashes during them | InodeSpec, InodeWrites, InodeCode, DiskImage, FileCrash |
| page tables, page allocator, user memory, all processes | Sv39, PageOwnership, Teardown, VirtualMemory, UserMemory, MemorySystem |
| malloc and free | Umalloc |
| sleep, wakeup and sleep locks | SleepWakeup, SleepProgress |
| fork, exit and wait | ProcessTree, ProcessTable |
| shell parser | ShellParser, ShellGrammar, ShellCode |
| virtio disk driver | VirtioDisk |
| pipes | Pipe |
| constants of the kernel, remainders and counting | Params, Modular |

## Main results

- Tournament.MutualExclusion, TournamentProgress.DeadlockFree, TournamentBypass.PassedAtMostLevels,
  TournamentBypass.BypassBoundedIff, TournamentFairness.StarvationFree: mutual exclusion, freedom from deadlock and,
  in fair runs, from starvation of the tournament tree, and what is and is not bounded about overtaking, for every
  number of levels.
- CrashHistory.CrashConsistency: crash atomicity of the log at every block write, over whole histories of commits,
  crashes and interrupted recoveries.
- LogAdmission.GroupCommit, LogAdmission.AppendSafeIffRoom, LogProgress.LogComesFree: group commit, exactly when the
  reservation suffices, and that the log always comes free again.
- BufferCacheHistory.BreadReturnsLastStored, BufferCacheHistory.LastStoredIffOneDevice,
  BufferCacheHistory.VictimReleasedFirst: in every interleaving bread returns what was last stored, exactly for one
  device, and the victim is the buffer released longest ago; both follow from the list of calls alone.
- InodeCode.FileSystem.Writei, InodeCode.FileSystem.Readi, InodeCode.FileSystem.FileWrite: files refine byte
  sequences, blocks have one owner, and every transaction of a write fits the log and carries its changes.
- FileCrash.WritesSurviveCrash, FileCrash.WriteSurvivesCrash, FileCrash.TruncationSurvivesCrash,
  FileCrash.GroupCanCommit: file system, group commit and log together. A crash at any block write leaves, after
  recovery, a sound file system with exactly the durable groups of writes and truncations; for one write call, with
  a whole number of its chunks, and a truncated file is whole or empty.
- Sv39.WalkRefines and the methods of VirtualMemory.Kernel and UserMemory.Process: page tables refine a flat map,
  and physical pages are conserved through every failure.
- MemorySystem.MemorySystem.Run, MemorySystem.RunIsolates: over any sequence of allocproc, fork, growproc, copyout and
  freeproc every page has exactly one owner, every call does what it should, no process touches another's memory,
  and no page leaks.
- Umalloc.Heap.Malloc, Umalloc.Heap.Free: the free list stays circular, ordered, coalesced and exact.
- SleepWakeup.NoLostWakeup, SleepProgress.CanGetLock: no wakeup is lost in any interleaving, and from every state
  every process can come to hold the sleep lock.
- ProcessTree.TreeInEveryRun, ProcessTree.ReapedOnce, ProcessTree.NoZombieWaitsForSleeper, ProcessTree.ForkExitWait:
  the process tree in every run, that no parent sleeps in wait over a zombie, and fork, exit and wait as one.
- ShellGrammar.ParserDecidesGrammar, ShellParser.RoundTrip, ShellParser.NulTerminateKeepsTokens: the parser accepts
  exactly the lines of the grammar with their meaning, undoes the printer and loses no token.
- VirtioDisk.Disk: descriptors are partitioned and completions reach their submitters, with indices that wrap.
- Pipe.Pipe: what readers take is a prefix of what writers sent, with counters that wrap.

## What does not hold

- The log area that `mkfs/mkfs.c` lays out has LOGSIZE blocks with the header, one too few:
  appending within the reserved budget is safe if and only if it has more (LogAdmission.AppendSafeIffRoom).
- `log_write` panics on a full header before it looks whether the block is already listed, so
  rewriting a logged block can panic, for every log of two blocks or more and for no other
  (LogAdmission.AbsorptionCanPanic); it panics exactly when the header is full, for every log size
  (LogAdmission.PanicMeansFull).
- The tournament lock does not bound how often others enter while a process waits, unless it is a single
  Peterson lock (TournamentBypass.BypassBoundedIff).
- The cache is keyed by device and block, the driver by block alone: reads agree with what was written
  if and only if one device is in use (BufferCacheHistory.LastStoredIffOneDevice), as in xv6.
- `writei` changes the cached block before it knows that the copy from user memory succeeded. If the copy fails
  half way over an existing block, the bytes copied are in the cache, beyond those reported, and are not logged
  (InodeCode.FileSystem.WritePiece). A call's log misses a change exactly if it ended in such a copy, the block was not
  logged otherwise, and the bytes differ from what was there before the call (InodeCode.FileSystem.TornUnlogged,
  InodeCode.FileSystem.Writei).
- `morecore` hands a request above 2^31 - 32 bytes to sbrk's int parameter, which then obtains
  less than the header records; up to that size it is exact (Umalloc.GrowthExact).
- The comment on `uvmdealloc` allows oldsz to exceed the process's size. The code panics exactly
  when a page in the range is not mapped (VirtualMemory.Kernel.Uvmdealloc).
- `growproc` with a result below zero wraps round: it reports success and changes nothing
  (UserMemory.Process.Growproc).
- `piperead` drops the byte whose copyout fails (Pipe.Pipe.ReadSection).

## Model

| member | source | states |
|---|---|---|
| Peterson.LockTable.constructor | kernel/peterson.c:17-32 | the table starts with every lock inactive |
| Peterson.LockTable.Create | kernel/peterson.c:37-55 | claims the lowest inactive entry with both flags down, fails exactly if none is inactive, touches no other entry |
| Peterson.LockTable.Enter | kernel/peterson.c:89-120 | accepts exactly an id in range, a role 0 or 1 and an active lock; then the own flag is up and the turn is the other role's |
| Peterson.LockTable.Evaluate | kernel/peterson.c:121-151 | one pass of the wait loop: passes exactly if the other flag is down or the turn is the caller's, and fails exactly if the lock is gone |
| Peterson.LockTable.Release | kernel/peterson.c:155-187 | lowers the caller's flag only, and is refused on the same arguments as an acquire |
| Tournament.NodeInRange | user/libtournament.c:124-137 | every lock index an acquire or release computes lies in the array, for every number of levels |
| Tournament.NodeInjective | user/libtournament.c:124-137 | two processes compute the same index only at the same level and position |
| Tournament.UserHoldsChild | user/libtournament.c:123-151 | in every run, a process that uses a node holds the child node on its side, at array index 2i + 1 + r, and nobody else holds that |
| Tournament.RoleExclusive | user/libtournament.c:123-151 | each role of each node has at most one user, because the user holds the child on that side |
| Tournament.CallAccepted | user/libtournament.c:123-151 | in a run no call the library makes is refused |
| Tournament.PassingExcludes | kernel/peterson.c:121-151 | who passes a node's wait loop finds no holder there |
| Tournament.EnterKeeps | kernel/peterson.c:106-120 | the doorway keeps the tree invariant |
| Tournament.TestKeeps | kernel/peterson.c:121-151 | a pass of the wait loop, whatever its outcome, keeps the tree invariant |
| Tournament.ReleaseKeeps | user/libtournament.c:175-199 | releasing from the root towards the leaf keeps the tree invariant |
| Tournament.EnvironmentKeeps | kernel/peterson.c:37-55 | what others do to locks outside the tree keeps the tree invariant |
| Tournament.StepKeeps | user/libtournament.c:123-199 | every step of every process keeps the invariant |
| Tournament.MutualExclusion | user/libtournament.c:123-199 | in every state of every run of 2^L processes, for every L, at most one is between acquire and release, and no call failed |
| TournamentProgress.SomeoneAdvances | user/libtournament.c:123-151 | if somebody is acquiring and nobody is in or leaving, somebody acquiring is not blocked |
| TournamentProgress.ReachesCritical | user/libtournament.c:123-151 | from such a state, moving only acquiring processes brings one of them in |
| TournamentProgress.DeadlockFree | user/libtournament.c:123-151 | the same in every state of every run: the tree cannot deadlock |
| TournamentProgress.TurnNotRegained | kernel/peterson.c:114-120 | while a process waits at a node, a rival that arrives gives the turn away |
| TournamentProgress.OvertakingNeedsTurn | kernel/peterson.c:121-137 | only a rival that had the turn overtakes a waiter, and it uses the chance up |
| TournamentProgress.OvertakenAtMostOnce | kernel/peterson.c:115-137 | between its doorway and its pass a process is overtaken at most once at each node, counted or as no two steps of the run, and not at all if no rival was waiting with the turn |
| TournamentBypass.PassedAtMostLevels | user/libtournament.c:123-151 | in one whole acquire, from the first doorway to the entry, a process is passed at the nodes on its way at most once per level |
| TournamentBypass.EntriesArePassings | kernel/peterson.c:121-151 | with a single lock, every entry by another process is such a passing |
| TournamentBypass.EntersOften | user/libtournament.c:123-199 | with two levels or more, while a process that holds its leaf lock is on its way up another one can enter any number of times |
| TournamentFairness.StillFree | kernel/peterson.c:114-137 | no step of another process makes a process wait at a node whose wait loop would let it pass |
| TournamentFairness.Releases | user/libtournament.c:175-199 | in every fair run, who holds a node comes to release it |
| TournamentFairness.Passes | kernel/peterson.c:121-151 | in every fair run, who waits at a node comes to pass it |
| TournamentFairness.StarvationFree | user/libtournament.c:123-199 | in every infinite run in which no process that can go on is passed over for ever, every acquire ends, for every number of levels |
| TournamentBypass.BypassBoundedIff | user/libtournament.c:123-199 | entries by others during one whole acquire have a bound if and only if the tree is a single lock, and then the bound is one |
| TournamentLibrary.BitTrick | user/libtournament.c:16-24 | n & (n - 1) is zero exactly for powers of two |
| TournamentLibrary.Log2IfPowerOf2 | user/libtournament.c:15-36 | the logarithm of a power of two; -1 for every other number |
| TournamentLibrary.Library.CreateLocks | user/libtournament.c:66-73 | the ids are distinct fresh locks; fails exactly if the table has fewer inactive entries than the tree needs |
| TournamentLibrary.Library.Create | user/libtournament.c:42-101 | fails exactly for a number of processes that is above 16 or no power of two, or when memory, locks or a fork run out; otherwise each process gets its own number, and the runs of MutualExclusion can start |
| RedoLog.HeadRoundTrip | kernel/log.c:86-114 | a header block read back gives the block numbers written to it |
| RedoLog.CommitAtomic | kernel/log.c:177-203 | a commit cut after any number of block writes: before the header write recovery yields the old blocks, from it on the new ones |
| RedoLog.RecoveryIdempotent | kernel/log.c:68-123 | a recovery cut after any number of block writes changes nothing in what the next recovery yields |
| RedoLog.RecoveryClears | kernel/log.c:116-123 | a complete recovery leaves an empty log and the home blocks it promised |
| RedoLog.EmptyCommit | kernel/log.c:193-203 | a transaction without blocks writes nothing |
| CrashHistory.CommitEvent | kernel/log.c:193-203 | a completed commit adds its transaction to the durable ones |
| CrashHistory.CrashEvent | kernel/log.c:193-203 | a crash between any two writes of a commit adds its transaction wholly or not at all |
| CrashHistory.RecoveryEvent | kernel/log.c:116-123 | a recovery, complete or interrupted, adds and loses nothing |
| CrashHistory.CrashConsistency | kernel/log.c:55-123 | after any sequence of commits, crashes and interrupted recoveries, the disk represents exactly the durable transactions, in order and whole |
| CrashHistory.AnyCutHappens | kernel/log.c:116-203 | every cut is possible, a commit after any number of its writes and a recovery after any number of its own, and the next recovery brings the machine up with the transaction whole or not at all |
| LogCode.Log.WriteLog | kernel/log.c:178-191 | copies each listed block from the cache to its log slot, and nothing else |
| LogCode.Log.WriteHead | kernel/log.c:102-114 | one block write, of the encoded header |
| LogCode.Log.Install | kernel/log.c:68-83 | the writes that copy log slots to home blocks, in list order |
| LogCode.Log.Commit | kernel/log.c:193-203 | issues exactly the writes CommitAtomic speaks of, in that order, and ends with an empty header |
| LogCode.Log.ReadHead | kernel/log.c:86-97 | the in-memory header is the one on disk |
| LogCode.Log.Recover | kernel/log.c:116-123 | issues exactly the writes RecoveryIdempotent speaks of |
| LogAdmission.GroupLog.BeginOp | kernel/log.c:126-142 | admits exactly if no commit is under way and the header, every admitted operation and one more fit in LOGSIZE |
| LogAdmission.GroupLog.EndOp | kernel/log.c:146-164 | the last operation out starts the commit; panics exactly if a commit is under way |
| LogAdmission.GroupLog.LogWrite | kernel/log.c:214-235 | a listed block is absorbed, another one appended; panics exactly on a full header, a full log area or outside a transaction |
| LogAdmission.StepKeepsSpace | kernel/log.c:126-175 | logged blocks plus the unused reservations of active operations stay within LOGSIZE |
| LogAdmission.StepKeepsCapacity | kernel/log.c:214-235 | every step keeps the header, and every commit made, within min(LOGSIZE, size - 1) blocks |
| LogAdmission.StepKeepsGroups | kernel/log.c:146-175 | every step keeps each operation's blocks together |
| LogAdmission.GroupCommit | kernel/log.c:126-175 | in every run, committing means nobody is active; a commit carries exactly the blocks of its own, ended operations; no operation is split over two commits |
| LogAdmission.PanicMeansFull | kernel/log.c:214-235 | for every log size, log_write panics in a reachable state exactly if the header lists as many blocks as it can, min(LOGSIZE, size - 1); if that is LOGSIZE, every active operation has used its budget |
| LogAdmission.AppendSafeIffRoom | kernel/log.c:214-222 | for every log size, appending within the budget never panics if and only if the log area has more than LOGSIZE blocks |
| LogAdmission.FillReachable | mkfs/mkfs.c:25 | for every level the bounds allow, a run in which three operations fill the log to it; with the image builder's log size its next append panics |
| LogAdmission.AbsorptionCanPanic | kernel/log.c:218-221 | there is a run in which rewriting a listed block panics, although it would append nothing, if and only if the log has at least two blocks |
| LogProgress.LogComesFree | kernel/log.c:126-175 | from every state of every run, without new operations, all operations can end, with everything they wrote in their commits, and the log is then empty and admits |
| InodeSpec.WordRoundTrip | kernel/fs.c:407-413 | a pointer stored in an indirect block reads back, and no other entry changes |
| InodeSpec.AttachedSound | kernel/fs.c:388-415 | attaching a free block to an empty slot keeps ownership exclusive, the bitmap exact and files without holes |
| InodeSpec.PatchedByte | kernel/fs.c:520-527 | writing into a file's data block changes those bytes of that file and no byte of any other |
| InodeSpec.ResizedSound | kernel/fs.c:530-536 | growing the size over existing blocks keeps the file system sound |
| InodeSpec.TruncatedSound | kernel/fs.c:425-453 | freeing exactly one inode's blocks keeps the file system sound |
| InodeSpec.TruncatedContent | kernel/fs.c:425-453 | truncating one file leaves the bytes of the others alone |
| InodeWrites.WrittenFurther | kernel/fs.c:516-528 | a write of s extended by the next piece is a write of s and the piece |
| InodeWrites.WrittenContent | kernel/fs.c:505-539 | after the size is set, the file is the old one with the bytes spliced in as far as the size goes, and every other file is unchanged |
| InodeWrites.SplicedTwice | kernel/file.c:148-175 | two adjoining writes are one write of both |
| InodeWrites.ShownTwice | kernel/file.c:157-174 | two adjoining writes, the second of which counts only in part, are one write of both |
| InodeCode.FileSystem.Balloc | kernel/fs.c:65-88 | the lowest free block, marked used and zeroed; 0 exactly if every block is used |
| InodeCode.FileSystem.Bfree | kernel/fs.c:91-105 | marks one block free and logs its bitmap block; panics, and changes nothing, exactly if it was free already |
| InodeCode.FileSystem.Bmap | kernel/fs.c:382-421 | the block that holds a file position, allocated if absent; sound and without changing any file's bytes; 0 only on a full disk; bounds what is logged |
| InodeCode.FileSystem.BmapIndirect | kernel/fs.c:397-418 | the same for positions behind the indirect block |
| InodeCode.FileSystem.FreeDirect | kernel/fs.c:432-437 | frees exactly the direct blocks, none of them free before, and logs the bitmap block of each and nothing else |
| InodeCode.FileSystem.FreeEntries | kernel/fs.c:439-448 | frees exactly the blocks in the indirect block, none of them free before, and logs the bitmap block of each and nothing else |
| InodeCode.FileSystem.Itrunc | kernel/fs.c:425-453 | never reaches the freeing-free-block panic, frees exactly the inode's blocks, keeps soundness and every other file; the log carries all it changed, the inode's block included, and only that and bitmap blocks |
| InodeCode.FileSystem.TruncateFile | kernel/sysfile.c:363-365 | truncation as a transaction: it carries all it changed, logs at most one block and the bitmap, and fits the reservation on a disk of at most nine bitmap blocks |
| InodeCode.FileSystem.ReadBlock | kernel/fs.c:481-493 | a read finds every block below the size and allocates none |
| InodeCode.FileSystem.Readi | kernel/fs.c:471-496 | exactly the requested slice of the file's bytes, cut at its end, with nothing changed on disk; -1 exactly if the destination takes fewer, and then it holds as many as it takes |
| InodeCode.FirstBlockExists | kernel/fs.c:382-421 | the first block of a write that starts inside a block is never newly allocated |
| InodeCode.FileSystem.WritePiece | kernel/fs.c:516-528 | one round writes its bytes into the right block, changing no other byte of any file, and logs all it changed; a copy that failed half way over an existing block is in the cached block and logs nothing |
| InodeCode.FileSystem.TornUnlogged | kernel/fs.c:522-525 | after a call that ended in a torn copy the log carries every change exactly if the torn block is logged or the bytes copied are those that were there before the call |
| InodeCode.FileSystem.Round | kernel/fs.c:516-528 | stops only on a full disk or at the first unreadable byte; only a torn copy leaves a block changed and not logged |
| InodeCode.FileSystem.Iupdate | kernel/fs.c:530-536 | the size covers what counts of the bytes, the file shows them spliced in, and the inode's block is logged |
| InodeCode.FileSystem.Writei | kernel/fs.c:505-539 | fails exactly past the end or beyond the largest file; otherwise splices in the bytes that fit and can be read, changes no other file, stops short only on a full disk or an unreadable source; the log carries every change exactly if no copy was torn or the torn bytes are logged or were there before; what it logs lies in the inode, bitmap and data areas; three blocks of data log at most ten distinct blocks |
| InodeCode.FileSystem.WriteChunk | kernel/file.c:158-173 | one transaction of a write, recorded with exactly the blocks it logged: at most MAXOPBLOCKS, all in the inode, bitmap and data areas, covering all it changed unless a copy was torn; -1 exactly past the end or beyond the largest file; short only on a full disk or an unreadable source |
| InodeCode.FileSystem.FileWrite | kernel/file.c:148-175 | a write of any length at any offset splices in the bytes reported, in recorded transactions that each fit the log reservation, cover their changes and end a whole number of chunks; it stops short past the end of the file, at the largest size, at an unreadable byte or on a full disk, and for no other reason |
| DiskImage.BitsRoundTrip | kernel/fs.c:70-78 | the marks packed into a bitmap word read back bit by bit |
| DiskImage.OnDiskReads | kernel/fs.h:32-51 | reading a disk that holds a file system gives it back: every mark of the bitmap, type, link count, size and addresses of every inode at their words, and every byte of the data |
| DiskImage.UnloggedSame | kernel/log.c:214-235 | a block that a covering transaction did not log has the same image before and after |
| FileCrash.CarriedOver | kernel/log.c:179-210 | putting the blocks of a group of transactions home takes the disk image of the file system before the group to the one after it |
| FileCrash.ChunkCanCommit | kernel/file.c:158-173 | on a log of more than MAXOPBLOCKS blocks there is, for every transaction of a write, a log transaction that carries it and may be logged |
| FileCrash.GroupIsCommit | kernel/log.c:146-175 | in every run of the admission protocol a commit lists exactly the blocks its operations logged, and no more than the log can hold |
| FileCrash.GroupCanCommit | kernel/log.c:126-203 | so every group that the protocol admits can be committed, for every log size |
| FileCrash.GroupsSurviveCrash | kernel/log.c:117-210 | after any history of group commits, crashes and interrupted recoveries, recovery yields the disk image of the file system after exactly the durable groups |
| FileCrash.WritesSurviveCrash | kernel/log.c:117-210 | transactions of any write calls and truncations of any files, committed in groups, with crashes at any block write: recovery yields a sound file system in which every file is the old one with exactly the durable writes and truncations applied |
| FileCrash.TruncationSurvivesCrash | kernel/fs.c:425-453 | a truncation cut by a crash at any block write: the file is whole or empty, every other file is as before, and the file system is sound |
| FileCrash.ChunkDoes | kernel/file.c:157-174 | each transaction of a write call is the write of one chunk, so that write calls are among the writes above |
| FileCrash.DurableFirst | kernel/log.c:194-210 | until a crash all attempted commits are durable, and after it all but at most the last |
| FileCrash.WriteSurvivesCrash | kernel/log.c:117-210 | a write call cut by a crash at any block write, and any interrupted recoveries: recovery yields the disk image of a sound file system with exactly the durable chunks of the call written |
| FileCrash.CallCanCommit | kernel/file.c:157-174 | on every disk laid out with a clean log of more than MAXOPBLOCKS blocks there is a history that commits the transactions of a call, any number of them |
| Sv39.EntryRoundTrip | kernel/riscv.h:341-352 | an entry gives back the page number and every flag it was made of |
| Sv39.WalkRefines | kernel/vm.c:74-103 | the three-level walk over memory finds, for every page below MAXVA, exactly the flat map's entry |
| Sv39.AddTable | kernel/vm.c:91-101 | entering a zeroed page as a table changes no entry of the flat map |
| Sv39.SetLeaf | kernel/vm.c:157-158 | writing a leaf entry changes that page of the flat map and no other |
| Sv39.FrameTables | kernel/vm.c:85-103 | memory that differs only outside the tables stands for the same map |
| PageOwnership.TakeTable | kernel/vm.c:97-100 | taking a table from the free list keeps free pages and tables disjoint and loses no page |
| PageOwnership.FreeUser | kernel/vm.c:184-190 | freeing a user page and clearing its entry conserves pages and keeps every other user page's bytes |
| PageOwnership.PutBack | kernel/vm.c:241-244 | returning a page that could not be mapped restores every page's owner |
| Teardown.TrimBranch | kernel/vm.c:276-281 | freeing one branch and clearing its entry leaves the later branches intact |
| Teardown.WholeTree | kernel/vm.c:271-287 | every table and every leaf lies below the root, so freewalk from the root reaches all of them |
| VirtualMemory.Kernel.constructor | kernel/kalloc.c:26-40 | after kinit exactly the whole pages between the kernel's end and the top of memory are free, each listed once |
| VirtualMemory.Kernel.Kfree | kernel/kalloc.c:46-63 | pushes a page in the allocator's range, panics exactly outside it |
| VirtualMemory.Kernel.Kalloc | kernel/kalloc.c:68-82 | pops one page of the free list, 0 exactly if it is empty; the list keeps no page twice |
| VirtualMemory.Kernel.AllocTable | kernel/vm.c:97-100 | a fresh table changes no mapping, and fails exactly without free pages |
| VirtualMemory.Kernel.Walk | kernel/vm.c:85-103 | the table that holds the entry of a page; panics exactly at MAXVA; a walk that allocates maps nothing, uses at most two pages and fails only with fewer than two free; one that does not allocate changes nothing |
| VirtualMemory.Kernel.Walkaddr | kernel/vm.c:108-126 | the page of a user address, 0 exactly if it is not mapped for user mode |
| VirtualMemory.Kernel.MapOne | kernel/vm.c:154-158 | maps one page and no other; panics exactly at MAXVA or on a page mapped before |
| VirtualMemory.Kernel.MapRange | kernel/vm.c:152-165 | maps the pages in order up to the first one that fails; that one is mapped before or at MAXVA exactly if it panics, and else the free list is empty |
| VirtualMemory.Kernel.Mappages | kernel/vm.c:142-165 | maps exactly the pages of the range, in order, and no others; a failure leaves a prefix mapped and means the free list ran empty; panics exactly on size 0, MAXVA or a page mapped before |
| VirtualMemory.Kernel.UnmapOne | kernel/vm.c:179-191 | unmaps one page and no other, freeing its memory if asked |
| VirtualMemory.Kernel.Uvmunmap | kernel/vm.c:170-192 | unmaps exactly the pages of the range; panics exactly if one of them was not mapped; with do_free conserves pages and the other pages' bytes |
| VirtualMemory.Kernel.Uvmcreate | kernel/vm.c:196-205 | an empty map of one table page |
| VirtualMemory.Kernel.GiveOne | kernel/vm.c:235-246 | one user page with given bytes and flags, or the map and every page's owner as before; panics exactly on a page mapped before, if there is memory at all |
| VirtualMemory.Kernel.TakeBack | kernel/vm.c:237-244 | the pages given so far go back, and the map is as it was |
| VirtualMemory.Kernel.Uvmalloc | kernel/vm.c:225-249 | the new pages are zeroed, user-accessible and distinct; a failure restores the map and loses no page; it cannot fail with three free pages per page asked for, and then panics exactly if one of them was mapped before; otherwise it panics only at such a page that memory suffices to reach |
| VirtualMemory.Kernel.Uvmdealloc | kernel/vm.c:255-267 | unmaps exactly the pages above the new size and conserves pages; panics exactly if one of them was not mapped |
| VirtualMemory.Kernel.Freewalk | kernel/vm.c:271-287 | frees every table of the subtree and no other page; panics exactly if a leaf entry is left |
| VirtualMemory.Kernel.Uvmfree | kernel/vm.c:291-297 | does not panic exactly if the mapped pages are those below sz; then every page of the space is free again |
| VirtualMemory.Kernel.Uvmcopy | kernel/vm.c:305-333 | the child's pages have the parent's bytes and flags in pages of its own; a failure restores the child's map and loses no page; the parent is untouched either way; it panics only at a page the parent lacks or the child has, and with three free pages per page exactly if there is one |
| VirtualMemory.ApartKept | kernel/vm.c:305-333 | whatever conserves one space's pages leaves another space's map and bytes as they were |
| VirtualMemory.Kernel.ProcPagetable | kernel/proc.c:176-206 | a map of exactly the trampoline and trapframe pages; or, on failure at any point, exactly the pages that were free are free again |
| VirtualMemory.Kernel.ProcFreepagetable | kernel/proc.c:210-216 | does not panic exactly if the mapped pages are those below sz and the two system pages; then every page of the space is free again |
| UserMemory.Process.constructor | kernel/proc.c:132-138 | the table of proc_pagetable is a valid process of size 0 |
| UserMemory.Process.Growproc | kernel/proc.c:259-275 | keeps the process valid: sbrk to any size and back conserves pages, keeps the bytes below both sizes, zeroes new pages and maps them readable, writable and not executable, and keeps the entries of all pages that stay; -1 leaves size and bytes and needs too few free pages; a result below zero wraps and changes nothing |
| UserMemory.Process.Free | kernel/proc.c:162-164 | after any growing and shrinking, freeing a process's memory never panics and returns every page |
| UserMemory.Process.CopyFrom | kernel/proc.c:291-297 | fork's copy: the child reads at every address below its size what the parent reads, through pages with the parent's flags; a failure leaves it empty, and pages are conserved either way |
| UserMemory.Process.Copyout | kernel/vm.c:351-371 | stores the bytes at consecutive user addresses across pages and changes no other byte; fails exactly at the first page not mapped for user mode, with the bytes before it stored |
| UserMemory.Process.Copyin | kernel/vm.c:376-396 | reads exactly the bytes at those addresses; fails exactly if one is not mapped for user mode |
| UserMemory.Process.CopyRoundTrip | kernel/vm.c:351-396 | copyin after copyout returns the same bytes |
| UserMemory.Process.Copyinstr | kernel/vm.c:402-439 | succeeds exactly if there is an accessible NUL within max, and then returns the bytes before the first one |
| UserMemory.ForkedBytes | kernel/proc.c:291-297 | after uvmcopy the child reads at every address below sz what the parent does |
| MemorySystem.SlotStepKeeps | kernel/proc.c:110-174 | a step that trades pages between one process and the free list keeps every page with exactly one owner and changes no byte of another process |
| MemorySystem.MemorySystem.constructor | kernel/kalloc.c:26-40 | before the first process every page of the allocator is free or the kernel's own |
| MemorySystem.MemorySystem.Growproc | kernel/proc.c:259-275 | the process has the new size, the bytes it had below both sizes and zeros in the new pages, which it can write; pages that stay are mapped as they were; on -1 size and bytes stay, and there were fewer than three free pages per page asked for; every page keeps one owner and every other process its bytes |
| MemorySystem.MemorySystem.Copyout | kernel/vm.c:351-371 | the process reads the bytes stored and otherwise what it read before; it stops exactly at the first inaccessible byte; no byte of any other process changes |
| MemorySystem.MemorySystem.Allocproc | kernel/proc.c:110-149 | the lowest unused slot gets a trapframe page and a page table, or nothing changes; fails only without an unused slot or with fewer than six free pages, and takes at most six |
| MemorySystem.MemorySystem.Fork | kernel/proc.c:280-304 | the child, in the lowest unused slot, reads what the parent reads, in pages of its own with the parent's flags; -1 leaves everything as it was, and means no unused slot or fewer free pages than six and three for each page of the parent; nobody else is touched |
| MemorySystem.MemorySystem.Freeproc | kernel/proc.c:156-174 | never panics; exactly the process's pages join the free list |
| MemorySystem.OneOwner | kernel/kalloc.c:26-82 | each page is on the free list, with one process or with the rest of the kernel, and with exactly one of them |
| MemorySystem.RunIsolates | kernel/proc.c:110-304 | over any part of any such run whose calls do not name it, a process keeps its address space, its size and every byte |
| MemorySystem.RunKeepsSystemPages | kernel/proc.c:176-206 | in every state of every such run every process has the trampoline mapped executable and its own trapframe page mapped writable, both out of reach of user mode |
| MemorySystem.MemorySystem.Run | kernel/proc.c:110-304 | any sequence of these calls has a trace of states in which every page has one owner, each state following from the one before by what its call does and returns; without processes all but the kernel's pages are free |
| Umalloc.InsertedRing | user/umalloc.c:24-44 | inserting a block, merged or not, keeps the list circular and in address order |
| Umalloc.InsertedCoalesced | user/umalloc.c:33-42 | after an insertion no two free blocks touch |
| Umalloc.FreeOk | user/umalloc.c:24-44 | free moves exactly the block's units from allocated to free and keeps the heap in order |
| Umalloc.GrowOk | user/umalloc.c:46-61 | new memory becomes an allocated block disjoint from all others |
| Umalloc.TakeWholeOk | user/umalloc.c:75-77 | handing out a whole block conserves units |
| Umalloc.TakeTailOk | user/umalloc.c:78-82 | handing out the upper end of a block conserves units |
| Umalloc.GrowthExact | user/umalloc.c:46-56 | morecore records exactly the memory it obtained if and only if the request is at most 2^31 - 32 bytes |
| Umalloc.StopsSomewhere | user/umalloc.c:30-32 | the search loop of free stops for every address |
| Umalloc.Heap.Place | user/umalloc.c:30-32 | finds, and terminates at, the node after which a block belongs |
| Umalloc.Heap.JoinUp | user/umalloc.c:33-37 | the block is linked to its successor, or absorbs it if they touch |
| Umalloc.Heap.JoinDown | user/umalloc.c:38-42 | the predecessor is linked to the block, or absorbs it if they touch |
| Umalloc.Heap.Free | user/umalloc.c:24-44 | keeps the list circular, address-ordered, coalesced and disjoint from allocated blocks, with free plus allocated units those obtained; the next search starts at the node after which the block belongs |
| Umalloc.Heap.Morecore | user/umalloc.c:46-61 | adds the new memory to the free blocks, or changes nothing if sbrk fails; if no block was large enough before, the one that is now ends where the new memory does |
| Umalloc.Heap.Take | user/umalloc.c:74-85 | the block handed out has the units asked for and overlaps no other |
| Umalloc.Heap.Search | user/umalloc.c:72-89 | terminates, with at most one call of morecore, made exactly if no free block is large enough; NULL exactly if that call fails; otherwise the upper end of the first block large enough on the way round from freep, or of the new memory |
| Umalloc.Heap.Malloc | user/umalloc.c:63-90 | a block disjoint from every other with as many units as a header and the bytes need, and no more, from the upper end of the first block large enough; morecore is called at most once, and exactly if no free block is large enough; NULL exactly if it is called and sbrk fails |
| BufferCache.Cached | kernel/bio.c:66-73 | a cached buffer for the block if there is one |
| BufferCache.Victim | kernel/bio.c:77-88 | the unreferenced buffer nearest the old end of the list; none exactly if all are referenced |
| BufferCache.StepUnique | kernel/bio.c:58-89 | no step caches a block of any device twice |
| BufferCache.StepCounted | kernel/bio.c:58-151 | refcnt is exactly the pins and the handles on the buffer |
| BufferCache.AgreesRecycled | kernel/bio.c:77-86 | recycling a buffer loses nothing: its old block is on the disk, its new one in no buffer |
| BufferCache.AgreesHolder | kernel/bio.c:92-112 | what a lock holder does affects no other buffer's agreement with the block map |
| BufferCache.StepAgrees | kernel/bio.c:58-151 | with one device, every step keeps the cache in agreement with the block map |
| BufferCache.StepRecency | kernel/bio.c:116-137 | every step keeps the list in order of release |
| BufferCache.LabelKept | kernel/bio.c:58-103 | from bget to the end of bread the handle's buffer carries the device and block number asked for, whatever else happens |
| BufferCache.BreadAgrees | kernel/bio.c:92-103 | in every run over one device, bread(dev, blockno) returns the buffer of that block, holding what was last logged or written for it |
| BufferCache.StaleRun | kernel/bio.c:92-103 | with two devices there is a run in which bread misses what was logged through the other device |
| BufferCache.AgreesIffOneDevice | kernel/virtio_disk.c:216-227 | bread agrees with the block map in every run over a set of devices if and only if the set has at most one device besides 0: the driver looks at the block number alone |
| BufferCache.NeverRecycled | kernel/bio.c:77-86 | in every run, no step gives a pinned or used buffer to another block |
| BufferCache.AtMostOneBuffer | kernel/bio.c:58-89 | in every run over any devices, at most one buffer holds a block of a device |
| BufferCache.LeastRecentlyReleased | kernel/bio.c:75-88 | in every run, the victim is the buffer released longest ago among those nobody refers to, and there is none exactly if all are referenced |
| BufferCacheHistory.RunAsked | kernel/bio.c:58-137 | in every run over any devices, a handle's buffer carries the number of the block it last asked for |
| BufferCacheHistory.WriteReachesDisk | kernel/bio.c:105-112 | in every run over any devices, bwrite puts what its handle holds on the block it asked for and on no other, and nothing else writes to the disk |
| BufferCacheHistory.BreadReturnsLastStored | kernel/bio.c:92-112 | in every run over one device, bread returns what was last logged or written for its block, where that follows from the list of calls alone |
| BufferCacheHistory.DiskHoldsLastWritten | kernel/bio.c:105-112 | in every run over one device, the disk holds for each block what was last written to it, by the list of calls alone |
| BufferCacheHistory.StoredIsReadBack | kernel/bio.c:92-137 | from every reachable state in which a handle has read a block it can change it, write or log it, release it, ask for it again and read the same |
| BufferCacheHistory.LastStoredIffOneDevice | kernel/virtio_disk.c:216-227 | bread returns what was last stored in every run over a set of devices if and only if the set has at most one device besides 0 |
| BufferCacheHistory.RefcntAsSaid | kernel/bio.c:116-151 | in every run, refcnt of a buffer is the number of its handles and bpin less bunpin for its block, by the list of calls alone |
| BufferCacheHistory.VictimReleasedFirst | kernel/bio.c:75-88 | in every run, the buffer bget would recycle was never used, or its block was released no later than that of any other buffer nobody refers to, by the list of calls alone |
| BufferCacheCode.Bcache.constructor | kernel/bio.c:36-53 | the list is a ring of all buffers, the last one first |
| BufferCacheCode.Bcache.Insert | kernel/bio.c:46-51 | linking a buffer in front keeps the ring, for every list |
| BufferCacheCode.Bcache.Unlink | kernel/bio.c:126-127 | unlinking a buffer keeps the ring of the others, for every position |
| BufferCacheCode.Bcache.FindCached | kernel/bio.c:66-73 | the forward search finds what the transition system's search finds |
| BufferCacheCode.Bcache.FindVictim | kernel/bio.c:77-88 | the backward search finds the transition system's victim |
| BufferCacheCode.Bcache.Bget | kernel/bio.c:58-89 | the critical section of bget is the transition system's step |
| BufferCacheCode.Bcache.Drop | kernel/bio.c:124-134 | the end of brelse is the transition system's step: the ring stays a permutation of all buffers |
| SleepWakeup.SleepKept | kernel/proc.c:535-580 | no step, and no scan of wakeup, passes a process that is committed to sleep |
| SleepWakeup.OwnKept | kernel/proc.c:547-561 | p->lock is held by the sleeper or by the scan that looks at it, never by two |
| SleepWakeup.StepKeeps | kernel/sleeplock.c:21-41 | every step of every process, the scheduler and kill keeps the invariant |
| SleepWakeup.NoLostWakeup | kernel/proc.c:535-580 | in every interleaving, a process asleep on the lock implies that it is locked or that a release's scan has yet to look at it |
| SleepWakeup.FreeLockHasNoSleepers | kernel/sleeplock.c:21-41 | in every interleaving, a free lock with no release under way has no sleepers, whoever holds the spinlock |
| SleepWakeup.SleepLockExcludes | kernel/sleeplock.c:21-41 | in every interleaving, at most one process is between acquiresleep and releasesleep |
| SleepWakeup.OwnLockIsFree | kernel/proc.c:547-548 | in every interleaving, sleep finds p->lock free while it holds lk->lk |
| SleepProgress.SpinComesFree | kernel/sleeplock.c:21-41 | from every reachable state the holder of lk->lk can come to release it, and if it was releasing the sleep lock that is free then |
| SleepProgress.LocksComeFree | kernel/sleeplock.c:33-41 | from every reachable state the owner of the sleep lock can come to release it, and both locks are free |
| SleepProgress.CanGetLock | kernel/sleeplock.c:21-41 | from every state of every run, every process can come to hold the sleep lock: nobody is stuck |
| ProcessTree.FirstZombie | kernel/proc.c:401-425 | the first zombie child in table order if there is one |
| ProcessTree.ExitedAt | kernel/proc.c:364-380 | what exit does to every slot: children go to init, the exiting process becomes a zombie with its status, nothing else but wakeups |
| ProcessTree.ExitWakes | kernel/proc.c:330-380 | exit wakes exactly those who sleep on the parent of the exiting process, and those who sleep on init if it had children |
| ProcessTree.ExitKeepsTree | kernel/proc.c:364-380 | children are handed over before their parent turns into a zombie |
| ProcessTree.StepKeepsTree | kernel/proc.c:279-435 | every step keeps parents live and older than their children |
| ProcessTree.StepKeepsPids | kernel/proc.c:92-172 | every step keeps pids unique and a zombie's status what it exited with |
| ProcessTree.StepKeepsReaped | kernel/proc.c:390-435 | every step keeps reaped pids distinct and out of use |
| ProcessTree.ChainReachesInit | kernel/proc.c:330-341 | every chain of parents ends at init and visits no process twice |
| ProcessTree.TreeInEveryRun | kernel/proc.c:279-435 | in every run, whenever wait_lock is free, a parent is neither unused nor a zombie, and parents lead to init without a cycle |
| ProcessTree.ReapedOnce | kernel/proc.c:390-435 | in every run, wait returns each pid at most once, with the status its process exited with |
| ProcessTree.ReapedByParent | kernel/proc.c:390-435 | in every run, a zombie stays one, with pid and status, until its parent at that time reaps it |
| ProcessTree.ExitsOnce | kernel/proc.c:346-386 | in every run, a process exits at most once |
| ProcessTree.NoZombieWaitsForSleeper | kernel/proc.c:364-435 | in every run, a process asleep in wait has a child and none that is a zombie |
| ProcessTree.WaiterIsWoken | kernel/proc.c:374 | in every run, as long as a process stays asleep in wait none of its children becomes a zombie |
| ProcessTree.ForkMakesChild | kernel/proc.c:279-324 | in every run, a fork that is not given up ends with a runnable child of the caller in the slot found, with a pid that nobody has or had |
| ProcessTree.ForkExitWait | kernel/proc.c:279-435 | from every reachable state with a running process without zombie children and an unused slot, it can fork and wait, the child's exit wakes it, and wait returns the child's pid and status and leaves the table as it was |
| ProcessTree.ForkGivenUp | kernel/proc.c:286-298 | a fork that is given up leaves the table as it was |
| ProcessTree.SleepsAndWakes | kernel/proc.c:535-580 | a sleep on another channel puts the process to sleep there; the wakeup and the return leave the table as it was |
| ProcessTable.Table.Allocproc | kernel/proc.c:109-125 | the lowest unused slot gets the next pid; fails exactly if none is unused |
| ProcessTable.Table.Freeproc | kernel/proc.c:155-172 | the slot is as if never used |
| ProcessTable.Table.Wakeup | kernel/proc.c:566-580 | wakes exactly the sleepers on the channel other than the caller |
| ProcessTable.Table.Reparent | kernel/proc.c:330-341 | the loop with its repeated wakeups is the one step of the transition system |
| ProcessTable.Table.Exit | kernel/proc.c:364-380 | what exit does under wait_lock is the transition system's step |
| ProcessTable.Table.WaitScan | kernel/proc.c:400-433 | reaps the first zombie child exactly if there is one and its status can be stored; a zombie whose status cannot be stored stays and wait fails; without a zombie it fails exactly without children or when killed, and else sleeps on the process itself |
| ShellParser.GetToken | user/sh.c:266-309 | a word token is a maximal run of word characters; every token but the end makes progress |
| ShellParser.TokenText | user/sh.c:266-309 | every token is a word, or one of the symbols with exactly its text, two characters for >> and never a > cut out of it, with white space and nothing else around it |
| ShellParser.RoundTrip | user/sh.c:328-447 | for every tree of at most nine words per command, nonempty words and the three redirection forms, the fully parenthesised text parses back to it |
| ShellParser.PrintParses | user/sh.c:345-447 | the same inside any enclosing block |
| ShellParser.WordsParse | user/sh.c:432-443 | the words of a command are read back as the same words |
| ShellParser.RedirParses | user/sh.c:375-414 | a redirected block is read back |
| ShellParser.PipeParses | user/sh.c:362-373 | a pipe of two blocks is read back |
| ShellParser.ListParses | user/sh.c:345-360 | a list of two blocks is read back |
| ShellParser.BackParses | user/sh.c:350-353 | a block in the background is read back |
| ShellParser.LineFromLine | user/sh.c:345-447 | for every line, every word of the tree is a word of the line, in the numbers and forms allowed |
| ShellParser.AcceptedLines | user/sh.c:328-343 | for every accepted line, printing its tree in full and parsing that gives the same tree |
| ShellParser.NulTerminateKeepsTokens | user/sh.c:449-494 | after nulterminate every argument and file name of an accepted line reads as its token |
| ShellGrammar.WrapIsRedirected | user/sh.c:375-398 | the redirections of a command nest in the order of the line, with the open modes and descriptors of <, > and >> |
| ShellGrammar.LineSound | user/sh.c:345-447 | what the parser accepts from any position on is a line of the grammar, and the tree is its meaning |
| ShellGrammar.LineComplete | user/sh.c:345-447 | every line of the grammar, followed by the end or a closing parenthesis, is accepted with its meaning |
| ShellGrammar.ParserDecidesGrammar | user/sh.c:328-447 | for every line: it is accepted if and only if its tokens are those of a line of the grammar, with words and redirections mixed in any order and at most nine words per command, and the tree is what that line means |
| ShellCode.GetTokenLoop | user/sh.c:266-309 | the tokenizer's loops compute the specified token |
| ShellCode.PeekLoop | user/sh.c:311-321 | the loop finds the next character, and moves past white space only |
| ShellCode.ParseRedirs | user/sh.c:375-398 | the loop computes the specified redirections, on every input |
| ShellCode.ArgsLoop | user/sh.c:431-446 | the loop computes the specified command, on every input; the tenth word panics |
| ShellCode.ParseExecLoop | user/sh.c:416-447 | terminates on every input with the specified command |
| ShellCode.ParseBlockLoop | user/sh.c:400-414 | terminates on every input with the specified command |
| ShellCode.ParsePipeLoop | user/sh.c:362-373 | terminates on every input with the specified command |
| ShellCode.ParseLineLoop | user/sh.c:345-360 | terminates on every input with the specified command |
| ShellCode.NulTerminate | user/sh.c:449-494 | writes NUL at the end of every word of the tree, and nowhere else |
| ShellCode.ParseCmdLine | user/sh.c:328-343 | the specified tree, or a panic on leftovers; every word of the buffer then reads as in the line |
| VirtioDisk.IndexWraps | kernel/virtio_disk.c:272-323 | 16-bit indices at most NUM apart are equal exactly if the counts are, and index the ring like the counts |
| VirtioDisk.RingPush | kernel/virtio_disk.c:272-277 | a new head never overwrites one that is still waiting in the ring, however often the index wrapped |
| VirtioDisk.Disk.constructor | kernel/virtio_disk.c:144-146 | every descriptor is free |
| VirtioDisk.Disk.AllocDesc | kernel/virtio_disk.c:156-166 | takes one free descriptor; fails exactly if none is free |
| VirtioDisk.Disk.FreeDesc | kernel/virtio_disk.c:169-182 | frees one descriptor; panics exactly if it is out of range or free |
| VirtioDisk.Disk.Rollback | kernel/virtio_disk.c:206-208 | gives back exactly what was taken |
| VirtioDisk.Disk.Alloc3Desc | kernel/virtio_disk.c:201-213 | three distinct free descriptors, or the free set as it was and fewer than three free |
| VirtioDisk.Disk.Format | kernel/virtio_disk.c:238-269 | links head, data and status descriptors and records the buffer; the device may write the status, and the data exactly for a read |
| VirtioDisk.Disk.StartRw | kernel/virtio_disk.c:216-277 | one more chain, disjoint from all others and offered to the device; free descriptors and chains partition the table |
| VirtioDisk.Disk.Publish | kernel/virtio_disk.c:272-277 | the head is offered after all earlier ones |
| VirtioDisk.Disk.DeviceFetch | kernel/virtio_disk.c:272-277 | the device finds in the ring the oldest head it has not fetched |
| VirtioDisk.Disk.DeviceComplete | kernel/virtio_disk.c:309-314 | completing chains in any order keeps the used ring exact |
| VirtioDisk.Disk.IntrOne | kernel/virtio_disk.c:312-324 | a completion lowers the flag of the buffer that submitted it, and of no other |
| VirtioDisk.Disk.Device | kernel/virtio_disk.c:299-310 | after any actions of the device, in any order, its state is that of the actions applied one by one, the rings and the descriptors are exact, and requests only moved on |
| VirtioDisk.Disk.Intr | kernel/virtio_disk.c:294-327 | whatever the device fetches and completes while the loop runs, every completion the last test could see has been processed, requests only move on, and none panics |
| VirtioDisk.Disk.FreeChain | kernel/virtio_disk.c:185-197 | follows the links, frees exactly the chain and never panics |
| VirtioDisk.Disk.FinishRw | kernel/virtio_disk.c:284-291 | after its buffer's flag is down a request's three descriptors are free again and no other chain is touched |
| Pipe.CountersWrap | kernel/pipe.c:88-123 | the full and empty tests on the wrapped 32-bit counters mean what they mean on the counts |
| Pipe.Pipe.constructor | kernel/pipe.c:33-37 | the pipe starts empty and open at both ends |
| Pipe.Pipe.Put | kernel/pipe.c:95 | appends one byte to what was sent and overwrites none that was not taken |
| Pipe.Pipe.Get | kernel/pipe.c:123 | takes the oldest byte not taken |
| Pipe.Pipe.WriteSection | kernel/pipe.c:76-103 | between sleeps a writer appends exactly the next bytes of its buffer; it sleeps exactly on a full pipe; it returns -1 exactly without a reader or once killed, which may be after some bytes; otherwise the count, having written all or met an unreadable byte |
| Pipe.Pipe.ReadSection | kernel/pipe.c:105-130 | between sleeps a reader gets the oldest bytes, in order; as many as it wants, can store and are there; it sleeps exactly on an empty pipe with a writer; a byte whose copyout fails is gone, exactly if more were wanted and there than could be stored |
| Pipe.Pipe.Close | kernel/pipe.c:58-74 | the pipe is freed exactly when both ends are closed |

## Left out

- Assembly, traps, the scheduler's context switch, interrupts and devices other than the virtio
  disk: hardware; swtch and atomic swaps are single steps.
- Memory ordering: the spinlocks are taken to make their sections atomic.
- sys_peterson_destroy: the runs of Tournament exclude it, as the library never calls it.
- Tournament.MutualExclusion: an acquire's doorway and its first test are two steps, although the
  C code does them under one hold of the spinlock; what holds in every run of the model holds in those of the code.
- TournamentBypass.EntersOften: the waiting process has passed its leaf lock and is about to enter the doorway of the
  next one, a point between two system calls; in the run that the proof builds every doorway is followed at
  once by its first test.
- CrashHistory.CrashConsistency: a block write is atomic, as the disk's sector guarantee is used by the code.
- LogAdmission.StepKeepsSpace: operations append at most MAXOPBLOCKS new blocks, the contract of
  begin_op; InodeCode.FileSystem.FileWrite proves it for file writes, the other system calls are not modelled.
- InodeCode.FileSystem.Balloc: the free bitmap is one boolean per block; DiskImage.OnDiskReads says how it lies in
  the words of a block.
- FileCrash.WriteSurvivesCrash: the transactions of one call are committed one by one; FileCrash.WritesSurviveCrash has
  those of several calls in groups. A call whose last chunk was torn is covered up to that chunk.
- FileCrash.WritesSurviveCrash: the transactions take effect one after the other, in the order of the sequence given;
  that concurrent writers under the inode and buffer locks are equivalent to such an order is not proved.
- InodeCode.FileSystem.TruncateFile: of open's transaction the truncation alone, and not the one in iput, which goes on
  to free the inode.
- InodeCode.FileSystem.Writei: the inode is in memory and locked; ilock, iput and reference counts are not modelled.
- Directories, path names, link counts, exec and the other system calls: not modelled.
- BufferCache.BreadAgrees: device 0 is the label that binit leaves and is not asked for. The discipline asked of
  holders is in the model's Unlock step. bpin, bunpin, bwrite and the disk read of bread are steps of the
  transition system, without methods of their own.
- VirtualMemory.Kernel.Kalloc: the free list is a sequence; the links inside free pages are not modelled.
- VirtualMemory.Kernel.Mappages: uint64 overflow of va + size, which no caller produces, is not modelled.
- VirtualMemory.Kernel.MapOne: permissions hold at least one of R, W and X, as those of every caller do; without them
  the entry would read as a pointer to a table.
- VirtualMemory.Kernel.MapRange: permissions as for MapOne.
- VirtualMemory.Kernel.Mappages: permissions as for MapOne.
- VirtualMemory.Kernel.UnmapOne: freeing the trapframe and trampoline pages themselves is outside the model.
- VirtualMemory.Kernel.Uvmunmap: a range that reaches those two pages is allowed with do_free if a page below them is
  missing, at which it panics.
- VirtualMemory.Kernel.Uvmdealloc: as Uvmunmap.
- VirtualMemory.Kernel.Uvmalloc: growing over the trapframe page is modelled if that page is mapped, as in every
  process, or if memory cannot suffice to reach it.
- UserMemory.Process.Growproc: growproc checks no limit; the model relies on physical memory having fewer
  pages than half the user address space, as PHYSTOP says.
- VirtualMemory.Kernel.Uvmcopy: the contract gives nothing after a panic, and leaves open which of a panic and a failure
  comes first when memory is short and a page is wrong.
- MemorySystem.MemorySystem.Run: calls run one after the other; the registers in the trapframe are not modelled, and
  pipes, kernel stacks and the kernel's page table keep the pages they have.
- The page table of the kernel itself (kvmmake, kvmmap, kvminithart), the first process's memory (uvmfirst), the
  stack guard page (uvmclear) and the memory of exec: not modelled.
- Umalloc.Heap.Morecore: requests whose byte count reaches 2^31 are outside its contract; Umalloc.GrowthExact says
  what becomes of them.
- Umalloc.Heap.Search: requests as for Morecore.
- Umalloc.Heap.Malloc: addresses count units of 16 bytes, sbrk's result is a parameter that lies above all memory
  obtained before, and requests are at most 2^31 - 32 bytes, the bound of Umalloc.GrowthExact.
- SleepWakeup.NoLostWakeup: one sleep lock; sleeping on other channels is outside the model.
- SleepProgress.CanGetLock: some schedule brings the process in; no bound under a fair scheduler, as the lock does not
  queue its sleepers.
- ProcessTree.TreeInEveryRun: pids are unbounded, files and memory of a process are not part of the table; sleeps on
  other channels, their wakeups and kill may happen at any time.
- ProcessTree.WaiterIsWoken: a scan of wait that finds no zombie, and the sleep after it, are one step, as both run
  under wait_lock; SleepWakeup is about what happens inside sleep.
- ShellParser.RoundTrip: words hold no NUL. Running commands, cd and reading lines are not modelled.
- ShellCode.ArgsLoop: the C code fills argv while redirections already point to the command; the
  model puts the tree together at the end.
- VirtioDisk.Disk.DeviceComplete: the device reports status 0 and no errors; device setup, request headers and the
  bytes transferred are not modelled.
- Pipe.Pipe.WriteSection: which sleeper wakes first is left open, and wakeups are not counted.
