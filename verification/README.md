# Verified models of the kernel, shell and MapReduce code

A Dafny model of the parts of this repository where correctness is hardest to see by reading:
the xv6 write-ahead log, buffer cache, file layer and directories, process table, sleep-locks,
pipes, page tables and user allocator, the shell's parser and grep's matcher, and the
MapReduce library and run-length coder. `dafny verify dfyconfig.toml` checks everything.

Two forms are used side by side. Protocols whose meaning lies in interleavings (`Log*`, `Bio`,
`SleepLock`, `PipeRuns`, `Procs*`) are step machines: a state, the steps any thread may take,
and theorems about every run of any length, for any number of processes. Code that updates
memory step by step (`*Code`, `InodeCache`, `Pipe`, `Grep`, `Names`, `FsMany`, `Rle`) is written as classes and methods
with the source's loops, each proved against a specification that does not mention the loop. Where
both exist, the methods' steps are steps of the machine.

| files | system |
|---|---|
| LogMachine, LogSafety, LogAtomicity, LogPanic, LogCode | log.c: transactions, group commit, crashes, recovery |
| Bio, BioCode | bio.c: the buffer cache and its LRU ring |
| FsFormat, FsSpec, FsBytes, FsSpace, FsCode, FsMany | fs.c and file.c: bitmap, block map, inodes, reads and writes |
| Names, DirCode, InodeCache | fs.c: directories, as entries and as the bytes of a file, the inode cache, and path names |
| KrSpec, KrCode | umalloc.c: the circular free list of section 8.7 of The C Programming Language |
| VmSpec, VmSteps, VmFrames, VmCode | vm.c and kalloc.c: page tables and page frames |
| SleepLock, Pipe, PipeRuns | sleeplock.c with sleep and wakeup, pipe.c |
| Procs, ProcsSafety, ProcsCode | proc.c: fork, exit, wait, kill, the scheduler |
| ShSyntax, ShGrammar, ShLex, ShCode | sh.c: grammar, lexer, recursive-descent parser, nulterminate |
| Grep | grep.c: the regular-expression matcher |
| MrSpec, MrCode | mapreduce.c, multimap.c, arraylist.c |
| Rle | seuzip.c and seuunzip.c |
| Common | bytes, words and set sizes, shared by the others |

Nine promises one might expect turned out false of the code; the lemmas say exactly when they hold.

- log_write can panic in an operation that keeps to its MAXOPBLOCKS blocks: once that many are logged,
  a further call can panic even for a block it would absorb. In a region larger than LOGSIZE, calling
  it with fewer than MAXOPBLOCKS logged is safe and no larger bound is (`LogPanic.BudgetIsExact`).
- In a region no larger than LOGSIZE, as mkfs makes it, even such calls can panic, two callers can push
  a log slot past the region, and the commit then writes uncommitted data over a home block; in a larger
  one none of this happens (`LogPanic.LogWriteSafeIffFits`). Atomicity itself only needs every commit to
  fit header and region, which testing for room under the lock would give in any region and whatever the
  operations log (`LogSafety.LockedIsSnug`).
- itrunc can log more than MAXOPBLOCKS blocks, as it logs every bitmap block its file's blocks fall under;
  it keeps to them for all files exactly where nine bitmap blocks cover the data region (`FsCode.TruncBudget`).
- namex can panic on a free inode: from a removed directory whose parent has been freed since, every path
  on through ".." does. It panics so only when the path meets a free inode, and never from an inode that
  has links (`InodeCache.Cache.Namex`, `InodeCache.RemovedParent`, `InodeCache.ReachableNeverMeets`).
- malloc returns too small a block when its rounding wraps, and asks sbrk for the wrong amount from
  2 GB on (`KrCode.UnitsHoldRequest`, `KrCode.SbrkAskedInFull`).
- kill(0) marks an unused process slot, and a process forked into it is born killed
  (`ProcsCode.CleanUnlessSpoiled`, `ProcsCode.BornKilled`).
- A reader can be left asleep on a pipe that is not empty, by a writer that gives up half-way (`PipeRuns.SleepOnEmptyUnlessStranded`).
- A reducer that stops before its getter returns NULL starves every later key of its partition: each of them
  is called once and handed nothing (`MrSpec.Starved`); all values are handed out exactly when every call asks
  for all of its own (`MrSpec.ServedInFull`).
- seuzip stops a file at its first byte 0xFF (`Rle.Zip`).

## Model

| member | source | states |
|---|---|---|
| LogMachine.DecodeEncode | Xv6-Syscall/src/log.c:85-113 | word 0 of a written header is the count, the block numbers follow, the rest of the block is kept, and reading it back gives the same list |
| LogSafety.InstallRestores | Xv6-Syscall/src/log.c:69-82 | installing the slots from any point on, onto a disk where the earlier ones are in place, yields the committed home blocks |
| LogSafety.RecoverRestores | Xv6-Syscall/src/log.c:115-122 | recovery run to its end on any recoverable disk rebuilds the committed blocks and leaves an empty header |
| LogSafety.CommitPoint | Xv6-Syscall/src/log.c:101-113 | the single header write moves the disk from recovering to the old contents to recovering to the new ones |
| LogSafety.InstallOne | Xv6-Syscall/src/log.c:69-82 | one install write brings its block to the committed contents and keeps the disk recoverable |
| LogSafety.RunPhased | Xv6-Syscall/src/log.c:125-202 | in every run, whatever the operations log, a commit or recovery has no operation beside it and records stay uncommitted only until the header is written |
| LogSafety.RunSound | Xv6-Syscall/src/log.c:125-233 | in every run whose operations log at most MAXOPBLOCKS blocks each, whatever the region's size, the header on disk is readable, the list in memory and the one on disk each name distinct home blocks, those in memory are pinned in the cache, and the list keeps within the reservations |
| LogSafety.StepInv | Xv6-Syscall/src/log.c:125-233 | every step of every thread, each single block write and a crash at any point keep the log invariant, provided a commit starts only with a list that fits header and region; no bound on what one operation logs is needed |
| LogSafety.RunInv | Xv6-Syscall/src/log.c:125-233 | the invariant holds after every run whose commits fit header and region |
| LogSafety.FitsIsSnug | Xv6-Syscall/src/log.c:213-233 | in a region larger than LOGSIZE every commit of every run fits whose operations log at most MAXOPBLOCKS blocks each |
| LogSafety.LockedIsSnug | Xv6-Syscall/src/log.c:218-223 | were the room tested under the lock that guards the list, every commit of every run would fit, whatever the operations log and however small the region |
| LogSafety.RefusalIsExact | Xv6-Syscall/src/log.c:125-141 | with no commit running, begin_op refuses exactly when the operations outstanding and one more, each logging MAXOPBLOCKS blocks not yet in the list, would take the list past LOGSIZE |
| LogSafety.AdmittedFits | Xv6-Syscall/src/log.c:125-141 | once it admits one, whatever these operations log within MAXOPBLOCKS distinct blocks each fits |
| LogAtomicity.RunFacts | Xv6-Syscall/src/log.c:125-202 | after every run the recoverable contents are the initial disk with the committed transactions applied in order, whatever the operations log and the region's size |
| LogAtomicity.CommitOps | Xv6-Syscall/src/log.c:145-202 | at the commit point the group holds the complete log of every operation in it and nothing of any other |
| LogAtomicity.CrashAtomicity | Xv6-Syscall/src/log.c:69-122 | stop any run whose commits fit header and region, anywhere, also inside recovery any number of times: the next completed recovery gives exactly the committed transactions, each made of whole operations |
| LogAtomicity.RestingDisk | Xv6-Syscall/src/log.c:192-202 | in such runs, outside a commit or a recovery the home blocks themselves are the committed ones |
| LogAtomicity.HistoryGrows | Xv6-Syscall/src/log.c:192-202 | no later step and no crash takes a commit back |
| LogAtomicity.CommitIsDurable | Xv6-Syscall/src/log.c:145-174 | once the committing end_op is through, every operation that ended is committed with its whole log, or was erased whole by a crash before its commit point |
| LogAtomicity.LogSpace | Xv6-Syscall/src/log.c:125-141 | in every interleaving of operations that log at most MAXOPBLOCKS blocks each lh.n plus all unspent reservations stays within LOGSIZE; with nothing outstanding the log is empty and begin_op does not sleep; in a region larger than LOGSIZE every slot in use lies inside it |
| LogAtomicity.NeverStuck | Xv6-Syscall/src/log.c:177-202 | a commit that fits, or a recovery, under way can always take its next step |
| LogPanic.FrugalNeverPanics | Xv6-Syscall/src/log.c:213-233 | if every call of log_write comes from an operation with fewer than MAXOPBLOCKS distinct blocks logged and the region is larger than LOGSIZE, none panics and no slot leaves the region |
| LogPanic.FrugalIsThrifty | Xv6-Syscall/src/log.c:213-233 | such a run logs at most MAXOPBLOCKS blocks per operation |
| LogPanic.FullLogPanics | Xv6-Syscall/src/log.c:218-227 | in a region larger than LOGSIZE, three operations with MAXOPBLOCKS blocks each fill the log, and logging one of their own blocks again panics |
| LogPanic.BudgetIsExact | Xv6-Syscall/src/log.c:213-233 | log_write is safe for all operations with at most m blocks logged if and only if m is less than MAXOPBLOCKS |
| LogPanic.PanicReached | Xv6-Syscall/src/log.c:213-233 | with a region no larger than LOGSIZE a run whose calls all come below that bound reaches the panic |
| LogPanic.RaceReached | Xv6-Syscall/src/log.c:218-223 | two callers that pass the unlocked check together put a block in a slot past the region |
| LogPanic.ClobberReached | Xv6-Syscall/src/log.c:177-190 | the commit that follows writes an uncommitted block over the home block after the region, and recovery no longer gives the committed contents |
| LogPanic.LogWriteSafeIffFits | Xv6-Syscall/src/mkfs.c:25 | no panic, no slot past the region, and crash atomicity: each holds in all such runs if and only if the log region is larger than LOGSIZE |
| LogCode.Log.constructor | Xv6-Syscall/src/log.c:53-66 | a machine just switched on has recovery still ahead of it |
| LogCode.Log.BeginOp | Xv6-Syscall/src/log.c:125-141 | one pass of the loop admits the operation, and counts it, exactly when no commit runs and the list with MAXOPBLOCKS more for each operation outstanding and for this one is at most LOGSIZE long; nothing else changes |
| LogCode.Log.LogWrite | Xv6-Syscall/src/log.c:213-233 | panics exactly when the log is full, even for a block already listed, whatever the operation has logged before; otherwise pins the block's new contents and lists it once, absorbing repeats |
| LogCode.Log.WriteLog | Xv6-Syscall/src/log.c:177-190 | the copy loop is a run of single block writes of the machine, up to the commit point |
| LogCode.Log.WriteHead | Xv6-Syscall/src/log.c:101-113 | one write makes the open transaction part of the history |
| LogCode.Log.InstallTrans | Xv6-Syscall/src/log.c:69-82 | the install loop, in commit or in recovery, is a run of single block writes that changes no committed contents |
| LogCode.Log.ReadHead | Xv6-Syscall/src/log.c:85-96 | after a crash the list in memory is the one on disk |
| LogCode.Log.ClearHeader | Xv6-Syscall/src/log.c:192-202 | the last write of a commit erases the transaction from the log only |
| LogCode.Log.Commit | Xv6-Syscall/src/log.c:192-202 | commits the open transaction with 2n+2 block writes, or nothing when it is empty |
| LogCode.Log.EndOp | Xv6-Syscall/src/log.c:145-174 | the last operation out returns only when the home blocks hold its whole transaction; any other changes neither disk nor log |
| LogCode.Log.RecoverFromLog | Xv6-Syscall/src/log.c:115-122 | whatever a crash left, the home blocks are those of the committed history afterwards |
| LogCode.Log.Reboot | Xv6-Syscall/src/log.c:53-66 | losing power at any point loses memory but neither the disk nor any commit |
| Bio.StepInv | Xv6-Syscall/src/bio.c:61-141 | every step by any caller keeps one buffer per block, exact reference counts and clean buffers equal to the disk |
| Bio.RunInv | Xv6-Syscall/src/bio.c:38-141 | the cache invariant holds after every run from binit |
| Bio.OneBufferPerBlock | Xv6-Syscall/src/bio.c:61-93 | for a real device two buffers never hold the same block |
| Bio.StepValue | Xv6-Syscall/src/bio.c:61-116 | no step changes a block's value except logging or writing that block; recycling a buffer does not |
| Bio.RunValue | Xv6-Syscall/src/bio.c:61-116 | after every run the cache and disk together equal the plain block map of last writes |
| Bio.BreadReturnsLast | Xv6-Syscall/src/bio.c:96-106 | whoever holds a buffer that has been read in sees the value last logged or written |
| Bio.PinnedStays | Xv6-Syscall/src/bio.c:79-90 | a block the log has marked dirty keeps its buffer through any run that does not write it to disk |
| Bio.ReferencedStays | Xv6-Syscall/src/bio.c:61-93 | a buffer anyone has a handle on has a positive count and is never given to another block |
| BioCode.BufferCache.constructor | Xv6-Syscall/src/bio.c:38-56 | binit links the head and exactly all buffers into one doubly linked ring |
| BioCode.BufferCache.FindBlock | Xv6-Syscall/src/bio.c:69-76 | the forward scan finds a buffer with the block if there is one |
| BioCode.BufferCache.FindUnused | Xv6-Syscall/src/bio.c:81-91 | the backward scan finds the least recently used buffer that is neither referenced nor dirty |
| BioCode.BufferCache.Bget | Xv6-Syscall/src/bio.c:61-93 | what bget does to the buffers is a step of the machine, chosen by LRU, and it panics exactly when every buffer is busy |
| BioCode.BufferCache.Brelse | Xv6-Syscall/src/bio.c:120-141 | the last release moves the buffer to the front of an otherwise unchanged ring of all buffers |
| FsFormat.BitAfterSet | Xv6-Syscall/src/fs.c:56-78 | adding a clear bit's mask sets that bit and no other |
| FsFormat.BitAfterClear | Xv6-Syscall/src/fs.c:81-95 | removing a set bit's mask clears that bit and no other |
| FsFormat.UsedAfterMark | Xv6-Syscall/src/fs.c:56-78 | marking one block in the bitmap changes no other block's mark, across all bitmap blocks |
| FsFormat.UsedAfterFree | Xv6-Syscall/src/fs.c:81-95 | unmarking one block changes no other block's mark |
| FsFormat.BitWeight | Xv6-Syscall/src/fs.c:56-95 | bit k of a byte is the one of weight two to the k |
| FsFormat.UsedIsBit | Xv6-Syscall/src/fs.c:56-78 | a block is used exactly when bit b % 8 of byte b / 8 is set, counted through the bitmap blocks one after the other |
| FsFormat.SetWord | Xv6-Syscall/src/fs.c:372-400 | writing one 32-bit entry of a block leaves the others readable as they were |
| FsSpec.AllocDirect | Xv6-Syscall/src/fs.c:372-400 | a fresh block in a direct slot keeps every block of the file named once and marked used |
| FsSpec.AllocIndirect | Xv6-Syscall/src/fs.c:372-400 | a fresh indirect block maps nothing new and is owned like the rest |
| FsSpec.AllocEntry | Xv6-Syscall/src/fs.c:372-400 | a fresh block in an indirect entry keeps ownership, and only that file block is mapped anew |
| FsSpec.TruncDone | Xv6-Syscall/src/fs.c:407-435 | with the file's blocks freed and its addresses zeroed, ownership holds and exactly its marks are gone |
| FsSpec.SyncedUnique | Xv6-Syscall/src/fs.c:220-236 | the disk copy of an inode determines all of its fields |
| FsSpec.DinodeBytes | Xv6-Syscall/src/fs.h:28-36 | a block holds an inode exactly when type, major, minor and nlink are the little-endian shorts at offsets 0, 2, 4 and 6 of its 64 bytes, size the word at 8 and the addresses the thirteen words from 12 on |
| FsBytes.BmapKeepsBytes | Xv6-Syscall/src/fs.c:372-400 | mapping a block changes no byte of the file that was already mapped |
| FsBytes.DataWrite | Xv6-Syscall/src/fs.c:481-511 | writing one data block changes the file's bytes in that block only, because no block is named twice |
| FsBytes.WrittenIsSplice | Xv6-Syscall/src/fs.c:481-511 | the rounds of a write, taken together, splice the source bytes into the file's contents |
| FsBytes.InodeWrite | Xv6-Syscall/src/fs.c:220-236 | writing an inode block changes no file's contents and no mark |
| FsBytes.ChunkBound | Xv6-Syscall/src/file.c:127-145 | one chunk of filewrite at any offset logs at most MAXOPBLOCKS blocks |
| FsBytes.SpliceTwice | Xv6-Syscall/src/file.c:127-145 | two consecutive chunks amount to one write of both |
| FsSpace.NeedNext | Xv6-Syscall/src/fs.c:498-504 | what a range of a file needs is what its first part needs and what the rest needs once that is mapped |
| FsSpace.NeedJoin | Xv6-Syscall/src/file.c:127-145 | two adjacent chunks, the second on what the first left, need the blocks one write of both would |
| FsSpace.NothingNeeded | Xv6-Syscall/src/fs.c:481-511 | bytes below the file's size need no new block |
| FsCode.FileSystem.FirstClear | Xv6-Syscall/src/fs.c:63-71 | the scan of one bitmap block stops at its first clear bit, or where its bits or the disk end |
| FsCode.FileSystem.Balloc | Xv6-Syscall/src/fs.c:56-78 | returns the lowest free block, marked and zeroed, with no other mark changed and nothing changed that is not logged; fails exactly when none is free |
| FsCode.FileSystem.Bfree | Xv6-Syscall/src/fs.c:81-95 | panics exactly on a free block; otherwise clears its mark alone |
| FsCode.FileSystem.Bmap | Xv6-Syscall/src/fs.c:372-400 | a mapped block is returned without any change; otherwise one block, and if needed the indirect one, is added with ownership kept and every change logged; fails exactly past MAXFILE or when fewer blocks are free than these |
| FsCode.FileSystem.Iupdate | Xv6-Syscall/src/fs.c:220-236 | afterwards the disk copy of the inode equals the one in memory and its neighbours in the block are untouched |
| FsCode.FileSystem.Itrunc | Xv6-Syscall/src/fs.c:407-435 | never reaches the freeing-free-block panic, clears exactly the marks of the file's blocks, gives back as many blocks as the file named, leaves an empty file synchronised with disk, and logs exactly the bitmap blocks with those marks and the inode's block |
| FsCode.SpreadFile | Xv6-Syscall/src/fs.c:407-435 | an inode whose direct slots name a data block under each of several bitmap blocks is a file, and its blocks' marks are in at least so many |
| FsCode.TruncBudget | Xv6-Syscall/src/fs.c:407-435 | that is at most MAXOPBLOCKS blocks for every file on every disk if and only if at most nine bitmap blocks cover the data region |
| FsCode.FileSystem.Readi | Xv6-Syscall/src/fs.c:452-476 | returns the requested stretch of the file's bytes, cut at its size, and changes nothing; fails exactly when the offset is past the end or the sum wraps; on a device it returns what the driver answers, or fails without one |
| FsCode.FileSystem.CopyOut | Xv6-Syscall/src/fs.c:469-474 | the block-by-block copy equals a slice of the contents |
| FsCode.FileSystem.CopyIn | Xv6-Syscall/src/fs.c:498-504 | the block-by-block copy maps and writes exactly the range, maps nothing new when the file does not grow, logs all it changes, and fails exactly when fewer blocks are free than the range lacks |
| FsCode.FileSystem.Writei | Xv6-Syscall/src/fs.c:481-511 | the contents become the old ones with the source spliced in, the cached inode equals its disk copy, no other file's block changes, every block changed is logged, and the blocks logged, also at each log_write, are bounded by the range; panics exactly when fewer blocks are free than the range lacks, and takes exactly those; on a device the file system is unchanged |
| FsCode.FileSystem.FileWrite | Xv6-Syscall/src/file.c:117-155 | one transaction per chunk of 1536 bytes; every block changed was logged in one of them, each logs at most MAXOPBLOCKS blocks and calls log_write only with fewer logged already; as many whole chunks as the largest file size admits are spliced in at the old offset, which advances by as much, and -1 is returned exactly when that is not all; it panics exactly when fewer blocks are free than these bytes lack |
| FsMany.Replay | Xv6-Syscall/src/fs.c:452-511 | any sequence of readi and writei returns and leaves what the same operations on a plain byte sequence do, exactly when as many blocks are free as the operations, in turn, lack |
| FsMany.RunNeedWrite | Xv6-Syscall/src/fs.c:481-511 | what a sequence of operations lacks is what its first write lacks and what the rest lacks once that is done |
| FsMany.EmptyFile | Xv6-Syscall/src/fs.c:407-435 | an inode with no addresses is a valid empty file, so sequences may start there |
| FsMany.SameBlocksSameFile | Xv6-Syscall/src/fs.c:452-476 | a file whose blocks are unchanged and still used has the same map and contents |
| FsMany.OtherInodeKept | Xv6-Syscall/src/fs.c:220-236 | writing one inode keeps every other inode's disk copy |
| FsMany.WriteKeepsAllFiles | Xv6-Syscall/src/fs.c:407-511 | across all inodes at once, writing or truncating one file keeps every block named once over all files and every other file's contents |
| Names.NameCmp | Xv6-Syscall/src/fs.c:516-520 | the bounded comparison decides equality of the string with the name field |
| Names.SameNameIsCut | Xv6-Syscall/src/fs.c:516-520 | for NUL-free names that is equality of the names cut to DIRSIZ |
| Names.Linked | Xv6-Syscall/src/fs.c:551-578 | an entry put in an empty slot, or at the end, acts as an insert on the map from names to inodes and keeps names unique; one with inode number 0 changes nothing |
| DirCode.DirentRoundTrip | Xv6-Syscall/src/fs.h:53-56 | the sixteen bytes of an entry read back as that entry |
| DirCode.SpliceEntry | Xv6-Syscall/src/fs.c:569-575 | writing an entry's bytes at a multiple of sixteen replaces that entry of the directory, or appends it, and no other |
| DirCode.Dirlookup | Xv6-Syscall/src/fs.c:524-548 | read entry by entry through readi, the file's bytes give the inode a name stands for and its offset, or none exactly when no entry matches; panics exactly on a file that is not a directory, or that ends within an entry before the name is found |
| DirCode.FreeSlot | Xv6-Syscall/src/fs.c:562-567 | finds the first empty slot, or the end of the file |
| DirCode.Dirlink | Xv6-Syscall/src/fs.c:551-578 | refuses a name that is there; otherwise the bytes written through writei make the directory's map from names to inodes the old one with the name added, names stay unique and no other file changes; panics exactly on what is no directory, on a new name for a directory that ends within an entry, and when no slot is empty and the directory has the largest size or the disk lacks the blocks for one more |
| Names.Skipelem | Xv6-Syscall/src/fs.c:595-618 | splits off the first component, cut to DIRSIZ, and says nothing is left exactly when the rest is empty |
| Names.SplitJoin | Xv6-Syscall/src/fs.c:595-618 | the components found are those a path was joined from |
| Names.SplitIsExact | Xv6-Syscall/src/fs.c:595-618 | the components found are exactly the names the path consists of: stretches without a slash, each as long as it can be, and slashes otherwise |
| Names.SlashesOnly | Xv6-Syscall/src/fs.c:629-657 | a path of slashes alone leads to where it starts and has no parent |
| Names.GoalStep | Xv6-Syscall/src/fs.c:634-651 | one round of the walk: not a directory, stop at the parent, no such name, or go on below |
| InodeCache.Cache.constructor | Xv6-Syscall/src/fs.c:166-178 | the cache starts with no entry in use |
| InodeCache.Cache.Iget | Xv6-Syscall/src/fs.c:241-272 | the entry of an inode, free or not, or the first empty one, gets a reference, so that an inode with references has exactly one entry and it counts them; panics exactly when the inode has no entry and none is empty |
| InodeCache.Cache.Idup | Xv6-Syscall/src/fs.c:276-283 | adds a reference to an entry in use |
| InodeCache.ReadInode | Xv6-Syscall/src/fs.c:299-308 | the fields read from the inode block are those of the inode stored there |
| InodeCache.Cache.Ilock | Xv6-Syscall/src/fs.c:287-312 | afterwards the entry equals the inode on disk; panics exactly on a free inode |
| InodeCache.Discard | Xv6-Syscall/src/fs.c:335-346 | the inode is free on disk and its blocks are given back, with every other file unchanged and every change logged |
| InodeCache.Cache.Iput | Xv6-Syscall/src/fs.c:331-352 | drops one reference; exactly when it is the last one to an inode read in and without links, that inode is freed and as many blocks as it named are given back, with every other file kept; otherwise the disk is unchanged. On an inode read in it keeps the directories in the order Namex needs |
| InodeCache.Cache.Namex | Xv6-Syscall/src/fs.c:624-657 | over the directories on disk, removed ones that are still held among them, the result is the left fold of lookup over the components, or the parent's, from the root if the path starts with a slash and from the current directory if not; slashes alone give the root. Every way out adds one reference to the inode returned and none elsewhere, writes nothing and frees no inode; it panics for want of a cache entry, and never with two empty, or on a free inode exactly when the path meets one, and never so from an inode that has links |
| InodeCache.ReachableNeverMeets | Xv6-Syscall/src/fs.c:624-657 | no path from an inode that has links meets a free one |
| InodeCache.EvictedTree | Xv6-Syscall/src/fs.c:331-352 | freeing an unlinked inode that nobody else holds keeps the directories in order, also where a removed directory still names it |
| InodeCache.RemovedParent | Xv6-Syscall/src/fs.c:634-651 | from a removed directory whose parent is free every path on through ".." meets that free inode |
| InodeCache.ParentGone | Xv6-Syscall/src/fs.c:287-352 | letting go the last reference to a removed directory frees it, and opening "../x" from one inside it then panics on the free inode, unless the cache was full |
| KrCode.UnitsHoldRequest | Xv6-Syscall/src/umalloc.c:63-69 | the units asked for hold the request if and only if the 32-bit rounding does not wrap, and one fewer would not |
| KrCode.UnitsWrap | Xv6-Syscall/src/umalloc.c:63-69 | the largest request is given a header and no room |
| KrCode.SbrkAskedInFull | Xv6-Syscall/src/umalloc.c:46-57 | sbrk is asked for all of the units if and only if they come to less than 2 GB |
| KrSpec.FreedSorted | Xv6-Syscall/src/umalloc.c:24-44 | with the freed block in place the list is address-ordered with one wrap and no two free blocks touch |
| KrSpec.FreedLinked | Xv6-Syscall/src/umalloc.c:33-42 | the two joins leave headers that form exactly that list |
| KrSpec.FreedTiles | Xv6-Syscall/src/umalloc.c:24-44 | free and live blocks still cover the memory from sbrk without overlap |
| KrCode.StopsAtPlace | Xv6-Syscall/src/umalloc.c:30-32 | the search test is true at exactly one list node, the one the block belongs after |
| KrCode.Allocator.constructor | Xv6-Syscall/src/umalloc.c:21-22 | the empty allocator is valid |
| KrCode.Allocator.FindPlace | Xv6-Syscall/src/umalloc.c:28-32 | the walk from freep terminates at that node |
| KrCode.Allocator.Free | Xv6-Syscall/src/umalloc.c:24-44 | any live block can be freed: the ring stays ordered and joined and all memory stays tiled by free and live blocks |
| KrCode.Allocator.Morecore | Xv6-Syscall/src/umalloc.c:46-61 | a grant anywhere above the break joins the free list and makes room; a refusal changes nothing |
| KrCode.Allocator.Take | Xv6-Syscall/src/umalloc.c:75-85 | the block comes whole, or from the tail end of the free block, disjoint from all live ones |
| KrCode.Allocator.Malloc | Xv6-Syscall/src/umalloc.c:63-90 | returns the end of the first block after freep, round the ring, that is large enough, as a block of the units asked for that was not live; calls morecore, once, exactly when nothing fits, and returns null exactly when sbrk then refuses |
| VmSpec.OthersKept | Xv6-Syscall/src/vm.c:35-80 | an operation on one space leaves every page of every other space mapped and filled as it was |
| VmSpec.MapStep | Xv6-Syscall/src/vm.c:60-80 | mapping a user page turns a held frame into that page's and changes no other page |
| VmSpec.UnmapStep | Xv6-Syscall/src/vm.c:269-276 | unmapping frees that page's frame and changes no other page |
| VmSpec.TabStep | Xv6-Syscall/src/vm.c:44-52 | adding an empty page table maps nothing differently |
| VmSpec.Partition | Xv6-Syscall/src/kalloc.c:59-95 | every frame is free, or in a caller's hands, or owned by exactly one space as its directory, table or page, and never two of these |
| VmSteps.SkipsTo | Xv6-Syscall/src/mmu.h:74-91 | the jump lands one page short of the next 4 MB and does not wrap below KERNBASE |
| VmSteps.Skipped | Xv6-Syscall/src/vm.c:265-268 | where there is no table, page-by-page freeing up to the next 4 MB would do nothing |
| VmSteps.HeldMeanwhile | Xv6-Syscall/src/vm.c:240-246 | a frame fetched, not mapped and given back leaves no trace |
| VmSteps.BackAsBefore | Xv6-Syscall/src/vm.c:342-344 | dropping a space that was not there before restores every use of every frame |
| VmSteps.Reach | Xv6-Syscall/src/vm.c:105-115 | user code reaches no page of the kernel's half, writes reach all of it but the text, and a new user page is open to both |
| VmFrames.NeedNext | Xv6-Syscall/src/vm.c:233-247 | what a range of pages needs is the frame and the missing table of its first page and what the rest needs with that table there |
| VmFrames.NeedFresh | Xv6-Syscall/src/vm.c:325-341 | a space without user tables needs one frame for every page and one for every 1024 begun |
| VmCode.Machine.constructor | Xv6-Syscall/src/kalloc.c:46-53 | every frame between the kernel's end and the top of memory starts out free |
| VmCode.Machine.KAlloc | Xv6-Syscall/src/kalloc.c:82-95 | takes the head of the free list, a frame with no use, and fails only when the list is empty |
| VmCode.Machine.KFree | Xv6-Syscall/src/kalloc.c:59-77 | a frame in use joins the free list and nothing else changes; panics exactly on a frame outside the managed range |
| VmCode.Machine.WalkPgdir | Xv6-Syscall/src/vm.c:35-55 | finds the entry's table, or makes an empty one, open to users and writes, if asked and a frame is left; no page is mapped differently |
| VmCode.Machine.MapPages | Xv6-Syscall/src/vm.c:60-80 | consecutive pages are mapped to consecutive frames with the permission asked for; the tables missing on the way are made, as many frames are taken, and other spaces and pages are untouched; fails exactly when fewer frames are free than tables are missing up to the first page mapped already, and otherwise panics exactly when there is such a page |
| VmCode.Machine.DeallocUvm | Xv6-Syscall/src/vm.c:255-279 | with its 4 MB skip unmaps exactly the present pages between the rounded sizes and frees the same frames in the same order as going page by page |
| VmCode.Machine.AllocUvm | Xv6-Syscall/src/vm.c:221-249 | grows by zeroed, user-writable pages and takes exactly the frames for them and for the tables missing; or, on either out-of-memory path, fails with none of the pages between the sizes mapped and no frame lost; fails exactly when fewer frames are free than pages and missing tables up to the first page mapped already, and otherwise panics exactly when there is such a page |
| VmCode.Machine.FreeVm | Xv6-Syscall/src/vm.c:283-298 | every frame of the space becomes free and no other frame is touched |
| VmCode.Machine.SetupKvm | Xv6-Syscall/src/vm.c:118-136 | succeeds exactly with 65 free frames, a directory and 64 tables: the kernel half of the new space is the direct map with read-only text and the devices, never a remap; otherwise every frame is back |
| VmCode.Machine.CopyUvm | Xv6-Syscall/src/vm.c:315-345 | the child gets every page with the same bytes and flags in frames of its own, the kernel's half, and nothing else, and the parent is untouched; fails, with everything as it was, exactly when fewer frames are free than the pages up to the first absent one take, and otherwise panics exactly when a page of the parent is absent |
| SleepLock.RunInv | Xv6-Syscall/src/sleeplock.c:22-42 | the lock invariant holds in every run of any number of processes |
| SleepLock.MutualExclusion | Xv6-Syscall/src/sleeplock.c:22-42 | at most one process is between acquiresleep and releasesleep |
| SleepLock.NoLostWakeup | Xv6-Syscall/src/proc.c:417-474 | with the inner lock free and the sleep-lock not held, nobody is asleep or about to sleep on it |
| SleepLock.HoldingSleep | Xv6-Syscall/src/sleeplock.c:44-53 | the test is true for exactly the process that holds the lock |
| SleepLock.SleepersHaveAMover | Xv6-Syscall/src/proc.c:417-474 | whenever someone sleeps, some process that holds a lock can move |
| Pipe.FullTest | Xv6-Syscall/src/pipe.c:85-114 | the comparisons of wrapping 32-bit counters tell full and empty exactly |
| Pipe.SlotsDiffer | Xv6-Syscall/src/pipe.c:93 | the slot written next is none of those still to be read, across a counter wrap too |
| Pipe.Ring.constructor | Xv6-Syscall/src/pipe.c:22-57 | a new pipe is empty and open at both ends |
| Pipe.Ring.Push | Xv6-Syscall/src/pipe.c:93 | one byte is appended to the queue |
| Pipe.Ring.Pop | Xv6-Syscall/src/pipe.c:113-117 | the oldest byte is removed |
| Pipe.Ring.WriteStretch | Xv6-Syscall/src/pipe.c:78-98 | a writer appends as many of its bytes as fit, in order, and stops short only with the pipe full: it has written all, or fails exactly if the read end is closed or it was killed, or sleeps |
| Pipe.Ring.ReadStretch | Xv6-Syscall/src/pipe.c:100-121 | a reader gets the oldest bytes, at most as many as it asked for, if there are any or the write end is closed; otherwise it fails if killed and sleeps if not, and the bytes stay |
| Pipe.Ring.Close | Xv6-Syscall/src/pipe.c:59-75 | closes one end and keeps the bytes; the page is freed exactly when neither end is open any more |
| PipeRuns.RunInv | Xv6-Syscall/src/pipe.c:59-121 | the pipe invariant holds in every interleaving |
| PipeRuns.Fifo | Xv6-Syscall/src/pipe.c:78-121 | what readers got is a prefix of what writers gave, and no more than PIPESIZE bytes behind |
| PipeRuns.NeverBothAsleep | Xv6-Syscall/src/pipe.c:78-121 | a reader and a writer are never both asleep |
| PipeRuns.ReadersSeeTheEnd | Xv6-Syscall/src/pipe.c:100-121 | in every run, once the write end is closed no reader is asleep, and one that runs returns at once with what it asked for or all that is left |
| PipeRuns.WritersSeeTheEnd | Xv6-Syscall/src/pipe.c:78-98 | in every run, once the read end is closed no writer is asleep, and one that runs returns at once, with all its bytes stored or the pipe full |
| PipeRuns.CloseIsFinal | Xv6-Syscall/src/pipe.c:59-75 | an end is closed by closing it and by nothing else, and for good |
| PipeRuns.FallsAsleep | Xv6-Syscall/src/pipe.c:78-121 | a process falls asleep exactly when, not killed, it reads an empty pipe that can still be written, or has more to write than fits one that can still be read |
| PipeRuns.SleepingReaderFullPipe | Xv6-Syscall/src/pipe.c:85-92 | a run in which a killed writer leaves a reader asleep on a full pipe |
| PipeRuns.SleepOnEmptyUnlessStranded | Xv6-Syscall/src/pipe.c:78-121 | readers stay asleep on an empty pipe only, under every step, if and only if the step is not a writer giving up with bytes left while a reader sleeps |
| ProcsSafety.RunInv | Xv6-Syscall/src/proc.c:73-382 | the process-table invariant holds in every run on any number of processes and CPUs |
| ProcsSafety.ExitEntry | Xv6-Syscall/src/proc.c:250-265 | exit makes its own entry a zombie and its children init's, and wakes exactly the sleepers on its parent, and on init when a child is a zombie |
| ProcsSafety.ExitKeepsTable | Xv6-Syscall/src/proc.c:250-265 | handing the children of an exiting process to init leaves no process without a live parent |
| ProcsSafety.ExitKeepsWait | Xv6-Syscall/src/proc.c:250-265 | exit wakes whoever would otherwise wait on a zombie, init included |
| ProcsSafety.ParentsLive | Xv6-Syscall/src/proc.c:180-268 | every process past EMBRYO except init has a parent that is neither UNUSED nor ZOMBIE |
| ProcsSafety.NoMissedExit | Xv6-Syscall/src/proc.c:272-312 | a process asleep in wait has no zombie child |
| ProcsSafety.PidReapedOnce | Xv6-Syscall/src/proc.c:272-312 | no pid is returned by wait twice |
| ProcsSafety.ReapedStackIdle | Xv6-Syscall/src/proc.c:287-299 | wait frees a kernel stack only when no CPU runs on it |
| ProcsSafety.OneCpuPerStack | Xv6-Syscall/src/proc.c:322-382 | no two CPUs ever run on one kernel stack |
| ProcsCode.ProcTable.constructor | Xv6-Syscall/src/proc.c:10-18 | the table starts with every slot unused |
| ProcsCode.ProcTable.Wakeup1 | Xv6-Syscall/src/proc.c:457-465 | the scan makes runnable exactly the sleepers on the channel and changes nothing else |
| ProcsCode.ProcTable.AllocProc | Xv6-Syscall/src/proc.c:73-93 | takes the first unused slot with a fresh pid and leaves the slot's killed flag as it was; fails only when none is unused |
| ProcsCode.ProcTable.ExitLocked | Xv6-Syscall/src/proc.c:250-265 | the wakeups and the scan amount to the machine's one exit step |
| ProcsCode.ProcTable.WaitScan | Xv6-Syscall/src/proc.c:279-300 | reaps the first zombie child exactly when there is one, giving its pid and leaving its slot unused, without pid, parent or killed mark; else tells whether there are children |
| ProcsCode.ProcTable.WaitPass | Xv6-Syscall/src/proc.c:277-311 | one pass of wait reaps exactly when a child is a zombie, gives up exactly when none is and there is no child or the caller was killed, and otherwise sleeps on itself |
| ProcsCode.ProcTable.Kill | Xv6-Syscall/src/proc.c:479-497 | the first slot with the pid is marked killed and is runnable if it slept, in the same state if not, with its other fields and all other slots as they were; fails, changing nothing, exactly when no slot has the pid |
| ProcsCode.KillStep | Xv6-Syscall/src/proc.c:479-497 | the machine's kill does the same to the same slot and nothing else |
| ProcsCode.KillWakes | Xv6-Syscall/src/proc.c:479-497 | after any run, a kill leaves the process with that pid marked and not asleep: runnable if it slept, else as it was |
| ProcsCode.KillFinds | Xv6-Syscall/src/proc.c:479-497 | with the table's lock free every process can be killed |
| ProcsCode.CleanUnlessSpoiled | Xv6-Syscall/src/proc.c:479-497 | unused slots stay unmarked under every step if and only if the step is not a kill that hits one, or the failure of a fork whose embryo was killed |
| ProcsCode.KillZero | Xv6-Syscall/src/proc.c:479-497 | kill(0) is such a step from the first state on |
| ProcsCode.BornKilled | Xv6-Syscall/src/proc.c:180-218 | a run whose only kill is of pid 0 makes a process runnable with its killed flag set |
| ShSyntax.RoundTrip | Xv6-Syscall/src/sh.c:344-446 | the parser reads a printed command back, whatever closes it |
| ShSyntax.ParserUndoesPrinter | Xv6-Syscall/src/sh.c:344-446 | parsing the fully parenthesised tokens gives the tree back if and only if it has fewer than MAXARGS arguments per command and the two kinds of redirection |
| ShSyntax.EveryWordPlacedOnce | Xv6-Syscall/src/sh.c:344-446 | whatever is accepted holds each word of the line exactly once and parses back from its print |
| ShSyntax.ParseMap | Xv6-Syscall/src/sh.c:344-446 | the tree depends on symbols and words only, not on where they stand |
| ShGrammar.ParserIsGrammar | Xv6-Syscall/src/sh.c:344-446 | the parser accepts a token sequence with a tree if and only if the grammar, stated by where a sequence can be cut, gives it that tree |
| ShGrammar.PipeBinds | Xv6-Syscall/src/sh.c:361-372 | without parentheses, a pipe takes one simple command or block on its left and the rest of the pipeline on its right |
| ShGrammar.ListBinds | Xv6-Syscall/src/sh.c:344-359 | & puts the whole pipeline before it in the background, and ; takes a pipeline with its &s on its left and the rest of the line on its right |
| ShGrammar.MinimalParentheses | Xv6-Syscall/src/sh.c:344-446 | printed with parentheses only where a tighter operator holds a looser one, a tree is read back if and only if the shell can hold it |
| ShLex.LexRender | Xv6-Syscall/src/sh.c:265-308 | the tokens read from the printed text are the ones printed |
| ShLex.LexIsSpelling | Xv6-Syscall/src/sh.c:265-308 | the tokens found are exactly those the text consists of: white space around them, no word that runs on, no > that is half of >> |
| ShLex.MeaningIs | Xv6-Syscall/src/sh.c:265-446 | lexing and parsing give a tree if and only if the text spells tokens that have that tree in the grammar |
| ShLex.PrintedMeaning | Xv6-Syscall/src/sh.c:265-446 | printing a command as text and reading it gives the command back, exactly for the trees the shell can hold |
| ShLex.TokenIsCString | Xv6-Syscall/src/sh.c:449-493 | a NUL after each word never cuts another word short |
| ShLex.TokensAreCStrings | Xv6-Syscall/src/sh.c:449-493 | after nulterminate every argv and file string is exactly its token |
| ShCode.Parser.Scan | Xv6-Syscall/src/sh.c:276-302 | at a token, the switch returns its kind and stops at its end |
| ShCode.Parser.GetToken | Xv6-Syscall/src/sh.c:265-308 | returns the kind and extent of the next token and stands before the one after |
| ShCode.Parser.Peek | Xv6-Syscall/src/sh.c:310-320 | tells whether the next token starts with one of the symbols, without taking it |
| ShCode.Parser.ParseRedirs | Xv6-Syscall/src/sh.c:374-397 | takes the redirections the grammar takes, with their modes, or panics as it says |
| ShCode.Parser.ParseBlock | Xv6-Syscall/src/sh.c:399-413 | agrees with the grammar, failing exactly where it fails |
| ShCode.Parser.ParseArgs | Xv6-Syscall/src/sh.c:429-445 | the argument loop agrees with the grammar, up to the MAXARGS panic |
| ShCode.Parser.ParseExec | Xv6-Syscall/src/sh.c:415-446 | agrees with the grammar |
| ShCode.Parser.ParsePipe | Xv6-Syscall/src/sh.c:361-372 | reads what the parser on tokens reads, which the grammar determines, and fails exactly where that fails |
| ShCode.Parser.ParseLine | Xv6-Syscall/src/sh.c:344-359 | reads what the parser on tokens reads, which the grammar determines, and fails exactly where that fails |
| ShCode.Parser.NulTerminate | Xv6-Syscall/src/sh.c:449-493 | writes a NUL right after each word of the tree and changes no other character |
| ShCode.Parser.ParseCmd | Xv6-Syscall/src/sh.c:327-342 | panics, leaving the line as it was, exactly when the line spells no tokens with a tree in the grammar; otherwise the tree read off the C strings in the buffer is the one the line has, and only the ends of words are overwritten |
| Grep.MatchHere | Xv6-Syscall/src/grep.c:85-96 | true if and only if some word of the pattern starts the text, and is all of it under a final $ |
| Grep.MatchStar | Xv6-Syscall/src/grep.c:99-106 | the do-while loop decides the same for a starred character before the pattern |
| Grep.Match | Xv6-Syscall/src/grep.c:72-82 | sound and complete for the meaning of every pattern on every text |
| Grep.StartsStar | Xv6-Syscall/src/grep.c:99-106 | a starred item matches by taking nothing, or one fitting character and then itself |
| Grep.ReadsAsWritten | Xv6-Syscall/src/grep.c:72-106 | every pattern is read as items that are written as that very pattern and can be told from what follows them |
| Grep.WrittenReads | Xv6-Syscall/src/grep.c:72-106 | items are read back as themselves if and only if no single character stands before a *, none is a $ at the end, and the end anchor comes last |
| Grep.PlainMeans | Xv6-Syscall/src/grep.c:72-96 | a pattern without special characters matches exactly the texts it occurs in |
| Grep.SpecialMeans | Xv6-Syscall/src/grep.c:72-106 | . matches every text but the empty one, ^c*$ exactly the texts of that character alone, and ^.*$ all |
| MrSpec.EachKeyReducedOnce | Map_Reduce/mapreduce.c:98-117 | each emitted key of a partition is reduced exactly once, in ascending order, with exactly the multiset of values emitted for it |
| MrSpec.ScheduleIndependent | Map_Reduce/mapreduce.c:35-39 | however emits interleave and equal keys are sorted, reducers see the same keys and the same values |
| MrSpec.ShareCount | Map_Reduce/multimap.c:13-19 | a partition holds each pair as often as it was emitted if its key hashes there, and never otherwise |
| MrSpec.CmpZero | Map_Reduce/mapreduce.c:92-96 | the key comparison is zero only on equal keys and antisymmetric |
| MrSpec.PrefixFirst | Map_Reduce/mapreduce.c:92-96 | a key comes before every longer one that it starts |
| MrSpec.FirstDifferenceDecides | Map_Reduce/mapreduce.c:92-96 | otherwise the first character that differs decides |
| MrCode.ArrayList.EnsureVolume | Map_Reduce/arraylist.c:14-28 | doubling reaches the volume without passing twice the need, and the contents move over unchanged |
| MrCode.ArrayList.Push | Map_Reduce/arraylist.c:30-34 | appends to the contents, growing when full |
| MrCode.MultiMap.PutItem | Map_Reduce/multimap.c:13-19 | every partition's list is the sequence of its share of all emits so far, and no iterator moves |
| MrCode.GetNextValue | Map_Reduce/mapreduce.c:98-107 | hands out the next value while the key is the same and moves only then |
| MrCode.Ask | Map_Reduce/wordcount.c:23-29 | a reducer that asks a number of times gets so many values of its key from where the iterator stands, or all that follow it there |
| MrCode.ReduceThread | Map_Reduce/mapreduce.c:109-117 | one call per run of equal keys of the sorted array, in ascending order, each handed as many of its run's values as it asks for, and none once an earlier call has stopped early; the iterator ends at the end exactly when no call did |
| MrSpec.ServedInFull | Map_Reduce/mapreduce.c:98-117 | every call is handed all the values of its key if and only if every call asks for all of its own |
| MrSpec.Starved | Map_Reduce/mapreduce.c:98-117 | after a call that stops early every later key of the partition is called with no values |
| MrCode.EmitAll | Map_Reduce/mapreduce.c:35-39 | any sequence of emits leaves exactly those emits, partition by partition |
| MrCode.ReduceAll | Map_Reduce/mapreduce.c:109-126 | in every partition the calls are those of its sorted array's runs of equal keys, each handed what it asks for until one stops early |
| MrCode.Run | Map_Reduce/mapreduce.c:128-140 | from the first emit to the last call: every emitted key is reduced exactly once over all partitions, in its own partition; the runs hold exactly the values emitted for their keys, and the reducers are handed them in full if and only if each asks for all of its own |
| MrCode.Fill | Map_Reduce/mapreduce.c:72-77 | a mapper takes consecutive files until it has its quota or they run out, and never one file more |
| MrCode.Assign | Map_Reduce/mapreduce.c:70-78 | the lists are a prefix of the files and the bytes left over are at most the total modulo the mappers |
| MrCode.LargestTakesAll | Map_Reduce/mapreduce.c:64-78 | when the largest file exceeds the total modulo the mappers every file is assigned |
| MrCode.LeftOverHappens | Map_Reduce/mapreduce.c:70-78 | two mappers must leave out one of three one-byte files |
| Rle.UnpackPack | Unix_Utilities/seuzip/seuzip.c:15-16 | the entry format loses nothing |
| Rle.ZippedFits | Unix_Utilities/seuunzip/seuunzip.c:20 | a file below 2 GB has no run the decoder's int cannot count |
| Rle.Zipper.PrintCompressed | Unix_Utilities/seuzip/seuzip.c:5-19 | entries written and the run in progress always stand for the bytes fed, and no two runs could be one |
| Rle.Zipper.Flush | Unix_Utilities/seuzip/seuzip.c:38 | the final call writes the run in progress, and nothing for an empty input |
| Rle.Zipper.ZipFile | Unix_Utilities/seuzip/seuzip.c:34-35 | a file is read up to its first byte 0xFF |
| Rle.Zip | Unix_Utilities/seuzip/seuzip.c:21-41 | the output decodes to what was read, and to the files themselves if and only if none has a byte 0xFF |
| Rle.Unzip | Unix_Utilities/seuunzip/seuunzip.c:4-25 | writes what the entries stand for, ignoring an incomplete last one |

## Left out

- LogCode.Log.LogWrite: requires a block outside the log region, as every file-system call passes.
- Bio.BreadReturnsLast: a caller's changes count from the log_write or bwrite that follows them under the same lock; a caller that changes a buffer and does neither is not modelled.
- FsCode.FileSystem.Writei: after the panic for a full disk only that fact is stated of the disk.
- FsCode.FileSystem.FileWrite: models a regular file or directory opened for writing; the chunks a device driver is handed, where it may answer differently each time, are not modelled, the pipe branch is in Pipe, and a read-only file is refused by the source before any of this. After the panic for a full disk only that fact is stated of the disk.
- KrCode.Allocator.Malloc: requests that need 2 GB or more from sbrk are excluded by its precondition; the arithmetic lemmas say what goes wrong with them. The list's base header is taken to lie below the heap.
- KrCode.Allocator.Morecore: the same 2 GB bound is required.
- VmCode.Machine.MapPages: a user page is mapped one at a time onto a frame its caller holds, as all callers do.
- VmCode.Machine.KFree: freeing a frame that is free already, which the source does not detect, is excluded.
- MrCode.ReduceThread: qsort is a parameter, any sorted rearrangement of the array; a reducer asks its getter for its own key only.
- MrCode.LargestTakesAll: gives one direction; with a small largest file it depends on where the greedy cuts fall whether one is left out, and no condition simpler than the loop itself decides it.
- Rle.Unzip: runs longer than INT_MAX are excluded, because the source's loop counter overflows on them.
- DirCode.Dirlink: after a panic nothing is stated of the disk.
- InodeCache.Cache.Namex: requires a root, directories of whole entries, linked directories that name inodes with links, and removed ones that name inodes with links, in use or free. Iput is shown to keep this up; dirlink, unlink and the rest of the system calls are not composed here. The sleep-lock on each inode is left to SleepLock, so nothing changes the tree during the walk.
- Boot code, drivers, interrupts and assembly: hardware access. The disk is a sequence of blocks written one at a time.
- Spinlocks, context switches and memory ordering: critical sections are atomic steps.
- The layers are joined at their interfaces, not in one state: the log treats block contents as opaque, the file layer sees blocks through log_write, the cache machine sees both.
- ialloc, sys_unlink and the rest of sysfile.c: ialloc is balloc's search over inodes instead of bits, and the system calls string together begin_op, namex, dirlink, writei and end_op, whose effects are proved here one call at a time; link counts across a whole unlink are not.
- bget running out of buffers in the cache machine: a panic, taken as the end of a run; BioCode says when.
- The wrap-around of nextpid, which would need two billion forks.
- clearpteu, inituvm, loaduvm, copyout and uva2ka in vm.c, exec.c and trap.c.
- grep's line buffer (grep.c lines 10 to 36), where a long line loses data: only the matcher is modelled.
- runcmd and the forking half of sh.c.
- The user programs, seush, seucat, seugrep and wordcount beyond the reducer's shape.
