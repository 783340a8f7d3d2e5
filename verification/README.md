# A verified model of an ARMv8 teaching kernel

This project models the hard core of an xv6-style kernel for ARMv8, of its image builder `mkfs` and of
its shell, and proves what those parts are for. Every file is Dafny; `dafny verify dfyconfig.toml`
checks all of it.

Code that updates state in place is modelled by classes and methods with the source's loops, each proved
against a function or predicate over the old state. Code that several processors or interrupt handlers run
at once is modelled by a state machine with one step per access to a lock or to shared data (sequentially
consistent), and theorems about it speak of every state of every run, for any number of processes.

| file | part of the system |
|---|---|
| `Common` | the option type, and sequences without duplicates |
| `Bytes` | sectors and the little-endian words in them |
| `LogSpec`, `Log` | write-ahead log: disk images after each sector write, crash and recovery; `log_write` |
| `Admission` | `begin_op` and `end_op` over any number of processes |
| `Bio` | buffer cache: users of buffers interleave, buffers are recycled, pinned and written back |
| `FsSpec`, `Budget`, `Fs`, `FsRun` | bitmap, block maps, free blocks and blocks needed, byte-range reads and writes, truncation, inode allocation; whole runs of operations |
| `DirSpec`, `Dirs`, `Namex` | directories as maps, path walking, inode-cache references and locks |
| `Dinode`, `Space`, `Mkfs` | inodes in sectors, the blocks that files take, the image builder's operations |
| `MkfsRun`, `RootDir`, `MkfsMain`, `BootImage` | whole builds and their exact capacity, the root directory, and what the kernel finds in the image |
| `Layout` | the bytes of words, super block, inodes, directory entries and bitmap, spelled out |
| `Mcs`, `SleepLock` | the MCS queue lock; sleep locks on top of sleep and wakeup |
| `ProcSpec`, `Sections`, `Proc`, `Ptable` | process table, run queues, sleep lists, fork, exit and wait |
| `SdQueue` | the disk request queue between `sdrw` and the interrupt handler |
| `List` | intrusive circular lists on the heap |
| `Frames` | the page allocator over whole runs |
| `VmSpec`, `Vm`, `VmHw` | four-level translation tables over that allocator, and what the memory management unit makes of them |
| `Shell`, `ShellLex`, `ShellGrammar`, `ShellText` | tokens, recursive descent, the language it accepts, the node arena, printing and NUL termination |

Some facts about the code came out of the proofs:

- `log_write` records a block only if it is already in the header (kern/log.c:259), the opposite of its
  comment. `Log.CodedRecordsNothing` and `Log.CodedIsMeantIff` say what follows; commit and recovery are
  proved for every well-formed header, however it was filled.
- With `log_write` as documented, a full log of LOGSIZE blocks is admitted (`Admission.FullLogReachable`)
  while mkfs reserves LOGSIZE sectors including the header, so the last slot lies in the first inode sector
  (`Log.SlotsFitIff`). As coded the header stays empty, so the code does not come there.
- No code but `proc_alloc` and `fork` sets a priority, so every process has the highest one and three of the four
  run queues stay empty (`Proc.OneQueue`).
- `ialloc` never hands out the first inode of a block (kern/fs.c:209); `Fs.FileSystem.Ialloc` says so.
- `dirlink` cuts the inode number to 16 bits: `DirSpec.LinkedExactly` says exactly when it inserts the
  number it was given.
- `mkfs` adds a whole block to a root directory that already ends at a block boundary; the added bytes
  read as free entries (`RootDir.PaddingAddsNothing`).
- Of two files that `mkfs` gets under one name, the kernel finds the first (`MkfsMain.FindInRoot`).
- The shell gives `>` and `>>` the same meaning (user/src/sh/main.c:404-409).
- The shell takes its nodes from 10000 bytes and exits when they are used up, so a legal line can be refused:
  `ShellText.RoundTrip` says exactly which, and a line of semicolons is parsed up to 51 of them
  (`ShellText.SemicolonLimit`).

## Model

| member | source | states |
|---|---|---|
| LogSpec.CrashAtomic | kern/log.c:95-155 | for any well-formed transaction and a crash after any number of commit's sector writes, recovery leaves every home block as before the commit (up to the header write) or every one as after it |
| LogSpec.CommitCompletes | kern/log.c:223-232 | the image after commit's last write has exactly the transaction's contents in the home blocks |
| LogSpec.RecoveryRestarts | kern/log.c:147-155 | a crash after any write of recovery leaves a disk from which recovery gives the same home blocks |
| LogSpec.RebootIsRecovery | kern/log.c:147-155 | any number of crashes during recovery, at any points, end in the same home blocks as one undisturbed recovery |
| LogSpec.RunIsIdeal | kern/log.c:207-232 | over any sequence of commits, each with a crash anywhere in it and any number of crashes in the following recoveries, the disk is that of the ideal machine that does each durable commit at once and no other |
| LogSpec.CommitImagesAt | kern/log.c:223-232 | the k-th image recorded while committing is the disk after k sector writes |
| LogSpec.RecoveredApplies | kern/log.c:95-110 | recovery applies the transaction the header names |
| LogSpec.InstallApplies | kern/log.c:95-110 | installing k blocks is applying k blocks of the transaction, later entries for a block winning |
| LogSpec.RedoCompletes | kern/log.c:95-110 | redoing the whole transaction over a disk where a prefix was installed gives the same home blocks |
| Log.Logger.WriteLog | kern/log.c:207-221 | the recorded blocks' cached contents reach the log slots, one image per sector write, and no home block changes |
| Log.Logger.WriteHead | kern/log.c:133-145 | the header sector names exactly the recorded blocks, in one sector write |
| Log.Logger.ReadHead | kern/log.c:112-126 | the in-memory header becomes what the header sector names |
| Log.Logger.InstallTrans | kern/log.c:95-110 | each home block gets its log slot's contents, one image per sector write |
| Log.Logger.Commit | kern/log.c:223-232 | the home blocks get the recorded contents, the header is cleared, and the images on the way are those that CrashAtomic speaks of |
| Log.Logger.Recover | kern/log.c:147-155 | the disk becomes the recovered one, and the images on the way are those that RecoveryRestarts speaks of |
| Log.Logger.LogWrite | kern/log.c:244-266 | the header after one call, with the absorption test as coded |
| Log.MeantRecords | kern/log.c:234-243 | with the test as documented, the header names exactly the blocks recorded before and those written, none twice |
| Log.CodedRecordsNothing | kern/log.c:255-262 | with the test as coded, no sequence of calls records a block that was not recorded, so from an empty header the header stays empty |
| Log.CodedIsMeantIff | kern/log.c:234-266 | code and documentation agree on a header exactly when nothing is written |
| Log.CodedLosesUpdate | kern/log.c:255-262 | a concrete write that the commit after it does not install |
| Log.SlotsFitIff | user/src/mkfs/main.c:30 | all n slots lie in the log area exactly when n + 1 <= size; for a size of LOGSIZE the last slot is the sector after the area |
| Admission.Admission | kern/log.c:157-204 | over every run of any number of processes: the header never exceeds LOGSIZE, committing excludes outstanding operations, and there is at most one committer |
| Admission.RunKeeps | kern/log.c:157-204 | every reachable state reserves MAXOPBLOCKS for each operation in progress |
| Admission.NothingLeft | kern/log.c:180-204 | in every reachable state with no operation and no commit in progress the header is empty |
| Admission.LastCommits | kern/log.c:180-204 | in every run, the step that ends the last operation makes its process the only committer, at once; nobody else ever commits; and a commit ends with an empty header |
| Admission.AllCommitted | kern/log.c:157-204 | over every run, when all operations have ended and no commit is in progress, the commits found exactly as many entries as were recorded |
| Admission.CanEnd | kern/log.c:180-204 | from every reachable state the operations and the commit can come to their end |
| Admission.FullLogReachable | kern/log.c:157-204 | with log_write as documented, not as coded: a run that fills the header to LOGSIZE, which does not fit mkfs's log area |
| Bio.BreadReturnsLatest | kern/bio.c:98-109 | whenever bread has returned, the buffer is for the block asked for and holds the value last written into that block by anyone, whatever was recycled, pinned or written back meanwhile |
| Bio.RecyclingLosesNothing | kern/bio.c:82-93 | when bget recycles a valid buffer, the block it held is on the disk as last written |
| Bio.OneBufferPerBlock | kern/bio.c:62-95 | in every reachable state no two buffers hold the same block of a nonzero device |
| Bio.OneHolderPerBlock | kern/bio.c:62-95 | in every reachable state at most one user holds a block |
| Bio.StepKeeps | kern/bio.c:62-159 | every step keeps the invariant: reference counts are the users plus the pins, and a buffer that differs from the disk is pinned or held by the user who changed it |
| Bio.FlatIsLast | kern/bio.c:62-159 | the flat store of the invariant is the last write to each block in the run |
| Bio.WriteReaches | kern/bio.c:111-121 | after bwrite the disk holds the buffer's contents, which are the last ones written into the block, and no other block has changed |
| Bio.WrittenStays | kern/bio.c:111-121 | over every run, a block written with bwrite and not changed since reads from the disk as last written, whatever is cached, recycled or pinned meanwhile |
| Bio.EveryUseCanEnd | kern/bio.c:62-143 | from every reachable state all users who want or hold a buffer can get through, without any new one coming |
| Bio.CanGet | kern/bio.c:62-95 | bget finds a buffer exactly if some buffer is for the block or is not in use |
| Bio.Cache.constructor | kern/bio.c:41-55 | the list of all buffers, last one first |
| Bio.Cache.Bget | kern/bio.c:62-95 | the buffer for the block if there is one, else the least recently used unreferenced one, re-labelled and not valid; it fails only if every buffer is referenced and none is for the block |
| Bio.Cache.Unreference | kern/bio.c:134-143 | every buffer stays on the list once; the buffer that the next recycling takes stays the same if there was one, and is the one given up by its last user only if there was none |
| Bio.ListByUse | kern/bio.c:134-143 | in every state of every run the list is in the order in which buffers were last let go of |
| Bio.RecyclesOldest | kern/bio.c:82-93 | over every run, the buffer that bget recycles was let go of before every other one that is not in use |
| Fs.FileSystem.Balloc | kern/fs.c:62-84 | the least free block is marked and zeroed, ownership holds, and no file's bytes or references change |
| Fs.FileSystem.Bfree | kern/fs.c:86-103 | exactly this block's bit is cleared and no data block changes |
| Fs.FileSystem.Bmap | kern/fs.c:387-411 | the address of file block bn, allocating a direct entry, the indirect block or an indirect entry as needed and nothing when it is there; every byte of every file reads as before, ownership is kept, and each block taken is one that was missing |
| Fs.FileSystem.Readi | kern/fs.c:479-506 | exactly the slice of the file's contents, cut at its end; the failure condition; no contents change; it finds the disk full exactly when the slice lacks more blocks than are free |
| Fs.FileSystem.Writei | kern/fs.c:512-542 | the contents become the old ones with the bytes spliced in at any offset up to the end, across blocks and the direct/indirect boundary; all other files keep their contents; the failure condition; the disk fills up exactly when the bytes need more blocks than are free, and what is written then |
| Fs.FileSystem.WriteThenRead | kern/fs.c:479-542 | a read of what was just written returns it, and never lacks a block |
| Fs.FileSystem.Itrunc | kern/fs.c:420-445 | exactly the blocks that the inode refers to are freed, and its size is zero |
| Fs.FileSystem.IputFree | kern/fs.c:348-358 | the inode is dead, its blocks are free, ownership holds and all other files keep their contents |
| Fs.FileSystem.Ialloc | kern/fs.c:200-221 | the first dead inode that it looks at becomes an empty file; it fails only if all those are live |
| FsRun.Do | kern/fs.c:200-542 | one operation of any kind gives the answer that a map from inode numbers to files would give, bytes read included, changes the files as it answers, and keeps block ownership, exactly unless it needs more blocks than are free |
| FsRun.RunAll | kern/fs.c:200-542 | any sequence of creations, writes, reads and removals, up to one that needs more blocks than are free when it comes, gives the answers and leaves the files that a map from inode numbers to files would, and keeps block ownership throughout |
| DirSpec.FirstMatch | kern/fs.c:556-594 | the first entry for a name is what the directory says of the name as a map |
| DirSpec.LinkInserts | kern/fs.c:609-623 | an entry written into a free place, or at the end, inserts its name into the map and leaves every other name alone |
| DirSpec.LinkedExactly | kern/fs.c:618-620 | dirlink inserts the number it is given exactly when that number fits in 16 bits and is not zero |
| Dirs.NameEqual | inc/string.h:83-91 | names compare by their first 14 bytes, up to a NUL |
| Dirs.CopyName | inc/string.h:46-58 | the name cut or padded to 14 bytes |
| Dirs.Dirlookup | kern/fs.c:556-594 | lookup in the map keyed by names cut to 14 bytes, with the entry's position; nothing changes |
| Dirs.Dirlink | kern/fs.c:597-625 | insertion into that map, in the first free entry or else at the end, or -1 and no change exactly when the name is there; all other files keep their contents |
| Dirs.NoGrowth | kern/fs.c:609-623 | a directory grows by that exactly if it had no free entry |
| Dirs.SkipElem | kern/fs.c:642-664 | the first component and the position of the rest, empty exactly when there are no components left |
| DirSpec.PathIs | kern/fs.c:628-664 | however many slashes stand before, between and behind them, the components of a path are its names, each cut to 14 bytes |
| Namex.Icache.Iget | kern/fs.c:252-281 | one more reference to the inode and to no other, in its one slot; it fails only if all slots are taken by other inodes |
| Namex.Icache.Idup | kern/fs.c:287-296 | one more reference to the inode and to no other |
| Namex.Icache.Ilock | kern/fs.c:302-323 | the slot is read in and locked, and no count changes |
| Namex.Icache.Iput | kern/fs.c:343-366 | one reference less; the inode is freed exactly when that was the last reference to an inode without links |
| Namex.TargetIsWalk | kern/fs.c:673-707 | what namei looks for is lookup folded over the components |
| Namex.TargetIsParent | kern/fs.c:673-707 | what nameiparent looks for is lookup folded over all components but the last, and must be a directory |
| Namex.Namex | kern/fs.c:673-707 | the inode returned is that fold's result, and null means it has none; every return leaves no lock held, every count as at the call plus one for the inode returned only, and all files' contents; it gives up only when all slots are taken, a directory has a partial entry, an entry names an inode not in use, or the disk is full |
| Layout.WordBytes | user/src/mkfs/main.c:60-70 | a word is stored with its least significant byte first |
| Layout.InodeBytes | inc/fs.h:47-54 | the 64 bytes of an inode, field by field |
| Layout.EntryLayout | inc/fs.h:71-74 | the 16 bytes of a directory entry: the number, then the name cut to 14 bytes and filled up with NULs |
| Layout.SuperBytes | user/src/mkfs/main.c:100-122 | the first 28 bytes of sector 1 of every image |
| Layout.BitIsMask | kern/fs.c:62-103 | a bitmap bit is the bit of that weight in its byte |
| Dinode.PutInodeSame | user/src/mkfs/main.c:199-211 | an inode written into a sector is read back |
| Dinode.PutTable | kern/fs.c:229-244 | writing one inode into its sector changes that entry of the inode table and no other |
| Mkfs.SuperReadBack | user/src/mkfs/main.c:100-122 | the kernel reads from the superblock sector the layout mkfs computed |
| Mkfs.LayoutsAgree | user/src/mkfs/main.c:98-107 | the first data block by the kernel's arithmetic is the first block mkfs hands out |
| Mkfs.Image.constructor | user/src/mkfs/main.c:112-122 | an empty image is well formed |
| Mkfs.Image.Rinode | user/src/mkfs/main.c:213-224 | the inode that the table on the image holds |
| Mkfs.Image.Winode | user/src/mkfs/main.c:199-211 | one entry of the table on the image changes, and no other |
| Mkfs.Image.Ialloc | user/src/mkfs/main.c:239-251 | a new empty file with one link, and no other file changes; it fails exactly when the inode table is full |
| Mkfs.Image.Iappend | user/src/mkfs/main.c:271-313 | it succeeds exactly when the file stays within the size limit and the blocks of all files within the image; then the file's contents, read as the kernel reads them, grow by exactly the appended bytes, no other file's change, and the image stays well formed |
| Space.SnugStep | user/src/mkfs/main.c:283-309 | if every file has exactly the blocks that its size needs, one turn of iappend's loop takes exactly the blocks by which the count for the file's size grows |
| Mkfs.Image.FixRoot | user/src/mkfs/main.c:174-179 | the root's contents are padded with zeros to the next block boundary, by a whole block if already there |
| Mkfs.Image.Balloc | user/src/mkfs/main.c:253-267 | exactly the blocks below freeblock are marked, and the kernel's block ownership holds of the image |
| MkfsRun.Build | user/src/mkfs/main.c:239-313 | a sequence of ialloc and iappend succeeds exactly when each step fits behind those before it, and then each inode holds the concatenation of its pieces, has the type asked for and one link |
| MkfsRun.CapacityIff | user/src/mkfs/main.c:239-313 | a sequence fits step by step exactly when every append names an inode handed out before it and inodes, file sizes and blocks of the whole are within their limits |
| MkfsRun.BuildAndBoot | user/src/mkfs/main.c:199-313 | the kernel boots from exactly the images of sequences that fit: its ownership invariant holds, exactly the blocks that the files take are marked, and each inode's bytes through the kernel's block map are the concatenation of its pieces |
| MkfsMain.FitsIff | user/src/mkfs/main.c:124-172 | main's calls all succeed exactly when there are inodes for the files, each file is within the size limit, and the blocks of the root and of all files are within the image |
| MkfsMain.MakeImage | user/src/mkfs/main.c:73-184 | main as a whole succeeds exactly when the files fit; then the kernel that boots from the image has its ownership invariant, exactly the blocks handed out are marked, and the live inodes are the root, with the entries of the command line, and one file with the bytes of each input, each with one link and no device numbers |
| MkfsMain.FindInRoot | user/src/mkfs/main.c:127-179 | in main's image the kernel's dirlookup in the root answers the number of the first file of that name, and -1 exactly when no file has it |
| MkfsMain.BuildAndRead | user/src/mkfs/main.c:73-184 | from the command line to readi: the file found under its name has its number, and reading it gives its bytes |
| BootImage.TakeAndPut | kern/fs.c:252-366 | on main's image, taking any inode in use, locking it and giving it back leaves the image and all counts as they were |
| BootImage.WalkImage | kern/fs.c:673-707 | on main's image, walking any path keeps what main put there, whatever inodes the walk takes and gives back |
| BootImage.TargetInRoot | kern/fs.c:673-707 | on main's image, what namei looks for under one name is the first file of that name, or nothing when no file has it |
| BootImage.Dots | user/src/mkfs/main.c:127-135 | `.` and `..` in the root lead to the root |
| BootImage.OpenAndRead | user/src/mkfs/main.c:73-184 | from the command line to readi by path: with an empty inode cache the kernel walks to the file and reads its bytes |
| RootDir.AppendEntry | user/src/mkfs/main.c:163-166 | an entry appended to a directory adds its name to the directory as the kernel reads it |
| RootDir.PaddingAddsNothing | user/src/mkfs/main.c:174-179 | the root's size correction adds no names and leaves whole entries |
| RootDir.RootReads | user/src/mkfs/main.c:127-179 | the corrected root, for any list of entries, is a directory of whole entries that maps each name to the number of its first entry and has no other name |
| Mcs.MutualExclusionFifo | kern/spinlock.c:47-70 | over every interleaving of any number of threads at most one holds the lock, and it is granted in the order of successful swaps |
| Mcs.NeverWedged | kern/spinlock.c:47-70 | in every reachable state in which some thread is queued, a queued thread can take an effective step |
| Mcs.RunKeeps | kern/spinlock.c:47-70 | the invariant tying the next and locked fields to the queue holds in every reachable state |
| SleepLock.MutualExclusion | kern/sleeplock.c:11-31 | in every state of every run at most one process holds the sleep lock |
| SleepLock.NoLostWakeup | kern/sleeplock.c:11-31 | whenever its spin lock and ptablelock are free, a process asleep on it implies that it is locked, by a process whose releasesleep is still to come |
| SleepLock.HoldingSleepExact | kern/sleeplock.c:33-42 | holdingsleep answers yes exactly to the process that holds the lock |
| SleepLock.ReleaseWakesAll | kern/proc.c:329-356 | once releasesleep's wakeup is done, no process is asleep on the lock or on its way to sleep |
| SleepLock.EveryoneCanFinish | kern/sleeplock.c:11-31 | from every reachable state all processes at the lock can get through, if holders let go: nobody waits for ever on a spin lock, on ptablelock or asleep |
| SleepLock.StepKeeps | kern/proc.c:294-368 | every step of acquiresleep, releasesleep, sleep, wakeup and of anyone else using ptablelock keeps the invariant |
| ProcSpec.ListsMeans | kern/proc.c:178-216 | the list invariant, counted: each Runnable process once on its queue, each Sleeping one once on its channel's list, each Running one on one cpu, others nowhere |
| ProcSpec.WakeWakes | kern/proc.c:329-356 | wakeup1 makes Runnable exactly those asleep on the channel, appends them to their queues, and leaves nobody asleep on it |
| Sections.WakeOrder | kern/proc.c:344-356 | each queue grows by the woken processes of its priority in the order in which they slept, and the others stay on the hash list in order |
| Sections.SleepThenWake | kern/proc.c:294-356 | after sleep and then wakeup on the same channel the process is Runnable, otherwise as it was, and last on the queue of its priority |
| Proc.SchedulerLists | kern/proc.c:178-385 | in every state of every run from boot, those counts hold |
| Proc.PickServes | kern/proc.c:198-214 | the scheduler serves the front of the highest queue that is not empty and touches no other queue |
| Proc.Fifo | kern/proc.c:178-385 | over every run, those served from a priority queue are those who joined it, in that order |
| Proc.OneQueue | kern/proc.c:67-438 | in every state of every run from boot every process in use has the highest priority, and all queues but that one are empty |
| Proc.EveryoneCanRun | kern/proc.c:178-385 | over every run from boot, whenever a cpu is idle and ptablelock free, every Runnable process can get to run there |
| Proc.WaitExit | kern/proc.c:252-288 | in every state of every run: no process asleep in wait has a Zombie child, no parent pointer names a free slot, no pid was returned by wait twice, and every pid ever given out is in the table or was returned |
| Proc.ReapedByParent | kern/proc.c:441-470 | only a process's current parent, in wait, reaps it, and only once it is a Zombie |
| Proc.StepKeeps | kern/proc.c:50-470 | every locked section keeps the list and family invariants, and only the scheduler takes anything off a run queue |
| Proc.ExitDoes | kern/proc.c:252-288 | after exit the process is a Zombie, every child of it is init's, nobody sleeps on its parent, nobody sleeps on init if one of the children is a Zombie, and all others are as they were or were woken |
| Proc.ExitKeeps | kern/proc.c:252-288 | exit keeps the list and family invariants and takes nothing off a run queue |
| Ptable.Table.constructor | kern/proc.c:37-49 | the empty table, with every list head initialised |
| Ptable.Table.Wakeup1 | kern/proc.c:329-356 | the pass over the hash list wakes exactly those asleep on the channel, in order |
| Ptable.Table.DoYield | kern/proc.c:372-385 | the running process is Runnable, with all its other fields as they were, last on the queue of its priority and off its cpu; nothing else changes |
| Ptable.Table.DoSleep | kern/proc.c:294-323 | the running process sleeps on the channel, with all its other fields as they were, last on that channel's list and off its cpu; nothing else changes |
| Ptable.Table.SleepAndWakeup | kern/proc.c:294-356 | sleep and a wakeup of the channel leave the process Runnable at the back of its own queue |
| Ptable.Table.Schedule | kern/proc.c:198-214 | the front of the highest queue that is not empty starts to run, and leaves the queue; nothing changes exactly when all are empty |
| Ptable.Table.DoExit | kern/proc.c:252-288 | the state the specification of exit gives, through the loop over the table |
| Ptable.Table.WaitTurn | kern/proc.c:441-470 | the first Zombie child is reaped and its pid returned, or -1 exactly when there is no child, or the process sleeps |
| Ptable.Table.CleanProc | kern/proc.c:50-59 | the slot is free and has no parent |
| Ptable.Table.ProcAlloc | kern/proc.c:67-121 | a free slot becomes an Embryo with the next pid and the highest priority; -1 exactly when there is none |
| SdQueue.OutstandingIffQueued | kern/sd.c:618-696 | whenever sdlock is free the queue is nonempty exactly when a command is outstanding, and that is the head's |
| SdQueue.CompletesInOrder | kern/sd.c:618-696 | over every run, requests complete in the order they arrived, each once |
| SdQueue.NoSleeperLeft | kern/sd.c:679-696 | a sleeping requester is still queued, and whenever sdlock is free a command is outstanding: its completion is still to come |
| SdQueue.ReturnsSynced | kern/sd.c:674-696 | when sdrw returns, the buffer is valid and clean and equals its block on the disk |
| SdQueue.HandlerNeverStuck | kern/sd.c:618-672 | the handler never finds an empty queue or an unfinished command |
| SdQueue.EveryRequestCanComplete | kern/sd.c:618-696 | from every reachable state all requests inside sdrw can complete and return |
| SdQueue.StepKeeps | kern/sd.c:618-696 | every step of a requester, of the handler, of the device and of others using ptablelock keeps the invariant |
| List.PushBack | kern/list.c:16-27 | the ring of the old members and the new one at the end |
| List.PushFront | kern/list.c:3-14 | the ring of the new member and the old ones |
| List.PopFront | kern/list.c:29-36 | the first member, and the ring of the rest; of an empty list, its head |
| List.PopBack | kern/list.c:38-45 | the last member, and the ring of the rest; of an empty list, its head |
| List.Delete | kern/list.c:67-72 | the ring without the member, whose own pointers are cleared |
| List.Front | kern/list.c:47-50 | the first member, or the head of an empty list |
| List.Back | kern/list.c:52-55 | the last member, or the head of an empty list |
| List.Empty | kern/list.c:57-60 | whether there are no members |
| List.Init | kern/list.c:62-65 | the ring of the head alone |
| List.DeleteWalking | kern/proc.c:344-356 | the loop that deletes members while it walks: the ring left is the members that do not match, in order; those that match leave in order, with cleared pointers |
| List.Members | kern/bio.c:72-80 | following next from the head visits the members in order and ends |
| List.MembersBack | kern/bio.c:82-84 | following prev from the head visits them in reverse and ends |
| Vm.PtxIsMacro | inc/mmu.h:18-31 | the four indices of an address are the macro's bit fields |
| Vm.Memory.Walk | kern/vm.c:32-63 | the last-level table for the page, creating tables as needed; no page's descriptor changes and the tables stay a tree of distinct frames |
| Vm.Memory.Find | kern/vm.c:32-63 | without allocation: the last-level table for the page, or none, and nothing changes |
| Vm.Memory.MapRegion | kern/vm.c:87-109 | it returns 0 exactly when all pages from rounddown(va) to va + size were mapped, and then they have exactly the given frames, valid, as pages, accessed, shareable, in normal memory and open to EL0, and all else as asked for; -1 exactly at a page that was mapped; every other page's descriptor is unchanged, whichever tables were created |
| VmHw.TranslateIs | inc/mmu.h:8-31 | the unit's own walk from an address, by the bits of each descriptor, comes to the page's descriptor; it translates exactly if that is valid, a page and accessed |
| VmHw.MapTranslates | kern/vm.c:87-109 | after a successful map_region the unit translates every address of the region to its place behind the given frame, and every other address as before |
| VmHw.MapTwice | kern/vm.c:87-109 | mapping a page again that map_region has mapped returns -1 |
| Vm.Memory.UvmCopy | kern/vm.c:186-212 | the child has every page below sz with equal bytes in frames that were free, distinct from each other, from its tables and from everything in use; nothing in use changes; it fails exactly at a page the parent lacks |
| Vm.CopiedFlags | kern/vm.c:201-208 | the copied flags equal the parent's exactly when those have the bits map_region sets, as every page mapped by map_region has |
| Vm.Memory.FreeDfs | kern/vm.c:158-175 | the subtree's tables are pushed on the free list in the order of the walk, and nothing else changes |
| Vm.Memory.VmFree | kern/vm.c:177-184 | exactly the tables of the tree become free, each once, and no other frame is touched |
| Vm.Memory.Kalloc | kern/kalloc.c:81-98 | it fails exactly when no frame is free; the frame it returns is no longer free and is a table of no address space beside the free list, and all those spaces stand beside the shorter list |
| Vm.Memory.Kfree | kern/kalloc.c:45-65 | the free list stays without duplicates exactly if the frame was not free, and an address space stays apart from it exactly if the frame is also none of its tables |
| Frames.RunKeeps | kern/kalloc.c:25-98 | over every run of kalloc and kfree of frames handed out, every frame is free once or held, and none is lost |
| Frames.HandedOutOnce | kern/kalloc.c:45-98 | between two kallocs that return the same frame, the frame was freed |
| VmSpec.FreesExactlyTables | kern/vm.c:158-175 | the frames freed are exactly the tables reachable from the root, none twice |
| VmSpec.HangKeeps | kern/vm.c:43-54 | a new table adds no translation, takes no translation away and keeps the tree |
| VmSpec.SetLeafKeeps | kern/vm.c:97-105 | writing a last-level entry changes one page's descriptor and no table |
| Shell.GetTokenLoop | user/src/sh/main.c:281-324 | the two scanning loops and the switch give the token that the specification defines |
| ShellLex.LexWritten | user/src/sh/main.c:278-324 | every spelling of a sequence of words and symbols, with any of the five blanks before, between and behind them, is read as that sequence; `>` and `>>` are one symbol |
| ShellLex.Written | user/src/sh/main.c:278-324 | every line is a spelling of what it is read as |
| ShellGrammar.AcceptsExactly | user/src/sh/main.c:343-462 | the parser accepts exactly the lines that spell a sentence of the grammar, redirections before, between and behind the words included, and gives its meaning |
| Shell.RedirsLoop | user/src/sh/main.c:390-413 | the loop reads exactly the redirections at the cursor |
| Shell.ExecLoop | user/src/sh/main.c:431-462 | the argument loop gives the command that the grammar gives, with its error cases, or reports the arena used up, exactly when the nodes do not fit behind what is in use; it ends on every input |
| Shell.LineLoop | user/src/sh/main.c:360-375 | parseline gives the command that the grammar gives, or reports the arena used up, exactly when the nodes made on the way do not fit behind what is in use; it ends on every input |
| Shell.CmdWords | user/src/sh/main.c:343-358 | every token of an accepted command is a whole word of the line, and every argv has fewer than MAXARGS |
| ShellText.SpelledTrip | user/src/sh/main.c:60-462 | parsing any spelling of a sentence gives the tree that it means exactly when the bytes of its nodes are within the arena, and otherwise reports the arena used up |
| ShellText.RoundTrip | user/src/sh/main.c:60-462 | every command tree with legal words and fewer than MAXARGS arguments has a text, and parsing it, with any blanks such as a newline behind it, gives the tree exactly when its nodes fit in the arena |
| ShellText.WordLimit | user/src/sh/main.c:415-462 | a line of words, however spelled, is parsed exactly when there are at most nine |
| ShellText.SemicolonLimit | user/src/sh/main.c:60-375 | a line of n semicolons is parsed exactly when n <= 51 |
| ShellText.NulTerminate | user/src/sh/main.c:464-509 | a NUL behind each token and no other change to the buffer |
| ShellText.ReadsBack | user/src/sh/main.c:464-509 | in the terminated line every token reads back as exactly itself: no other token's NUL falls into it |
| ShellText.ParseCommand | user/src/sh/main.c:343-358 | parsecmd on a buffer: the parse within the arena, and every argument and file name a C string in the buffer; on an error, or with the arena used up, the buffer is as it was |

## Left out

- Weak memory: all atomics and plain accesses are sequentially consistent.
- Running out of disk blocks or frames: the source goes on with an undefined value or a held lock; the methods report it as a separate outcome, reads and writes exactly when they need more blocks than are free.
- Stacking the layers: the file system is proved over the block view that the buffer cache is proved to give; the two proofs are not composed into one, nor with the log's.
- Contents under a crash: `bmap` changes the indirect block without `log_write`, so file contents are proved over the cached view only.
- Log.Logger.LogWrite: the pin it takes on every call is not modelled, because install unpins once per entry and also in recovery; pins and references do not balance in the source.
- Admission.Admission: processes asleep in `begin_op` are not followed; nothing in the source wakes them.
- Bio.BreadReturnsLatest: for users who write or pin a changed buffer before brelse, unpin only what they pinned and what agrees with the disk, and use a nonzero device.
- Bio.Cache.Bget: bread's, bwrite's and the pins' effects on a buffer are steps of the state machine, not methods.
- Fs.FileSystem.Readi: not for device inodes, whose reads and writes go through function pointers.
- Fs.FileSystem.Writei: not for device inodes.
- Fs.FileSystem.WriteThenRead: not for device inodes.
- Fs.FileSystem.Ialloc: the reference that it takes on the new inode is modelled by Namex.Icache.Iget only.
- Fs: the in-memory and on-disk copies of an inode are one; when `iupdate` writes the copy back is not modelled.
- Dirs.Dirlookup: the reference taken on the inode found is taken by the walk in Namex.
- Dirs.Dirlink: the reference that its lookup takes and gives back at once is not counted.
- Namex.Icache.Ilock: not for an inode that is not in use, where the source panics; Namex reports that case.
- Namex.Namex: one process's view of the inode cache. It presumes that no unreferenced inode in use has zero links, and says nothing of the state after it gave up.
- Proc.Fifo: fork's parts, exit and wait are single steps under ptablelock; `user_init` is one step. All list heads are taken as initialised, which the bound at kern/proc.c:45 misses, and kernel stacks can be allocated.
- Ptable.Table.constructor: all list heads are initialised, as the loop at kern/proc.c:45 means to.
- Ptable.Table.ProcAlloc: the kernel stack can be allocated.
- Ptable.Table.WaitTurn: page-table release in `cleanproc` is covered by Vm.Memory.VmFree, not joined to it.
- SdQueue: registers, timeouts, restarts of failed commands and redundant interrupts; a started command completes once.
- Vm.Memory.MapRegion: for addresses below 2^48 and permissions within 12 bits.
- Vm.Memory.Kfree: the link word that kfree writes into the freed page, and its alignment panics.
- Mkfs.Image.Iappend: with the image full the source writes sectors behind its end; the model fails instead.
- MkfsMain.MakeImage: names are those left after the path and a leading underscore are cut off; files that cannot be opened end the run.
- List.DeleteWalking: the members woken are given as a set; their run queues are the subject of Ptable.Table.Wakeup1.
- `uvm_alloc`, `uvm_dealloc`, `pgdir_iwalk` and `free_range`: short loops over the operations proved here.
- Vm.Memory.VmFree: leaf pages are not freed, as in the source.
- The spin lock of `acquire` and `release`: an atomic exchange; taken as given in the state machines.
- `runcmd`, system calls, files and pipes, ELF loading, traps, console, clock, mailbox and all assembly.
