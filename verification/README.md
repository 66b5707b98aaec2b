# xv6, modelled and proved

xv6 is a small Unix kernel with a few user programs. This project models the parts of it that hold
together over unbounded runs and proves what they are for: a disk that survives crashes, a cache that
agrees with a plain store, files that are flat byte sequences, link counts that match the directory
tree, a process table without lost wakeups, address spaces and heaps that lose no memory, and a parser,
a matcher and a generator that compute exactly what they are meant to.

| part | files |
|---|---|
| write-ahead log over the buffer cache | `Blocks`, `Wal`, `Crash`, `MruList`, `Bcache`, `LogDisk`, `Log`, `Transactions`, `Recovery` |
| inodes, blocks and files | `Bits`, `FsLayout`, `FsState`, `FsAlloc`, `FsFiles`, `FsTrunc`, `FsOps`, `File`, `FsCrash` |
| directories, paths and link counts | `Paths`, `Namespace`, `Dirs`, `Links`, `DiskNames` |
| processes, sleep and wakeup, pipes | `ProcTable`, `SleepWakeup`, `Pipe` |
| memory | `Umalloc`, `VmState`, `VmFree`, `Vm`, `Exec` |
| shell parser, grep matcher, random numbers | `ShellGrammar`, `Shell`, `Grep`, `Random` |

`Seqs` and `Options` hold what several of them share. Code that updates things in place is a class with
the source's fields; ghost fields carry the abstract state that `Valid()` ties to them. The theory a class is
proved against is stated on values, so that the theorems quantify over every run.

How the parts fit together:

- The log theory in `Wal` and `Crash` knows home sectors, a header and slots. `LogDisk` reads a raw disk as
  such a state, bytes of the header block included. The classes `Cache` and `Log` make sector writes one by
  one and keep the list of them; `Transactions.Run` proves that the list is a prefix of what the theory
  says. `Recovery.Survive` then cuts that list anywhere, boots an empty cache and a log from what reached
  the disk, and runs the code's own recovery, interrupted any number of times.
- `FileSys` works on the store that the cache agrees with and records what each transaction logs.
  `FsCrash.WriteAndCrash` puts both together, from the call of `filewrite` to the disk after the reboots: its
  transactions always finish, and after a crash at any sector write the file holds a whole number of its
  chunks. `DiskNames.RelinkAndCrash` does the same for the calls that change names, with directories as bytes:
  a crash leaves all of a call or nothing.
- `SleepWakeup` interleaves the steps of any number of processes and processors at the grain of lock
  operations. `ProcTable` and `Pipe` take one stretch under the lock as one step.
- `ShellGrammar` states the grammar of command lines without reference to the parser; the parser accepts
  exactly its sentences.

A panic ends an operation with an outcome of its own (`None`, `Panic`, `ok == false`), stated together with
what makes it possible, or is shown not to happen. Sleeping on a busy buffer is an outcome too.

Where a promise is false of the code, the code is kept and the exact condition is proved:

- A killed writer leaves a reader asleep on a pipe that has data (`Pipe.StepReaders`,
  `Pipe.ReadersWaitUnlessAbandoned`, with the run in `Pipe.KilledWriterAbandonsReader`).
- A name made in a directory that has been unlinked breaks the link counts, and only then: of a file in
  `Namespace.LostEntry`, of a directory in `Namespace.LostDir`. `Links.OrphanedBreaks` shows calls that lead there
  from the first file system.
- `deallocuvm` may step over mapped pages behind a missing page table; exactly which is in
  `Vm.SurvivesIfSkipped`, with a memory in `Vm.GapSkips`. The kernel itself does not get there: `setupkvm`,
  `copyuvm`, `allocuvm` and `deallocuvm` keep user memory contiguous from 0, and then every page of the range is freed
  (`Vm.StartsContiguous`, `Vm.GrowsContiguous`, `Vm.ShrinksContiguous`).
- A transaction that fits the log need not finish if the superblock gives the log more than ten sectors: with ten
  buffers the tenth block finds none, because each logged block stays in the cache until commit
  (`LogLayer.TenthBlockFindsNoBuffer`, `Transactions.TenSectorsFit`). From an idle cache it finishes if and only if
  it changes at most nine sectors; with the ten sectors that mkfs gives the log, header included, every
  transaction that fits does (`Transactions.RunTxn`, `Transactions.Run`).
- A write may reach into the log: mkfs leaves the bits of the log's sectors clear and balloc scans the whole disk, so
  on a disk that is full below the log the next block is the log header (`FsCrash.AllocatesLogHeader`,
  `FsCrash.NoRoomBelowLog`). The transactions of a filewrite stay below the log if and only if enough blocks are free
  there for what it must allocate, and always if the bitmap keeps the log's sectors (`FsCrash.WriteBelow`).
- `allocuvm` loses a page if memory runs out just when it needs a page table, and if that is for the last page it
  returns the new size although that page is not mapped; `Vm.Machine.Allocuvm` says exactly when.

Where the code and its comments differ, the code is followed: the shell opens a `>>` file as it opens a `>` file.

## Model

| member | source | states |
|---|---|---|
| `Crash.CrashAtomicity` | log.c:69-181 | for every run of transactions, a crash after any sector write and any number of crashes during recovery, recovery leaves the home sectors as after a whole number of the transactions |
| `Crash.CommittedCountsFinished` | log.c:135-149 | that number counts every transaction whose writes were all made, and none that had not begun |
| `Crash.RecoveryCrash` | log.c:115-122 | recovery interrupted after any write can be run again with the same result |
| `Crash.CommitCrash` | log.c:135-149 | a commit takes effect with its header write: before it nothing, from it on everything |
| `Crash.TxnCrash` | log.c:124-181 | one transaction cut off after any of its writes recovers to all of its effect or none |
| `Wal.LoggedIsTxn` | log.c:159-181 | installing what log_write put in the slots, repeated sectors absorbed, is the effect of the updates in order |
| `LogDisk.HeadRoundTrip` | log.c:85-113 | the header block as written reads back as the same sector list, for any earlier contents of the block; a count too large for the log reads as a list too long for it, never as an empty log |
| `LogDisk.RawCrashAtomicity` | log.c:53-181 | the crash theorem for a raw disk, sector by sector, header bytes included, for a run however far it got |
| `LogLayer.Log.constructor` | log.c:53-66 | the log lies in the last sectors of the file system |
| `LogLayer.Log.WriteHead` | log.c:101-113 | one sector write, of a block that decodes to the in-memory header and counts its sectors; done if the cache is idle and a buffer is clean |
| `LogLayer.Log.ReadHead` | log.c:85-96 | the in-memory header is the one on disk, if that is not too long for the log, and nothing is written |
| `LogLayer.Log.InstallTrans` | log.c:69-82 | its writes are the slots' contents to their home sectors in order; afterwards nothing is pinned |
| `LogLayer.Log.BeginTrans` | log.c:124-133 | at most one transaction at a time |
| `LogLayer.Log.LogWrite` | log.c:159-181 | one write to the sector's own slot or the next free one; the block is pinned, the store has it, every other buffer in use or pinned is untouched; it fails only if the cache has no buffer for the log block, and succeeds only while fewer sectors than buffers are logged |
| `LogLayer.Log.CommitTrans` | log.c:135-149 | its writes are a prefix of the commit's; it finishes if the cache is idle and one buffer is clean, and then disk and store agree on every home sector |
| `LogLayer.Log.RecoverFromLog` | log.c:115-122 | its writes are a prefix of the recovery's; finished, the home sectors on disk and in the store are those recovery stands for and the log is empty; it finishes from an idle cache with two clean buffers |
| `LogLayer.TenthBlockFindsNoBuffer` | log.c:159-181 | with nine blocks logged and room left by both of log_write's limits, a tenth finds no buffer |
| `LogLayer.RoomBeside` | log.c:159-181 | while fewer sectors are pinned than there are buffers, another buffer is clean |
| `Transactions.Change` | log.c:151-181 | read, modify, log and release: one slot write, and from an idle cache no failure while fewer than ten sectors are logged |
| `Transactions.RunTxn` | log.c:124-181 | a whole transaction writes what the theory says, has exactly its effect on store and disk, finishes only if it changes at most nine sectors, and from an idle cache exactly then; always if the log has at most ten sectors |
| `Transactions.FitsSmall` | log.c:164-167 | what fits a log of at most ten sectors changes at most nine |
| `Transactions.TenSectorsFit` | log.c:164-167 | a larger log takes a transaction of ten sectors, which cannot finish |
| `Transactions.Run` | log.c:124-181 | the writes of a run of transactions are a prefix of the theory's; the store ends as after all of them; from an idle cache the run finishes if and only if every transaction changes at most nine sectors, and always if the log has at most ten |
| `Recovery.CutRun` | log.c:69-181 | what any prefix of a run's sector writes leaves on disk is a sound log that stands for the home sectors after the committed transactions |
| `Recovery.CutRecovery` | log.c:115-122 | what any prefix of recovery's writes leaves stands for the same home sectors |
| `Recovery.Boot` | log.c:53-66 | from any disk with a sound log, an empty cache and recovery always end with the log empty and the home sectors it stood for |
| `Recovery.Restart` | log.c:53-122 | so they do after any number of boots, each from what the last left and crashing after any number of recovery's writes |
| `Recovery.Survive` | log.c:53-181 | run transactions, crash after any sector write, reboot through further crashes: the home sectors are those after the committed transactions, and after all of them if every write was made |
| `MruList.UnlinkOk` | bio.c:119-138 | taking a buffer out keeps the doubly linked list circular in both directions, in the same order |
| `MruList.InsertFrontOk` | bio.c:119-138 | putting it at the head keeps the list and makes it first |
| `Bcache.Cache.constructor` | bio.c:38-56 | the empty cache agrees with the disk |
| `Bcache.Cache.Bget` | bio.c:61-93 | the cached buffer if there is one, asleep if it is busy, else the least recently released clean idle one, else a panic; no sector is ever cached twice |
| `Bcache.Cache.Iderw` | memide.c:36-58 | one atomic sector transfer, to the disk if dirty, from it if not valid |
| `Bcache.Cache.Bread` | bio.c:96-105 | the buffer returned holds the contents last logged or written for the sector |
| `Bcache.Cache.Bwrite` | bio.c:108-115 | disk and store both get the buffer's contents in one write |
| `Bcache.Cache.Pin` | log.c:180-180 | a logged block is the store's contents while the disk keeps the old ones |
| `Bcache.Cache.Brelse` | bio.c:119-138 | the buffer is idle and first in the order of release |
| `Bcache.LastIsLeastRecent` | bio.c:82-92 | the first recyclable buffer from the tail is the least recently released one |
| `Bcache.UnpinnedIsOnDisk` | bio.c:82-92 | a clean buffer's sector has its store contents on disk, so recycling it loses nothing |
| `FsLayout.SetMarkBits` | fs.c:52-95 | changing one bitmap bit changes no other |
| `FsLayout.InodeRoundTrip` | fs.c:201-217 | an inode written to its place in a block reads back, and its neighbours are unchanged |
| `FsLayout.RegionsApart` | fs.h:40-46 | inode, bitmap and data sectors do not meet, and none of them is the boot sector or the super block |
| `FsLayout.RegionsAbut` | fs.h:40-46 | they follow each other without a gap, inodes from sector 2 on |
| `FsLayout.Places` | fs.h:37-46 | counted from the start of the disk, inodes lie 64 bytes apart and the bits of consecutive blocks are consecutive |
| `FsLayout.InodeBytes` | fs.h:27-34 | the bytes at which each field of a stored inode lies, lowest first |
| `FsLayout.MarkedIs` | fs.c:61-64 | the mark of block b is the bit that counts 2^(b % 8) in byte b / 8 of the bitmap |
| `Bits.BitIs` | fs.c:63-64 | bit k of a byte is the one that counts 2^k |
| `Blocks.WordIs` | fs.h:27-34 | a word is its four bytes, lowest first |
| `FsState.BlankOk` | mkfs.c:100-101 | an image with zeroed inodes and its first sectors marked, the metadata among them, satisfies the ownership invariant |
| `FsAlloc.TakesThen` | fs.c:52-76 | blocks allocated in turn are together the lowest free ones, each logged |
| `FsAlloc.UnderIfEnough` | fs.c:52-76 | all that was allocated lies below a sector exactly if that many blocks were free below it |
| `FsState.AllocWrite` | fs.c:52-76 | marking and zeroing a free block keeps every pointer owned by one place of one inode and marked |
| `FsState.LinkOk` | fs.c:356-384 | pointing an inode at a spare block keeps ownership exact and the file without holes |
| `FsState.InodeWrite` | fs.c:201-217 | writing the inode back keeps the invariant for all inodes |
| `FsFiles.WriteAtTwice` | fs.c:479-485 | two adjacent flat writes are one |
| `FsFiles.SplicedTrans` | fs.c:479-485 | chunks written one after the other add up to one write |
| `FsFiles.WriteKeepsFiles` | fs.c:462-492 | writing a block of one file leaves the contents of all others |
| `FsFiles.ByteIsAt` | fs.c:356-384 | byte i of a file is in block i / 512 of the twelve the inode lists, or else of those the indirect block lists |
| `FsOps.FileSys.Balloc` | fs.c:52-76 | the first free block, marked and zeroed, and no other bit changed; none only if all are marked; with the bits of sectors 0 and 1 set, neither is logged or changed |
| `FsOps.FileSys.Bfree` | fs.c:79-95 | exactly this block's bit is cleared; sectors 0 and 1 are neither logged nor changed |
| `FsOps.FileSys.Bmap` | fs.c:356-384 | the address the inode lists for the block, or its indirect block from the thirteenth on; a block the file has is returned without any change; the next one is allocated, zero, and the invariant kept |
| `FsOps.FileSys.Iupdate` | fs.c:201-217 | the inode on disk is the one in memory; files and bitmap unchanged; boot sector and super block neither logged nor changed |
| `FsOps.FileSys.Writei` | fs.c:462-492 | it fails exactly beyond the end or the largest size, changing nothing; else the file is the flat write of the old contents, every other file has the same bytes and no hole is left; boot sector and super block stay; bounds the sectors logged and counts the blocks allocated |
| `FsOps.FileSys.Readi` | fs.c:434-458 | the bytes of the flat file, cut at its end; nothing is allocated |
| `FsOps.FileSys.WriteThenRead` | fs.c:434-492 | what writei wrote, a following readi returns |
| `FsOps.FileSys.Itrunc` | fs.c:391-419 | exactly the bits of the blocks the inode owned are cleared, each set before; the file is empty and all others, boot sector and super block unchanged |
| `FsTrunc.DetachedOk` | fs.c:391-419 | without the freed blocks the ownership invariant holds again |
| `FsTrunc.FreeNext` | fs.c:79-95 | the next block to free is still marked, so bfree's panic does not happen |
| `FileLayer.OpenFile.WriteTxn` | file.c:139-144 | one chunk in one transaction, of at most 7 sectors if the bitmap is one block |
| `FileLayer.OpenFile.Filewrite` | file.c:116-155 | success is one flat write at the file's offset; failure leaves a whole number of chunks, and its exact conditions are given; every transaction fits the log; what it allocates and logs is accounted for, and no transaction logs the boot sector or the super block |
| `FileLayer.ChunkLargest` | file.c:126-132 | a chunk is the most blocks for which two sectors each, the inode, the indirect block and two of slop fit the log |
| `FileLayer.FitsLog` | file.c:126-132 | four data blocks, the indirect, bitmap and inode blocks are the most a chunk logs |
| `FsCrash.RunWrite` | file.c:139-144 | from an idle cache the transactions of a write all commit, with the sector writes of the run |
| `FsCrash.CrashDuringFilewrite` | file.c:116-155 | after a crash at any sector write, the recovered disk is a sound file system in which the file holds a whole number of the write's chunks and all other files have their bytes; boot sector and super block are as before |
| `FsCrash.BelowIfRoom` | fs.c:52-76 | the transactions of a write stay below a sector exactly if enough blocks were free below it, and always if the bitmap keeps the rest |
| `FsCrash.WriteBelow` | file.c:116-155 | the same as a condition before the call, which then does not panic either |
| `FsCrash.AllocatesLogHeader` | fs.c:61-72 | on a disk that is full below the log balloc returns the log header |
| `FsCrash.NoRoomBelowLog` | mkfs.c:233-247 | that disk is sound, and has no room below the log for one byte |
| `FsCrash.WriteAndCrash` | file.c:116-155 | with room below the log, or with its sectors kept by the bitmap: from the call of filewrite through the log, the crash and the reboots, whole chunks of the write; a crash after the last write loses nothing; boot sector and super block are as before |
| `Paths.Skipelem` | fs.c:576-599 | the first element, cut to 14 characters, and a rest with the remaining elements; none exactly if there is none |
| `Paths.ElemsJoin` | fs.c:566-575 | the elements of two paths joined by a slash are those of the first and then of the second |
| `Paths.ElemsName` | fs.c:566-575 | a part without a slash is one element |
| `Namespace.ResolveThen` | fs.c:604-637 | a walk goes on from where its first part leads |
| `Namespace.PathThen` | fs.c:604-651 | a/name leads to what the name, cut to 14 characters, stands for in the directory that a leads to, which is also its parent |
| `Dirs.Inodes.Iget` | fs.c:222-253 | one more reference to the inode, on its only entry or the first free one; fails only if all entries are in use |
| `Dirs.Inodes.Idup` | fs.c:257-264 | one more reference |
| `Dirs.Inodes.Ilock` | fs.c:268-297 | the entry is filled; it panics exactly if the inode read is free |
| `Dirs.Inodes.Iput` | fs.c:317-336 | one reference less; the last one of an inode without links frees it, and nothing else changes |
| `Dirs.Inodes.Dirlookup` | fs.c:505-529 | the first entry of that name, with a reference to its inode, or no entry |
| `Dirs.Inodes.Dirlink` | fs.c:532-559 | one entry is added at the first free place or the end, or the name exists and nothing changes |
| `Dirs.Inodes.Ialloc` | fs.c:175-198 | the first free inode, with one reference |
| `Dirs.Inodes.Namex` | fs.c:604-637 | a path that begins with a slash is walked from the root whatever the current directory, any other from the current directory, element by element; one more reference to what it finds, or all counts unchanged; one entry per inode throughout |
| `Dirs.Inodes.WalkTwice` | fs.c:604-637 | an absolute path leads two callers in different directories to the same entry of the inode cache |
| `Namespace.Promised` | sysfile.c:139-146 | a raised count is made good by the new entry |
| `Namespace.Raised` | sysfile.c:135-136 | raising a file's count puts exactly that count one over |
| `Namespace.Created` | sysfile.c:254-261 | a new file claims one link it does not have yet |
| `Namespace.MadeDir` | sysfile.c:254-273 | a new directory with its two entries and its name keeps all counts right |
| `Namespace.RemovedFile` | sysfile.c:211-222 | clearing a file's entry and lowering its count keeps all counts right |
| `Namespace.RemovedDir` | sysfile.c:211-222 | so does removing an empty directory, whose parent loses a link |
| `Namespace.EmptyDirLinks` | sysfile.c:206-209 | an empty directory has exactly one link and its parent is the directory naming it |
| `Namespace.Gone` | fs.c:317-336 | freeing an inode without links keeps all counts right |
| `Namespace.LostEntry` | sysfile.c:139-146 | a new name of a file keeps the counts right if and only if its directory is still linked |
| `Namespace.LostDir` | sysfile.c:254-273 | so does a new directory, whose .. revives an unlinked parent that nothing names |
| `Links.OrphanedBreaks` | sysfile.c:115-277 | create /f, mkdir /d and unlink /d from within it keep the counts right; a link or mkdir in the orphaned directory is allowed and breaks them |
| `Namespace.FreshOk` | mkfs.c:107-118 | the first file system, a root directory with . and .., has right counts |
| `Links.SysLink` | sysfile.c:115-160 | with each path read from the root or the current directory, it succeeds exactly for a file and a free name; then only the count and the new entry changed; every failure restores all inodes and references |
| `Links.LinkHeld` | sysfile.c:135-160 | the part after the old path has led to a file |
| `Links.SysUnlink` | sysfile.c:179-232 | it succeeds exactly if the name is there, not . or .. and no directory in use; then the entry is gone, one link less, and the inode freed exactly if nothing refers to it |
| `Links.UnlinkFrom` | sysfile.c:200-232 | the same within the directory found, which is given back |
| `Links.IsDirEmpty` | sysfile.c:163-176 | no entry in use besides the first two |
| `Links.Create` | sysfile.c:234-277 | it succeeds exactly if the name is free or a file is asked for and there; the new inode is the first free one and nothing else changes; counts stay right |
| `Links.MakeNode` | sysfile.c:254-277 | the new inode, its entries and its name, with all counts right |
| `DiskNames.EntryRoundTrip` | fs.h:51-54 | a directory entry reads back from its sixteen bytes |
| `DiskNames.EncodeEntry` | fs.h:51-54 | two bytes of inode number, lowest first, then the name filled up with NULs |
| `DiskNames.EntryWritten` | fs.c:546-556 | writing a record changes that entry or adds it at the end, and no other |
| `DiskNames.LargestDir` | fs.c:546-556 | dirlink runs out of room exactly where the largest file ends |
| `DiskNames.OneNode` | fs.c:201-217 | where one file changed, only its inode and entries did |
| `DiskNames.Refocus` | fs.c:201-217 | a sound disk at rest is sound whichever inode is looked at |
| `DiskNames.Relink` | sysfile.c:135-146 | the disk writes of link, of unlink and of create of a file change the inodes and entries on disk exactly as the call says, and neither the boot sector nor the super block |
| `DiskNames.LinkRelinks` | sysfile.c:115-160 | that change is what a successful sys_link makes |
| `DiskNames.CreateRelinks` | sysfile.c:254-277 | and a successful create of a file |
| `DiskNames.UnlinkRelinks` | sysfile.c:211-227 | and a successful sys_unlink of a file that is not freed |
| `DiskNames.RelinkAndCrash` | sysfile.c:115-277 | after any crash and reboots the disk holds the names of before the call or of after it, and the latter if every sector write was made; boot sector and super block are as before |
| `ProcTable.Ptable.constructor` | proc.c:78-103 | init alone, runnable with pid 1, and every other slot unused |
| `ProcTable.Ptable.AllocProc` | proc.c:34-50 | the first unused slot becomes an embryo with a pid never used before |
| `ProcTable.Ptable.ForkParent` | proc.c:145-146 | the embryo gets a live parent with a smaller pid |
| `ProcTable.Ptable.ForkRun` | proc.c:157-158 | it becomes runnable, invariant kept |
| `ProcTable.Ptable.AllocFail` | proc.c:139-144 | a failed fork gives its slot back |
| `ProcTable.Ptable.Exit` | proc.c:166-204 | a zombie whose children belong to init; who sleeps on the parent is runnable, and who sleeps on init if it inherited a zombie; nothing else changes |
| `ProcTable.ExitedIs` | proc.c:166-204 | the same of the table, slot by slot and field by field |
| `ProcTable.Ptable.Wait` | proc.c:208-247 | reaps a zombie child if there is one; gives up exactly if killed or childless; else sleeps with none to reap |
| `ProcTable.Ptable.Schedule` | proc.c:257-288 | the next runnable process runs on this processor only |
| `ProcTable.Ptable.Yield` | proc.c:311-318 | it is runnable and on no processor |
| `ProcTable.Ptable.Sleep` | proc.c:342-375 | it sleeps on the channel and is on no processor |
| `ProcTable.Ptable.WakeAll` | proc.c:380-397 | no process is asleep on the channel afterwards; those that were are runnable and nothing else changes |
| `ProcTable.Ptable.Kill` | proc.c:402-420 | the first process of that pid is marked and woken if asleep |
| `ProcTable.ExitedOk` | proc.c:166-204 | exit keeps the whole table invariant, parents and waiters included |
| `ProcTable.WaitSleepOk` | proc.c:244-245 | a parent may sleep in wait if no child is a zombie |
| `ProcTable.DescendsFromInit` | proc.c:128-247 | parents of every process in use form a chain of live processes with falling pids that ends in init |
| `SleepWakeup.EveryReachableState` | proc.c:342-397 | mutual exclusion, processor assignment and the wakeup invariant hold in every state of every run, with preemption wherever a process holds no lock |
| `SleepWakeup.WakeupIsNotLost` | proc.c:342-397 | a process that tested its condition under the lock is not asleep after a wakeup by one that took the lock later |
| `SleepWakeup.WokenOnItsChannel` | proc.c:380-420 | a process that slept on a channel and does not any more was killed or passed by a wakeup on that channel in between |
| `SleepWakeup.KeepsInv` | spinlock.c:24-64 | every single step keeps the invariant |
| `Pipe.FirstInFirstOut` | pipe.c:77-120 | over every interleaving the bytes read are a prefix of those written and at most 512 are pending |
| `Pipe.ReadsDrain` | pipe.c:99-120 | after any run, further reads leave nothing behind exactly if together they ask for what was pending; otherwise they take just what they ask for |
| `Pipe.StepWriters` | pipe.c:58-120 | a sleeping writer means a full pipe with its read end open |
| `Pipe.StepReaders` | pipe.c:58-120 | a step keeps sleeping readers waiting for a reason unless it is a writer leaving midway, and exactly then not |
| `Pipe.ReadersWaitUnlessAbandoned` | pipe.c:77-97 | over a whole run a sleeping reader means empty and open if and only if no writer left midway; then never both sides sleep |
| `Pipe.KilledWriterAbandonsReader` | pipe.c:84-88 | the run in which a killed writer leaves a reader asleep on a full pipe |
| `Pipe.Ring.constructor` | pipe.c:21-56 | an empty pipe, both ends open |
| `Pipe.Ring.PipeWrite` | pipe.c:77-97 | the next bytes of the request are stored, all of them exactly if they fit and else until the pipe is full; then the writer fails exactly if killed or unread and sleeps otherwise; readers are woken unless it fails; the ring with its wrapping counters does what the queue does |
| `Pipe.Ring.PipeRead` | pipe.c:99-120 | it sleeps or fails exactly if nothing is pending and the write end is open; else it delivers the oldest pending bytes, as many as asked for or all of them, and wakes the writers |
| `Pipe.Ring.PipeClose` | pipe.c:58-74 | that end is closed and the sleepers of the other side are woken; nothing else changes |
| `Umalloc.Allocator.constructor` | umalloc.c:70-73 | an empty heap |
| `Umalloc.Allocator.Free` | umalloc.c:24-44 | the block joins the list at its place, merged with both neighbours where they touch; everything else stays |
| `Umalloc.Allocator.MoreCore` | umalloc.c:46-61 | fresh memory joins the heap and a block large enough is then on the list |
| `Umalloc.Allocator.Malloc` | umalloc.c:63-90 | first fit from where the last search ended, taken from the end of the block; large enough and apart from all live ones; fails only if nothing fits and sbrk failed, which is asked for at least 4096 units |
| `Umalloc.ExaminedOrder` | umalloc.c:73-89 | the search goes in address order from the node after the last one used, around to it |
| `Umalloc.CoreBytesFit` | umalloc.c:46-54 | the bytes asked of sbrk are a positive int exactly up to a request 16 bytes below 2^31 |
| `Umalloc.StopsWhereItBelongs` | umalloc.c:30-32 | the search of free stops exactly at the block's place, wrap-around included |
| `Umalloc.FreedHeap` | umalloc.c:24-44 | freeing keeps the list circular, ordered, disjoint and fully merged, and units conserved |
| `Umalloc.TakenHeap` | umalloc.c:74-84 | so does taking a block from the list |
| `Umalloc.CoreHeap` | umalloc.c:46-61 | so does adding a fresh region |
| `Vm.KernelMapOk` | vm.c:115-125 | the kernel's rows are apart and above user memory |
| `Vm.KernelMapLayout` | vm.c:115-125 | a space with these rows has physical page p at KERNBASE / 4096 + p for every p below PHYSTOP, writable except the kernel's text, and the devices at their own addresses; nothing else above user memory is mapped, and nothing for the user |
| `Vm.KernelMapDevices` | vm.c:115-125 | they map the device pages, and not for the user |
| `Vm.Machine.constructor` | kalloc.c:45-52 | every page of the range is free |
| `Vm.Machine.Kfree` | kalloc.c:59-77 | the page is first on the free list and its contents are lost |
| `Vm.Machine.Kalloc` | kalloc.c:82-95 | a page no address space holds; none exactly if none is free |
| `Vm.Machine.Walkpgdir` | vm.c:45-65 | the table holding the page's entry, made on demand; no mapping changes |
| `Vm.WithPIs` | vm.c:83 | the present bit is set and the other flags kept |
| `Vm.Machine.Mappages` | vm.c:70-90 | exactly the pages of the range are mapped, with the present bit |
| `Vm.Machine.Setupkvm` | vm.c:128-144 | a new space that maps the kernel's rows and nothing else; a failure leaves pages in use by one space that nobody has, and loses none |
| `Vm.Machine.Kvmalloc` | vm.c:128-153 | the space that setupkvm returns is laid out so, and maps no user page |
| `Vm.Machine.Allocuvm` | vm.c:220-243 | with enough free pages for the range and its new page tables the space grows by fresh zeroed pages exactly over the range; a page is lost exactly if the free list runs out at a page table, and the result and the hole are those of that case; a failure leaves the space with the pages and bytes it had |
| `Vm.MidwayUndone` | vm.c:233-237 | giving back what a failed allocuvm had mapped leaves the space with the pages and bytes it had |
| `Vm.Machine.Deallocuvm` | vm.c:249-273 | exactly the pages it reaches are unmapped and freed |
| `Vm.Machine.Freevm` | vm.c:277-292 | every page of the space is free again and other spaces are untouched |
| `Vm.Machine.Copyuvm` | vm.c:309-337 | a space with the same bytes and flags on pages of its own, the parent unchanged; a failure loses at most one page |
| `Vm.Machine.Clearpteu` | vm.c:296-305 | exactly this page is out of the user's reach, still mapped to its frame with its other flags; it panics exactly without a page table |
| `Vm.Machine.Uva2ka` | vm.c:341-352 | the frame exactly if the user may reach the page |
| `Vm.Machine.Copyout` | vm.c:357-378 | it succeeds exactly if every page is the user's; then exactly those bytes changed |
| `Vm.Machine.Lifetime` | vm.c:128-292 | set up, grow and free a space: the free pages are the same set as before |
| `Vm.ExactlyFreed` | vm.c:249-273 | a page is free afterwards exactly if it was or was mapped where the walk reaches |
| `Vm.SurvivesIfSkipped` | vm.c:258-262 | a page mapped in the range stays mapped, its frame not free, exactly if the walk steps over it |
| `Vm.GapSkips` | vm.c:258-262 | a sound memory with a mapped page that is stepped over |
| `Vm.GrowsContiguous` | vm.c:220-243 | growing contiguous memory at its end keeps it contiguous |
| `Vm.ShrinksContiguous` | vm.c:249-273 | so does shrinking it, which frees every page of the range |
| `Vm.StartsContiguous` | vm.c:128-144 | a new or copied space is contiguous |
| `VmFree.AlignedStart` | vm.c:249-273 | from the start of a table nothing is stepped over |
| `VmFree.ContiguousHit` | vm.c:249-273 | nor when user memory is contiguous from 0 |
| `Exec.Exec` | exec.c:52-77 | success exactly if the arguments fit, and then memory at esp holds argc, argv, the pointers and the strings within the one page above the guard page, which the user cannot reach, while the program's pages keep their bytes; an argument that wraps the stack pointer into the device mapping is an error return |
| `Exec.BuildStack` | exec.c:58-77 | the strings and the vector are in place, or the copy fails at the guard page |
| `Exec.Complete` | exec.c:58-77 | what was pushed decodes to the argument list, no part overlapping another |
| `ShellGrammar.ExactlyTheGrammar` | sh.c:328-447 | recursive descent accepts a token sequence with a tree if and only if the grammar derives it |
| `ShellGrammar.SoundLine` | sh.c:345-360 | what the descent takes is a line of the grammar |
| `ShellGrammar.FindLine` | sh.c:345-360 | it finds the tree of every line, whatever follows |
| `Shell.Parser.Gettoken` | sh.c:266-309 | the next token, its span and the start of the one after |
| `Shell.Parser.Peek` | sh.c:311-321 | only space is skipped |
| `Shell.Parser.ParseRedirs` | sh.c:375-398 | all redirections from here on, each file once and in the order of the line |
| `Shell.Parser.ParseLine` | sh.c:345-360 | every word and operator up to the cursor is in the tree once and in order; agrees with the grammar's descent, failures included |
| `Shell.Parser.ParsePipe` | sh.c:362-373 | likewise |
| `Shell.Parser.ParseBlock` | sh.c:400-414 | likewise; of two redirections around one command the outer is the later in the line |
| `Shell.Parser.ParseExec` | sh.c:416-447 | likewise, within the argument limit |
| `Shell.Parser.ParseCmd` | sh.c:328-343 | the whole line is one sentence of the grammar, or it is none |
| `Shell.Buffer.Nulterminate` | sh.c:450-494 | a NUL after every word of the tree and no other change |
| `Shell.StringsRead` | sh.c:450-494 | then every word pointer read as a C string is that word |
| `Shell.Parse` | sh.c:328-494 | tree and buffer together: each word once, by role and in order, a later redirection around an earlier one, and readable as a C string; failure only on lines outside the grammar |
| `Grep.Match` | grep.c:71-81 | true if and only if a substring is in the language of the expression, a prefix under ^, a suffix under $ |
| `Grep.MatchHere` | grep.c:84-95 | true if and only if a prefix is in the language, the whole text under a final $ |
| `Grep.MatchStar` | grep.c:98-105 | true if and only if some run of the character, empty included, is followed by a match |
| `Random.Round` | random.c:43-49 | one split multiplication is multiplication modulo 2^31-1, with all intermediates in 32 signed bits |
| `Random.Invertible` | random.c:43-55 | each multiplier has an inverse, so a seed never becomes 0 |
| `Random.EveryRun` | random.c:32-96 | after any calls the seed of a stream is its first seed times a power of 630360016, by the calls on that stream alone |
| `Random.Generator.Random` | random.c:32-60 | one step on the selected stream, none outside 1 to 100 |
| `Random.Generator.RandomSet` | random.c:63-96 | selects the stream and steps it, or fails; an argument that cannot be fetched changes nothing |
| `Random.Generator.constructor` | random.c:11-29 | the source's own seeds are all in range |

## Left out

- Device drivers, interrupts, boot code and the console: a sector transfer is one atomic step.
- Concurrency inside file-system calls: a busy buffer ends the step as `Sleep`; the busy flag of inodes, `iunlock` and device numbers other than the root's are not modelled.
- Device inodes: `Readi` and `Writei` are for inodes that are not devices.
- Where the log lies: that no file reaches into the log is a precondition of the crash theorems, with room below it or marks for it; `FsCrash.WriteBelow` keeps it and shows when the code does not.
- Who logs: only the holder of the transaction calls `log_write` in the model; some `iput` calls in the source are made outside one.
- DiskNames.Relink: covers files; the disk writes of mkdir and rmdir, of an unlink that frees the inode and of ialloc's clearing of the inode are not modelled as bytes.
- LogLayer.Log.ReadHead: asks that the header lists no more sectors than the log takes; beyond that the source runs past its array.
- Running out: the panics for want of a block, an inode, a cache entry or a buffer end the run there; the state they leave is not described further.
- Umalloc.Allocator.Malloc: takes requests whose rounding up does not overflow 32 bits, and sbrk as a parameter that returns fresh memory above the heap's base or fails; it is granted only for requests whose byte count is a positive int, which `Umalloc.CoreBytesFit` makes exact.
- Links.SysLink: asks for a current directory that is still linked, as do the other name operations; `Namespace.LostEntry` shows what happens otherwise. Counts and inode numbers do not wrap at 16 bits.
- LogLayer.Log.BeginTrans: one pass of the loop; sleeping until the log is free and trying again is left to the caller.
- Dirs.Inodes.Ilock: does not model the busy flag and the wait for it, because one call runs at a time.
- Dirs.Inodes.Iput: frees the inode in one step, because the blocks it gives back are those of `FsOps.FileSys.Itrunc`; its busy panic needs two callers.
- Dirs.Inodes.Namex: takes the fields of inodes from one place; that the cached copy and the disk agree is proved for file inodes in `FsOps`. Directory contents are sequences of entries rather than bytes.
- Vm.Machine.Mappages: one user page at a time or a stretch of kernel pages, which is how the kernel calls it.
- Vm.Machine.Kfree: forgets the contents of the page instead of filling it with junk, and asks for a page of the right range instead of panicking.
- Vm.Machine.Uva2ka: takes a missing page table for a page that is not the user's; the source dereferences a null pointer there.
- Exec.Exec: from the stack allocation to the copy of the vector; loading the program and committing the new image are not modelled, and a stack pointer that wraps past the device mapping, for an argument of 32 megabytes, is an outcome of its own because the source dereferences a null pointer there.
- ProcTable.Ptable.Kill: claims only which process is marked and woken; process ids do not wrap.
- Shell.Parser.ParseExec: gathers arguments and redirections and builds the node at the end, where the source fills a node it made first; the tree is the same. Running commands is not modelled.
- Random.Generator.Random: the floating-point result and the call that overwrites a seed unchecked are not modelled.
- The reading loop of grep, the other user programs and the image builder would add only input and output.
