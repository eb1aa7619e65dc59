# A verified model of xv6's core

xv6 is a small Unix for the x86; this one draws the next process by lottery. The
project models the parts of it with the most state and the most ways to fail, and proves
what they are for:

- the redo log with group commit (`Log`, `GroupCommit`), the buffer cache (`Bio`), the block
  allocator, inodes and files (`Blocks`, `Ownership`, `Files`, `Fs`), files and log together (`Durable`),
  directories and path names (`Directory`), open files, descriptors and pipes (`Descriptors`, `Pipe`);
- the lottery scheduler (`Lottery`), the process table (`ProcTable`), sleep and wakeup under sleep
  locks (`SleepLock`), page tables over the page allocator (`Vm`);
- the user-level allocator (`Umalloc`), the shell's parser (`Shell`) and grep's matcher (`Grep`).

`Params` holds the constants and types that several modules share, `Sets` the sizes of finite sets.

Code that changes things in place is a class whose methods follow the source loop by loop and are
proved against functions on values; what the system promises is then proved of those functions. A
protocol between processes is a state machine with one step per critical section, and its
invariant is proved for every run and any number of processes.

How the model reads the source:

- A disk is a sequence of 512-byte blocks and a block write is atomic. A crash drops the cache and
  keeps the disk. Blocks named in the log lie outside the log area.
- A call that panics is either the failure outcome of its method, with the exact condition, or, where
  the source leaves it to the callers, a precondition.
- `acquire` and `release` are atomic, and what lies between them is one step. `swtch` hands over
  `ptable.lock`.
- Integers are unbounded except where the source depends on their width: the random generator and the
  ticket total, the pipe counters, the unit count of `malloc`, inode numbers in directory entries,
  `off + n` in `readi` and `writei`, the argument of `sbrk`.
- What `sbrk` returns, which page `kalloc` gives a process in `ProcTable`, and the inode that `open` finds are
  parameters. `sbrk` returns -1 or an address at or above the end of the heap so far.
- `readi` and `writei` on a directory are reading and splicing its byte sequence, which is what `Fs` proves
  of them.

Where the code does not do what one would expect of it, the model follows the code. The test for a
full log in `log_write` panics within the reservations when the log area has only LOGSIZE blocks, as
`mkfs` makes it, and panics on absorbed blocks at any size. The ticket total can overflow and then
nobody is scheduled. `pipewrite` can return early and leave a reader asleep beside data. `malloc`
returns too small a block when `nbytes + 7` wraps, and asks `sbrk` for zero or fewer bytes when the request
is 2^28 units or more and no free block is that large. For each of these the model states the exact condition
under which it happens. The shell opens the file of `>>` as it does that of `>`.

## Model

| member | source | states |
|---|---|---|
| `Log.HeadRoundTrip` | log.c:85-113 | the header write_head stores, the count in word 0 and the block numbers from word 1 on, read_head reads back; the rest of the block stays as it was |
| `Log.InstallAt` | log.c:69-82 | after any part of install_trans a home block holds the last log block that names it, and everything else, the log area included, is untouched |
| `Log.RecoveryCrash` | log.c:69-122 | a crash after any write of recovery leaves a disk from which recovery reaches exactly the same home blocks: recovery is idempotent under any number of further crashes |
| `Log.CommittedInstalls` | log.c:69-82 | installing a transaction whose header is on disk gives exactly its atomic effect on the home blocks |
| `Log.CommitCrash` | log.c:177-202 | for every crash point of commit, recovery finds all the old contents before the header write and all the logged contents from it on; a finished commit leaves a clean log |
| `Log.StepRefines` | log.c:69-122 | one event of the machine (a commit, a crash inside it, recovery, a crash inside that) is one step of a disk on which transactions are atomic |
| `Log.RunRefines` | log.c:69-202 | the same from a machine that is up: every later state of the run stands for the atomic disk at that point |
| `Log.CrashAtomicity` | log.c:69-202 | over every run of commits, crashes and recoveries that starts from a good disk (nothing is asked of the later ones) the machine refines that atomic disk at every point |
| `Log.Log.constructor` | mkfs.c:110-111 | a disk of zero blocks has an empty log |
| `Log.Log.WriteHead` | log.c:101-113 | writes one block, the header that names the logged blocks, and nothing else |
| `Log.Log.ReadHead` | log.c:85-96 | the in-memory list becomes the one on disk |
| `Log.Log.InstallTrans` | log.c:69-82 | the exact sequence of disks it writes, so that every crash point is one of those the crash lemmas quantify over |
| `Log.Log.WriteLog` | log.c:177-190 | the exact sequence of disks; cached blocks stay pinned |
| `Log.Log.CommitPending` | log.c:192-202 | the disks written are exactly the crash points of `Log.CommitCrash`; afterwards the disk holds what the file system saw, and the log is empty |
| `Log.Log.RecoverFromLog` | log.c:115-122 | the disks written are exactly the crash points of `Log.RecoveryCrash`; afterwards the log is empty and the home blocks are the recovered ones |
| `Log.Log.LogWrite` | log.c:213-233 | panics exactly when the log is full, too small, or no operation is open; otherwise the view of the disk changes in that block only, and a block already logged is absorbed |
| `GroupCommit.InvStep` | log.c:125-174 | every step of any process keeps the invariant (counts, reservations, empty log between transactions, sleepers must wait), and the only panic possible is the one for a log that is too big |
| `GroupCommit.InvHolds` | log.c:125-233 | the invariant holds in every state of every interleaving of any number of processes |
| `GroupCommit.CommitFrozen` | log.c:145-174 | during a commit no operation is open, so nobody else can change the log, the flag or reach the panic in end_op |
| `GroupCommit.SleeperHasWaker` | log.c:125-141 | whoever sleeps in begin_op has an open operation or a commit left to wake it |
| `GroupCommit.NoOverflow` | log.c:125-233 | the log never exceeds LOGSIZE blocks although the test in log_write is made without the lock; at LOGSIZE only absorbed blocks arrive |
| `GroupCommit.BeginAdmits` | log.c:125-141 | in every reachable state begin_op lets the operation in exactly when no commit runs and ten blocks for each operation in progress and for this one fit in the thirty of the log beside what is logged; otherwise the process sleeps, and nothing else changes |
| `GroupCommit.HoldsAllLogged` | log.c:145-233 | in every run, from one commit to the next, the log holds what the operations have appended, all of it and nothing else: what an operation logged before it ended is committed with the group |
| `GroupCommit.LogWriteLogs` | log.c:213-233 | whatever others do between its test and its append, log_write of a block adds that block to the log and to the operation, and nothing else |
| `GroupCommit.RoomyLogNeverPanics` | log.c:213-221 | in a log area of more than LOGSIZE blocks an operation within its reservation is never refused |
| `GroupCommit.TightLogPanics` | mkfs.c:25 | with LOGSIZE blocks or fewer, as mkfs makes it, a reachable state of three operations within their reservations panics |
| `GroupCommit.PanicFreeIff` | log.c:218 | freedom from that panic in every reachable state holds if and only if the log area has more than LOGSIZE blocks |
| `GroupCommit.AbsorbedWritePanics` | log.c:218-226 | however large the log area, an operation that has used its whole reservation can panic on a block it has already logged: the test comes before absorption |
| `Lottery.RandomIsAffine` | proc.c:11-16 | 32-bit wrap-around does not disturb the low 31 bits: random() is the affine map modulo 2^31 |
| `Lottery.GeometricDivides` | proc.c:11-16 | the arithmetic heart of the period: 2^k divides the geometric sum of n terms exactly when it divides n |
| `Lottery.ReturnsIff` | proc.c:11-16 | n calls return to the seed exactly when 2^31 divides n |
| `Lottery.FullPeriod` | proc.c:11-16 | in any 2^31 consecutive calls every value of [0, 2^31) comes up exactly once |
| `Lottery.HitsCount` | proc.c:11-16 | for any property of values, as many of 2^31 consecutive calls hit it as there are values |
| `Lottery.HolderUnique` | proc.c:360-390 | a ticket number has at most one holder |
| `Lottery.Scheduler.Draw` | proc.c:343-398 | nobody runs exactly when the wrapped total is not positive; else the winner is the first RUNNABLE process whose wrapped running total exceeds the draw, so that the scan never runs off the table; without overflow it holds the drawn ticket |
| `Lottery.ChosenHolds` | proc.c:378-386 | where the sums do not wrap, the process at which the scan stops is the holder of the drawn ticket |
| `Lottery.IdleIff` | proc.c:360-372 | without overflow the scheduler idles exactly when nobody is runnable |
| `Lottery.OverflowStarves` | proc.c:360-372 | with overflow it can idle although two processes are runnable: 2^30 tickets each |
| `Lottery.Fairness` | proc.c:343-398 | with a fixed runnable set of total T < 2^31, a process with t tickets wins between t*floor(2^31/T) and t*ceil(2^31/T) of any 2^31 consecutive draws |
| `Ownership.InodeRoundTrip` | fs.c:221-237 | iupdate's bytes read back as the inode, and every other inode of the block is as before |
| `Ownership.InodePlace` | fs.h:29-42 | where an inode lies on disk, byte by byte: eight to a block, 64 bytes each, the four shorts at 0, 2, 4 and 6, the size at 8 and address k at 12 + 4k, the lowest byte first |
| `Ownership.BitOf` | fs.c:56-96 | where the bit of a block lies: 4096 to a map block, eight to a byte, the lowest weight first |
| `Ownership.OwnershipMeaning` | fs.c:42-96 | a data block's bit is set exactly when some slot of some inode (direct, indirect, indirect entry) holds its address, and no two slots hold the same one |
| `Ownership.AllocateFrame` | fs.c:56-78 | allocating an unmarked block marks exactly that one, zeroes it, and disturbs nothing that is owned |
| `Ownership.AttachAddr` | fs.c:377-389 | storing a new block in an empty slot of an inode keeps ownership exact |
| `Ownership.AttachEntry` | fs.c:389-398 | storing a new block in an empty entry of the indirect block keeps ownership exact |
| `Ownership.DataWrite` | fs.c:502-506 | rewriting a data block keeps ownership |
| `Files.BytePlace` | fs.c:373-401 | where byte p of a file lies: in block addrs[p / 512] for the first twelve blocks, then in the block that word p / 512 - 12 of the indirect block names, at p % 512 |
| `Files.SpliceTwice` | file.c:127-152 | writing a string in two goes is writing it at once, on byte sequences |
| `Files.WriteByte` | fs.c:499-506 | rewriting the block behind one page of a file changes the bytes of that page of that file only |
| `Files.WrittenPatch` | fs.c:499-506 | one turn of writei's loop extends the written part by the bytes copied, and changes no other byte of any file |
| `Fs.ChunkBudget` | file.c:121-138 | a chunk of filewrite at any offset of any file, however its allocations fall on the bitmap blocks, logs at most MAXOPBLOCKS blocks; exactly that many if and only if it touches four data blocks and allocates in four bitmap blocks, and then also the indirect block and the inode; at most four if the file does not grow |
| `Fs.StepBudget` | fs.c:499-506 | what one more block of a write adds to the data blocks touched, the blocks to allocate and the changes of the indirect block |
| `Fs.FreeMeaning` | fs.c:56-78 | the clear bits of the free map are exactly the data blocks without an owner, and the disk is full exactly when there is none |
| `Fs.TallyStep` | fs.c:499-506 | one turn of writei's loop keeps the exact account of what was allocated (the lowest free blocks, as many as the longer file needs) and logged |
| `Fs.StopCount` | fs.c:499-506 | a write that stops for want of blocks had fewer free blocks at the start than the longer file needs |
| `Fs.StopBudget` | file.c:121-138 | it stops before it has used up its reservation |
| `Fs.DataSize` | fs.c:373-401 | the data blocks a write touches are different blocks |
| `Fs.FootprintSize` | fs.c:482-512 | data, bitmap, indirect and inode blocks logged by a write are disjoint, so that their number is the exact sum |
| `Fs.TightGrows` | fs.c:373-401 | bmap in writei leaves no file with a block beyond its end |
| `Fs.FileSys.constructor` | mkfs.c:237-251 | zero blocks and a free map that shows the metadata as taken are a file system of unused inodes, for every layout mkfs could compute |
| `Fs.FileSys.Balloc` | fs.c:56-78 | the first free block, marked and zeroed, logging its bitmap block and itself; fails exactly when the disk is full |
| `Fs.FileSys.Bfree` | fs.c:81-96 | clears one bit; its precondition is the panic on a free block |
| `Fs.FileSys.Bmap` | fs.c:373-401 | the address of a file's block, allocating what is missing: it panics exactly when there are fewer free blocks than that; what it allocates are the lowest free blocks; the set of blocks logged is exact; a mapped block changes nothing; ownership and every owned block are kept |
| `Fs.FileSys.Iupdate` | fs.c:221-237 | the inode on disk agrees with memory; no other inode and no other block changes |
| `Fs.FileSys.Itrunc` | fs.c:408-436 | frees every block of the file exactly once and none of any other file, without reaching the panic of bfree; of the inode only size and addresses change, to zero; other files keep their contents |
| `Fs.FileSys.Writei` | fs.c:482-512 | the file becomes the old bytes with the source spliced in, every other file is unchanged, the on-disk inodes are up to date; the blocks allocated and the set of blocks logged are exact, and a chunk logs ten exactly when it touches four data blocks and allocates in four bitmap blocks; it panics exactly when the free blocks are fewer than the longer file needs |
| `Fs.FileSys.Readi` | fs.c:453-477 | exactly the bytes of the file in the range; reading changes nothing; exact failure conditions |
| `Fs.FileSys.FileWrite` | file.c:117-156 | the chunks together write the string as one write would, or exactly the chunks before the one that does not fit; no operation logs more than MAXOPBLOCKS distinct blocks, or calls log_write when it has logged that many; each operation begins with the disk the one before it left and leaves a file system with whole chunks written and other files unchanged; it panics exactly when the free blocks are fewer than the fitting chunks need; device and failure outcomes are exact |
| `Durable.GroupCarries` | log.c:145-169 | committing any transaction that names the blocks a group of consecutive operations logged, in any order, with their last contents, does exactly what the operations did |
| `Durable.PendingGroup` | log.c:213-233 | what log_write has recorded when the group ends, in its own order, is such a transaction |
| `Durable.OpGood` | log.c:213-233 | the log takes the transaction of any one operation of filewrite, each block named once in any order, if its area is larger than MAXOPBLOCKS |
| `Durable.HomeLeaves` | fs.h:5-22 | a file system does not see the log area: disks that agree outside it hold the same files |
| `Durable.CrashDuringSeries` | log.c:145-202 | for any series of operations, of one process or several, committed in any groups with the blocks in any order: a crash at any disk write of a commit, followed by any number of interrupted recoveries and one that completes, leaves exactly the disk of the first k operations, for a k at which a group ends |
| `Durable.CrashDuringFileWrite` | file.c:117-156 | a crash at any disk write of any commit during filewrite, followed by any number of interrupted recoveries and one that completes, leaves a file system whose file has a whole number of chunks of the string written into it and whose other files are unchanged |
| `Umalloc.RaisedOk` | umalloc.c:33-37 | after the upward merge the heap is sound and only the block below may still touch |
| `Umalloc.FreedOk` | umalloc.c:24-44 | after both merges the list is address-ordered with one wrap, blocks are disjoint and never adjacent, and free plus live units equal the units obtained |
| `Umalloc.FreedCode` | umalloc.c:33-43 | the pointer and size writes of the code are exactly the abstract insertion and merges |
| `Umalloc.FreedFits` | umalloc.c:24-44 | after a free there is a free block at least as large as the one given back |
| `Umalloc.TakenOk` | umalloc.c:77-79 | handing out a whole block keeps all that |
| `Umalloc.CutOk` | umalloc.c:80-84 | cutting the tail off a block keeps all that, and the tail was no block before |
| `Umalloc.GrownOk` | umalloc.c:46-60 | memory from sbrk extends the heap soundly |
| `Umalloc.UnitsSuffice` | umalloc.c:69 | the computed units hold nbytes, with less than a unit to spare, if and only if nbytes + 7 does not wrap; when it does they are one |
| `Umalloc.SbrkAskedIff` | umalloc.c:52-54 | sbrk is asked for the bytes that malloc goes on to use if and only if the request is below 2^28 units; above that it is asked for zero or fewer |
| `Umalloc.AllPassed` | umalloc.c:76-88 | a whole turn of the search means that no free block is large enough |
| `Umalloc.Allocator.constructor` | umalloc.c:21-22 | before the first call the heap is empty |
| `Umalloc.Allocator.FindPlace` | umalloc.c:29-32 | the search of free terminates at the one place in address order |
| `Umalloc.Allocator.Free` | umalloc.c:24-44 | the heap stays valid, exactly that block stops being live, other live blocks keep their size; the next search starts at the free block before it |
| `Umalloc.Allocator.Morecore` | umalloc.c:46-61 | fails exactly when sbrk does, changing nothing; otherwise a block of the asked size is free, and at least 4096 units were obtained; what sbrk was asked for, formed in 32 bits and read as an int |
| `Umalloc.Allocator.HandOut` | umalloc.c:77-87 | the block handed out is the last of the asked units of the free block found, overlaps no live block, and the next search starts at the block before |
| `Umalloc.Allocator.GoRound` | umalloc.c:74-89 | the search terminates with the first large enough block after the one it started at, or finds none exactly when the list has none and sbrk fails |
| `Umalloc.Allocator.Find` | umalloc.c:70-89 | for any number of units: goes to sbrk exactly when the list before the call has no block that large, and fails exactly when sbrk then has none; the block handed out overlaps no live one |
| `Umalloc.Allocator.Malloc` | umalloc.c:63-90 | returns a block of the right size that overlaps no live block: where the list has one that large, next fit, the end of the first such block after the last one used; it goes to sbrk exactly when the list before the call has no block that large, and returns 0 exactly when sbrk then fails; the units it takes in are matched by the bytes sbrk was asked for exactly when sbrk fails, the list had a block, or the request is below 2^28 units |
| `Vm.OwnMemory` | vm.c:35-80 | what the page roles mean: two virtual pages, of one address space or of two, never share a page, and no user page is free, a directory or a page table |
| `Vm.Kernel.constructor` | kalloc.c:46-53 | every page of the range is free, once |
| `Vm.Kernel.Kalloc` | kalloc.c:82-95 | takes the free page given back last; fails exactly when there is none |
| `Vm.Kernel.Kfree` | kalloc.c:59-77 | gives a page back, which nobody uses |
| `Vm.Kernel.Walk` | vm.c:35-55 | finds or makes the page table; no mapping of any directory changes; fails exactly when a table is missing and no page is free |
| `Vm.Kernel.MapUser` | vm.c:60-80 | maps one page of user memory and no other; on failure nothing changes |
| `Vm.Kernel.MapRow` | vm.c:60-80 | maps a run of kernel pages in order, with a page table where one is touched; fails exactly at the first that is missing when no page is free |
| `Vm.KmapFits` | vm.c:103-115 | the rows of the kernel's map lie in the kernel half and do not overlap |
| `Vm.KmapNeeds` | vm.c:105-115 | the kernel's own map needs 64 page tables wherever its data starts, so that setupkvm takes 65 pages |
| `Vm.Kernel.Setupkvm` | vm.c:118-136 | a directory that maps exactly the kernel's rows; it fails if and only if there are too few free pages for the directory and the page tables the rows touch, and then every page has its old role |
| `Vm.FreshCost` | vm.c:322-339 | what a new address space of n pages costs: n pages and a page table for every 1024 |
| `Vm.TooFew` | vm.c:129-134 | a page table that a row finds missing is one of those the map needs and the directory has not |
| `Vm.CostGrows` | vm.c:231-247 | each further page costs at least one page, so the pages needed grow strictly |
| `Vm.SkipTable` | vm.c:267-269 | where there is no page table there is no user memory: the four-megabyte skip frees what the page-by-page loop would |
| `Vm.RolledBack` | vm.c:233-245 | giving back the new user memory undoes the growth up to empty page tables |
| `Vm.Kernel.Allocuvm` | vm.c:221-249 | by byte address: every address of the pages that start in [oldsz, newsz) reads zero and is writable, every address below keeps its byte and flags, and nothing is mapped in pages from newsz on; it succeeds if and only if there are enough free pages for the memory and the missing page tables; otherwise every mapping is as before and every frame is back |
| `Vm.WholeGrown` | vm.c:221-249 | growing an address space of which every address below the old size is mapped maps every address below the new size |
| `Vm.Kernel.Deallocuvm` | vm.c:255-279 | by byte address: every page that starts in [newsz, oldsz) is unmapped and free, every address below newsz keeps its byte, with or without the four-megabyte skip; every other mapping is kept |
| `Vm.Kernel.Freevm` | vm.c:283-298 | everything that belongs to the directory becomes free, and nothing else |
| `Vm.Kernel.Copyuvm` | vm.c:315-345 | by byte address: at every address below sz the child shows the byte and flags the parent had there, in pages of its own, and no page that starts at sz or above is mapped; the parent and everybody else are unchanged; it fails if and only if there are fewer free pages than the directory, the kernel's page tables, the frames and their page tables need, and then every page has its old role |
| `Bio.UnlinkThreaded` | bio.c:131-132 | taking a buffer out keeps prev and next threading the remaining list |
| `Bio.PushThreaded` | bio.c:133-136 | putting it at the front keeps that too |
| `Bio.SeenRecycled` | bio.c:79-90 | recycling a clean buffer hides nothing of what the file system sees |
| `Bio.SeenModified` | log.c:213-233 | changing a locked buffer's data changes that block of the view and no other |
| `Bio.SeenWritten` | bio.c:109-116 | writing a buffer through changes nothing of the view |
| `Bio.StampsFront` | bio.c:120-141 | the list stays in order of last release |
| `Bio.Cache.Init` | bio.c:38-56 | the list threads all NBUF buffers, all unused |
| `Bio.Cache.Lookup` | bio.c:67-75 | finds the buffer of a block if there is one |
| `Bio.Cache.Victim` | bio.c:77-91 | the eligible buffer released longest ago, if there is one: dirty or referenced buffers are never chosen |
| `Bio.Cache.Get` | bio.c:61-93 | at most one buffer per block: the cached one with one reference more if there is one, else the unreferenced clean one released longest ago, invalid and with one reference; panics exactly when there is neither; the view of the disk is unchanged |
| `Bio.Cache.Fill` | bio.c:96-106 | the data returned is what the file system sees in that block |
| `Bio.Cache.Modify` | log.c:213-233 | the holder of a buffer changes one block of the view; the buffer counts as changed until it is written |
| `Bio.Cache.Pin` | log.c:230-232 | a dirty buffer stays out of reach of recycling |
| `Bio.Cache.Bwrite` | bio.c:109-116 | the disk block becomes the buffer's data; the view is unchanged |
| `Bio.Cache.Unlock` | bio.c:120-125 | asks that the holder has logged or written the buffer since its last change of it; then an unlocked, valid, clean buffer equals the disk block |
| `Bio.Cache.Drop` | bio.c:127-141 | one reference less; at zero the buffer moves to the front and the rest keeps its order |
| `Bio.Cache.MoveToFront` | bio.c:130-137 | the six pointer writes move one buffer to the front and keep the order of the others |
| `Bio.Cache.Others` | bio.c:61-141 | any steps of other processes, in any number and order, keep the cache valid and leave a process its references, the contents of every buffer it refers to that nobody changes, and the data, flags and disk block of every buffer it holds |
| `Bio.Cache.Bread` | bio.c:96-106 | among other processes: the caller holds the buffer of its block, with the data the file system sees there |
| `Bio.Cache.Update` | log.c:213-233 | a change followed by log_write or bwrite, among other processes: the file system sees the new data and the buffer may be released |
| `Bio.Cache.Brelse` | bio.c:120-141 | among other processes: one reference less and the lock given up; the view does not change, and the buffer keeps its contents while nobody else changes it |
| `Bio.Cache.ReadChangeRelease` | bio.c:61-141 | bread, a change, log_write or bwrite, and brelse, with any steps of others between any two calls: every call is allowed where it is made, and the file system sees the new data from the unlock on, for as long as nobody else changes that buffer |
| `SleepLock.InvStep` | sleeplock.c:22-42 | every step of any process, spurious wakeups included, keeps the invariant |
| `SleepLock.InvHolds` | sleeplock.c:22-53 | the invariant holds in every state of every run, for any number of processes and locks |
| `SleepLock.MutualExclusion` | sleeplock.c:22-42 | in every run a sleep lock has at most one holder, and it is the recorded one |
| `SleepLock.AcquireTakes` | sleeplock.c:22-32 | acquiresleep, whenever it returns in any interleaving, returns with the lock: the caller holds what it held before and this lock, which is marked locked with the caller as owner |
| `SleepLock.ReleaseGives` | sleeplock.c:34-42 | releasesleep returns with the caller holding exactly the other locks it held |
| `SleepLock.AloneAcquires` | sleeplock.c:22-32 | acquiresleep of a free lock returns after finitely many steps of the caller alone, with that lock taken and nothing else |
| `SleepLock.AloneReleases` | sleeplock.c:34-42 | releasesleep returns after finitely many steps of the caller alone; the lock is free, exactly its sleepers are awake, and every other process is as it was |
| `SleepLock.SleepsUntilWoken` | proc.c:459-517 | a process that has gone to sleep on a lock does not move before a wakeup on that lock, or a spurious one, and is awake after it |
| `SleepLock.NoLostWakeup` | proc.c:459-517 | if the lock is free while somebody sleeps on it, its releaser is still on the way to wakeup, and its wakeup step wakes that sleeper |
| `SleepLock.SpinProgress` | proc.c:459-517 | whoever holds ptable.lock, or a lock's spin lock while ptable.lock is free, can move |
| `ProcTable.ExitedAt` | proc.c:270-284 | what exit's loop amounts to, entry by entry: children go to init, and init and the parent are woken exactly when they must be |
| `ProcTable.InvStep` | proc.c:192-333 | every step of fork, exit, wait, kill, sleep, wakeup and scheduling keeps the invariant |
| `ProcTable.InvHolds` | proc.c:81-333 | the invariant holds in every state of every run |
| `ProcTable.StepByField` | proc.c:81-539 | what every step does to every entry of the table, field by field, stated without the code's own functions: states and channels, the killed mark, the pid and parent, the stack and page directory, and tickets, of which a child has the larger of ten and its parent's |
| `ProcTable.LifeCycle` | proc.c:192-333 | in every run: a process past EMBRYO other than init has a living parent; nonzero pids are distinct; nobody sleeps in wait with a zombie child; every RUNNABLE process has at least 10 tickets |
| `ProcTable.ReapedOnce` | proc.c:304-319 | a zombie leaves that state only when its parent's wait reaps it, and then its stack and page table, free nowhere before, are freed once |
| `ProcTable.PagesConserved` | proc.c:81-333 | no step loses or invents a stack or page-directory page |
| `ProcTable.Ptable.Wakeup1` | proc.c:499-507 | exactly the sleepers on the channel become RUNNABLE |
| `ProcTable.Ptable.Exit` | proc.c:271-289 | the two loops are the abstract exit step |
| `ProcTable.Ptable.Wait` | proc.c:293-333 | reaps a child exactly when one is a zombie, resetting every field of its entry and returning its pid; fails exactly when none is and the caller has no child or was killed; else goes to sleep on itself; nothing else changes |
| `ProcTable.Ptable.Kill` | proc.c:521-539 | succeeds exactly when the pid is in the table; then the first entry with it is marked killed, a SLEEPING one becomes RUNNABLE, and nothing else changes |
| `ProcTable.Ptable.AllocSlot` | proc.c:81-100 | takes the first free slot and the next pid, failing exactly when there is none; nothing else changes |
| `ProcTable.Ptable.SetTicket` | proc.c:612-627 | for any pid and any number: the first entry with the pid gets that many tickets; fails exactly when no entry has it, changing nothing |
| `ProcTable.Ptable.SysSetTickets` | sysproc.c:136-151 | refuses fewer than ten; otherwise it is the abstract step, and a process changes its own entry only |
| `Shell.ShowParses` | sh.c:344-444 | on tokens: parsing a parenthesised printing, up to what closes it, gives the tree back and leaves the rest |
| `Shell.RenderLexes` | sh.c:265-320 | cutting a rendered token list into tokens gives the tokens back, whatever white space stands between them |
| `Shell.RoundTrip` | sh.c:265-444 | every command tree with fewer than MAXARGS words per command, printed with parentheses and any white space and parsed, is itself |
| `Shell.ItemsParse` | sh.c:374-444 | words and redirections in any order make one command: the words in order, and the redirections around it, the first innermost |
| `Shell.TerseLine` | sh.c:344-444 | on tokens: parentheses only around a list or a background command inside a pipeline or a background command, around a pipeline on the left of one, and where a redirection applies to more than one command, already give the tree back: the pipe sign binds tighter than "&" and ";", and pipelines and lists group to the right |
| `Shell.TerseRoundTrip` | sh.c:265-444 | the same on text: every command tree printed with the fewest parentheses, ">" or ">>", and any white space, parses to itself |
| `Shell.PipeThenList` | sh.c:344-372 | two commands with a pipe sign between them, a semicolon and a third are the pipeline of the two, followed by the third |
| `Shell.LineCount` | sh.c:344-444 | every symbol of an accepted line is accounted for: as many pipes, lists, background commands and redirections in the tree as there are such symbols |
| `Shell.TextLine` | sh.c:344-444 | parsing looks at symbols only: the parse of the texts is the text of the parse |
| `Shell.LineWords` | sh.c:344-444 | a parse yields a tree with at most 9 words per command and every word of the line in it exactly once |
| `Shell.Accepted` | sh.c:327-342 | of every accepted line: each word once, each cut out whole, each symbol accounted for, and a tree that printing and parsing preserve |
| `Shell.Parser.GetToken` | sh.c:265-308 | takes exactly the next token of the line, with its text's bounds |
| `Shell.Parser.Peek` | sh.c:310-320 | tells whether the next token starts with one of the symbols, taking nothing |
| `Shell.Parser.ParseRedirs` | sh.c:374-397 | the loop follows the grammar's redirections, or finds the file missing |
| `Shell.Parser.ParseExec` | sh.c:415-444 | the loop follows the grammar, "too many args" included |
| `Shell.Parser.ParseBlock` | sh.c:399-412 | follows the grammar, "missing )" included |
| `Shell.Parser.ParsePipe` | sh.c:361-372 | follows the grammar, whose pipelines `Shell.TerseLine` pins |
| `Shell.Parser.ParseLine` | sh.c:344-359 | follows the grammar, and terminates on every line |
| `Shell.WordReads` | sh.c:449-493 | once the ends are written, each word read as a C string is its text and no byte of it has changed: no word ends inside another |
| `Shell.Nulterminate` | sh.c:449-493 | writes a NUL after each word of the tree and nowhere else |
| `Shell.ParseCmd` | sh.c:327-342 | accepts exactly the lines the grammar does; afterwards every argument and file name stands in the buffer as the C string that was written there; a refused line is untouched |
| `Pipe.Tests` | pipe.c:85-113 | with counters that wrap at 2^32, the two tests of the code mean empty and full, and the ring index is the count modulo 512 |
| `Pipe.Stored` | pipe.c:93 | storing a byte in a pipe that is not full keeps the ring in step with the stored sequence |
| `Pipe.Taken` | pipe.c:113 | the byte taken is the oldest undelivered one |
| `Pipe.Pipe.constructor` | pipe.c:30-35 | an empty pipe with both ends open |
| `Pipe.Pipe.Write` | pipe.c:78-98 | stores as much of the source as there is room for; it sleeps or fails only when the pipe is full; readers are left asleep beside data exactly when there were readers asleep, more than the pipe's size was left to write, and the read end is closed or the caller was killed |
| `Pipe.LostReaderWakeup` | pipe.c:85-89 | a run that reaches a full pipe with a reader asleep |
| `Pipe.Pipe.Read` | pipe.c:100-121 | bytes come out in the order stored; it sleeps exactly when the pipe is empty, may be written and the caller is not killed; a positive-length read returns 0 only when the write end is closed and the pipe drained |
| `Pipe.Pipe.Close` | pipe.c:59-75 | one end shut and its sleepers woken, nobody else; the page is freed exactly at the second |
| `Descriptors.PipeAlive` | pipe.c:22-75 | between system calls a pipe's page is in use exactly as long as some descriptor names a file on it, and free otherwise |
| `Descriptors.CloseOk` | file.c:56-80 | giving up a reference keeps every count, and the last one to an end of a pipe shuts that end |
| `Descriptors.Ftable.constructor` | file.c:14-23 | an empty table |
| `Descriptors.Ftable.Filealloc` | file.c:26-41 | takes the first unused file; fails exactly when there is none |
| `Descriptors.Ftable.Fileclose` | file.c:56-80 | one reference less and nothing else of the file, or, with the last, the file closed with its pipe end or inode reference; every other file is unchanged |
| `Descriptors.Ftable.Pipeclose` | pipe.c:59-75 | one end shut; with both shut the page goes to the free list |
| `Descriptors.Ftable.Fdalloc` | sysfile.c:40-53 | the lowest free descriptor, failing exactly when there is none |
| `Descriptors.Ftable.SysDup` | sysfile.c:55-67 | one more descriptor for the file and exactly one more reference, nothing else of any file; exact failure conditions, which change nothing |
| `Descriptors.Ftable.SysClose` | sysfile.c:93-104 | the descriptor is cleared; its file loses exactly one reference and nothing else, or is closed; every other file is unchanged; counts stay exact; fails exactly without such a descriptor, changing nothing |
| `Descriptors.Ftable.SysOpen` | sysfile.c:318-334 | a file on the inode at offset 0 with the lowest free descriptor; fails exactly when there is no file or no descriptor, and then nothing has changed |
| `Descriptors.Ftable.Pipealloc` | pipe.c:22-57 | the first two unused files become the reading and the writing end of a new pipe in the first free page, and nothing else changes; or nothing has changed |
| `Descriptors.Ftable.SysPipe` | sysfile.c:423-445 | the two lowest free descriptors on the ends of a new pipe, nothing else of any file, pipe or page; on failure both files are closed and the page is back where it was |
| `Descriptors.Ftable.ForkFiles` | proc.c:227-229 | the child names every file the parent does, every count follows, and nothing but counts changes |
| `Descriptors.Ftable.ExitFiles` | proc.c:258-264 | every descriptor of the process is closed, nobody else's changes, every count follows |
| `Grep.BeginsOne` | grep.c:84-96 | the declarative meaning of a single character of a pattern |
| `Grep.BeginsMany` | grep.c:98-106 | the declarative meaning of a starred one |
| `Grep.StarlessBegins` | grep.c:84-96 | a pattern without stars describes exactly the texts that begin with its characters, a period standing for any; with a dollar sign after it, exactly those that are no longer |
| `Grep.StarBegins` | grep.c:98-106 | "c*" and then a pattern: exactly when some number of c, or of any characters for a period, is followed by what the pattern describes |
| `Grep.PlainMatches` | grep.c:72-96 | without caret and star a pattern matches exactly the texts that have its characters somewhere, or at their end when a dollar sign follows |
| `Grep.CaretMatches` | grep.c:72-96 | after a caret the characters must be at the start, and with a dollar sign be all of the text |
| `Grep.Match` | grep.c:72-82 | true exactly when some part of the text, or its beginning after ^, matches the pattern |
| `Grep.MatchHere` | grep.c:84-96 | true exactly when a beginning of the text matches, literal ^, $ and * out of position included; terminates |
| `Grep.MatchStar` | grep.c:98-106 | true exactly when some number of fitting characters and then the rest of the pattern match |
| `Directory.Namecmp` | fs.c:517-521 | equal exactly when the names agree up to the first zero, and at most DIRSIZ bytes |
| `Directory.NameField` | fs.c:570-572 | strncpy fills the field with the name and zeroes, and names the same thing |
| `Directory.EntryPlace` | fs.h:53-56 | where an entry lies: sixteen bytes each, the inode number in the first two, the lower first, and then the name |
| `Directory.WriteEntry` | fs.c:570-574 | writing an entry's sixteen bytes changes that entry and no other; the inode number is cut to sixteen bits |
| `Directory.ViewUnique` | fs.c:524-548 | a directory denotes one map from names to inode numbers |
| `Directory.BindOk` | fs.c:562-574 | a new name in a free slot, or at the end, adds exactly that binding and keeps names distinct |
| `Directory.UnbindOk` | sysfile.c:218-220 | clearing a slot removes exactly its binding |
| `Directory.Dir.Dirlookup` | fs.c:524-548 | the inode number the map binds to the name, and its slot; 0 exactly when it is not bound |
| `Directory.Dir.FreeSlot` | fs.c:562-568 | the first free slot, or the end |
| `Directory.Dir.Dirlink` | fs.c:551-577 | refuses exactly the bound names and exactly the full directories of maximal size, changing nothing; otherwise adds exactly one binding, the name filled up with zeroes, in the first free slot |
| `Directory.Dir.constructor` | fs.c:524-548 | an empty directory binds nothing |
| `Directory.Dir.Clear` | sysfile.c:218-220 | removes exactly one binding, zeroing its slot and touching no other |
| `Directory.JoinSplits` | fs.c:580-594 | cutting a path into components undoes joining them |
| `Directory.Skipelem` | fs.c:596-619 | the first component, cut to DIRSIZ, and a path with exactly the other components, empty when there are none |
| `Directory.Tree.Namex` | fs.c:625-658 | the inode the components lead to; or, for the parent, the directory before the last component, and that component's name |

## Left out

- Hardware, boot, traps, interrupt controllers, the IDE driver, the console and the system call glue (argument fetching): port I/O and foreign instructions.
- The memory ordering inside spin locks: `acquire` and `release` are atomic steps.
- The inode cache (`iget`, `iput`, `ilock`, `ialloc`) and link counts: `Fs` works on the inodes as `ilock` gives them, `Descriptors` counts one inode reference per open file.
- `create`, `link`, `mkdir`, `chdir`, and the checks of `unlink` before the entry is cleared.
- Device reads and writes through `readi` and `writei`: they are an outcome of their own.
- Interleaving of two `filewrite` calls on one file between chunks: `Fs` runs one call at a time, and so does `Durable`, which lets its operations be committed in groups.
- `readi` over unmapped blocks: files have a block behind every byte below their size, which `writei` keeps.
- `exec`, `loaduvm`, `inituvm`, `clearpteu`, `copyout`, and `growproc`, whose shrink to size zero reports failure.
- Running a parsed command (`runcmd`), reading a line, and `cd`.
- grep's line buffer, which drops a partial line when one read holds no newline.
- `printf`, `cprintf`, `fillpstat`, `getpinfo` and the small user programs: formatting.
- Fairness of the scheduler beyond a fixed runnable set, and liveness of processes that wait for a lock.
- Fs.FileSys.Bmap: says nothing about the disk after the panic of `balloc`, because nothing runs after it.
- Vm.Kernel.Kfree: does not model the junk that `kfree` writes into the page, because no page in use sees it, nor its panic on an address that is no page of the range, because pages are numbered here.
- Vm.Kernel.Deallocuvm: clears the page table entry just before the page is freed, where the source clears it just after, because nothing looks at it in between.
- Bio.Cache.Get: one disk, device 1; that no block is cached twice is not claimed of block 0 of device 0, because all buffers start with that key.
- Shell.Parser.ParseExec: an exec node is put together at the end of its loop, where the source fills it while redirections already point to it, because command trees are values here.
- Descriptors.Ftable.SysOpen: starts where the inode has been found; how a file's offset moves is `Fs.FileSys.FileWrite`'s second result.
- Descriptors.Ftable.ExitFiles: clears each descriptor before its file is closed, where the source closes first, because nothing looks at it in between.
- Umalloc.Allocator.Malloc: `core` is what `sbrk` returns, -1 or an address at or above the end of the heap; that `sbrk` shrinks the process when its argument is negative is not part of it.
- ProcTable.Ptable.Exit: the part under `ptable.lock`; closing the files is `Descriptors.Ftable.ExitFiles`, and the `iput` of the working directory belongs to the inode cache.
