# A verified model of the xv6-64 kernel and its user programs

This project models the parts of xv6-64 (a 64-bit port of the xv6 teaching kernel) whose correctness is
not visible from any single function, and proves what they promise for every input, every run and every
reachable state. Code that updates state step by step is modelled by classes and methods with loops; code
that runs concurrently is modelled by state machines whose steps are the lock operations and updates of
the C code; recursive code is modelled by functions. `dafny verify dfyconfig.toml` checks everything.

## What is modelled

**Crash-safe log over a buffer cache** (log.c, bio.c; `DiskLog`, `LruRing`, `BufferCache`, `GroupCommit`,
`RedoLog`). The disk is a sequence of blocks, and one block write is atomic. `BufferCache` is bio.c: the
doubly linked LRU ring is kept as `next` and `prev` arrays, with a ghost permutation of all buffers as its
meaning, and every method states what the cached view of the disk becomes. A ghost clock says when each
buffer was last given up, and the ring is ordered by it. `RedoLog` is log.c on top of it; its `Commit` and
its constructor (initlog) are proved to produce exactly the sequences of disk states that `DiskLog` reasons
about. `DiskLog` then proves crash atomicity over those sequences, with any number of crashes during
recovery. `GroupCommit` is the admission protocol as a state machine; log_write reads lh.n for its guards
before it takes log.lock, so guard and update are separate steps. Three findings. The guard "too big a
transaction" is out of reach of well-behaved operations exactly when the log has more than LOGSIZE blocks,
and mkfs makes it one smaller (mkfs.c:25). In such a log the guard does not keep lh.n below the size either:
two operations can pass it one after the other and then record a block each. And a commit of NBUF blocks
cannot get a buffer for its first log block, because NBUF equals LOGSIZE (param.h:10-12); with the log of
mkfs the race leads exactly there.

**User-space heap** (umalloc.c; `FreeList`, `Heap`). malloc and free of section 8.7 of The C Programming
Language, over an explicit memory of headers. Addresses count headers. The ghost list of free blocks is
sorted, disjoint, coalesced and linked in a ring through memory, and every unit ever obtained from sbrk
is in exactly one free or held block.

**Page tables and page allocator** (vm.c, kalloc.c; `PageTable`, `Kalloc`, `Vm`). Four-level paging as in
section 4.5 of volume 3A of the Intel 64 and IA-32 Architectures Software Developer's Manual, over physical
memory as a sequence of pages. `Reach` and `Pte` follow the pointers in memory as the hardware does, and
`Rights` combines the write and user flags of all levels as it does; ghost roles say which frame is the
table of which level and key of which address space. That the two agree both ways (`ReachIsRole`) makes the
tree a map, and the methods of `Machine` are stated as changes of that map and of the use of frames. The
tables kvmalloc makes have a role of their own that no method takes away, and the invariant every method
keeps says that each PML4 has the kernel's half.

**Files, directories and link counts** (fs.c, sysfile.c; `FsBlocks`, `FsOwner`, `FsImage`, `FileSystem`,
`DirContent`, `Directory`, `Links`, `SysFile`). Blocks are 512 bytes, read as little-endian words in
indirect blocks and as bits in the free map. Every pointer of every inode owns its block, the free map says
exactly what is owned, and file contents are byte sequences in which a block that is not there reads as
zeros. Directories are such byte sequences read as finite maps from names cut to 14 bytes. `Links` says what
right link counts are over such maps and what entering, removing and freeing do to them; `SysFile` is link,
unlink and create on the bytes of directories and on inodes, proved to be those changes, with every other
file left as it was: its pointers, its size and its bytes. Creating or linking inside a removed directory
that is still in use breaks the counts, with runs that do it, and nothing else does.

**Processes, scheduler, sleep locks** (proc.c, sleeplock.c; `ProcTable`, `Scheduler`, `SchedulerCore`,
`SchedulerFamily`, `SleepLocks`, `SchedulerSafety`, `SchedulerPids`, `SchedulerFairness`, `SchedulerCalls`).
Any number of CPUs and processes; ptable.lock belongs to a CPU and is handed across the context switch.
Acquiring, releasing, marking, switching and the unlocked stores of fork are separate steps. A loop over the
table with ptable.lock held is one step; the stores that fork makes without the lock touch only an EMBRYO
slot, which none of these loops changes. The loops themselves are methods of the class `ProcessTable`,
proved equal to the functions the steps use. `SchedulerCalls` says, field by field, what a CPU that goes
through one operation leaves behind.

**Pipes** (pipe.c; `PipeRing`, `PipeBuffer`, `PipeProtocol`, `PipeCalls`, `PipeKills`). The ring buffer with its two
32-bit counters, the copy loops as methods on an array, and pipewrite, piperead and pipeclose as a state
machine with the pipe's lock, ptable.lock, sleep and wakeup spelled out. `PipeCalls` says why calls end as
they do and what a call that nobody disturbs does to the bytes in the pipe. `PipeKills` finds that a kill can
be lost: pipewrite and piperead look at proc->killed before they hold ptable.lock, so a process killed in
between sleeps on until something else wakes it.

**Shell parser** (sh.c; `ShellSyntax`, `ShellGrammar`, `ShellRoundTrip`, `ShellWords`, `Shell`). The
recursive-descent parser as functions of text and position; a grammar with its meaning, of which the parser
accepts exactly the texts and builds exactly the commands; the same parser as a class with a cursor, proved
equal; the in-place NUL termination of the words.

**Regular expressions** (grep.c; `Grep`). The matcher against a declarative meaning of patterns.

`Options`, `Params`, `Stat` and `Sealing` hold what several modules share.

## Model

| member | source | states |
|---|---|---|
| `Grep.Match` | grep.c:72-82 | true exactly when the pattern, read with its leading '^' and final '$', matches somewhere in the text by the declarative meaning |
| `Grep.MatchHere` | grep.c:84-96 | true exactly when some prefix of the text is in the language of the pattern, and all of it if the pattern ends in '$'; '*' is looked up before '$' |
| `Grep.MatchStar` | grep.c:98-106 | true exactly when the rest matches after some run of the starred character |
| `Grep.InLanguageCons` | grep.c:85-96 | a sequence of atoms denotes exactly the concatenations of what its atoms denote |
| `Grep.MatchesPrefixMany` | grep.c:98-106 | a starred atom followed by a pattern matches iff the pattern matches after some run |
| `DiskLog.HeaderRoundTrip` | log.c:84-113 | the header block that write_head makes is read back as the same list of blocks |
| `DiskLog.FillingKeeps` | log.c:174-188 | while the on-disk header lists nothing, writing log blocks changes no block outside the log |
| `DiskLog.HeaderCommits` | log.c:98-113 | the one header write makes the logged copies the contents of the file system, all at once |
| `DiskLog.InstallingKeeps` | log.c:68-82 | copying any number of logged blocks home keeps the contents; after all of them everything is at home |
| `DiskLog.ErasingKeeps` | log.c:115-122 | clearing the header after everything is home keeps the contents |
| `DiskLog.RecoveryKeeps` | log.c:115-122 | no write of recovery changes the contents, and finished recovery leaves an empty log with everything at home |
| `DiskLog.CommitStates` | log.c:190-200 | after k writes of a commit of n blocks the contents are the old ones if k <= n and the new ones otherwise |
| `DiskLog.CommitWritesAt` | log.c:190-200 | the k-th disk write of a commit leaves the disk in the k-th state crash atomicity speaks of |
| `DiskLog.RecoveryWritesAt` | log.c:115-122 | the same for the disk writes of a recovery |
| `DiskLog.CrashAtomicity` | log.c:69-122 | a crash after any write of a commit, any number of crashes at any write of recovery, then one finished recovery: the blocks outside the log are exactly the old or exactly the new ones, decided by the header write |
| `DiskLog.StaleHeaderBreaksAtomicity` | log.c:174-200 | without an empty header at the start of a commit the first log write already changes the contents |
| `LruRing.UnlinkNode` | bio.c:130-137 | the two assignments that bridge a node leave a well-linked ring without it |
| `LruRing.InsertNode` | bio.c:130-137 | the four assignments put a node right behind the head of a well-linked ring |
| `LruRing.WholeMissesNone` | bio.c:38-56 | a whole ring contains every buffer |
| `BufferCache.BufferCache.constructor` | bio.c:38-56 | binit makes the ring a permutation of all buffers, the last one in front, none of them holding a block |
| `BufferCache.BufferCache.Bget` | bio.c:61-93 | finds the one buffer of the block or recycles, of the buffers neither referenced nor dirty, the one given up longest ago; fails exactly when there is neither; the view of every block stays |
| `BufferCache.BufferCache.Find` | bio.c:68-76 | the buffer of the block if one exists, and otherwise that none does |
| `BufferCache.BufferCache.FindRecyclable` | bio.c:78-91 | the recyclable buffer given up longest ago, or that there is none |
| `BufferCache.BufferCache.Fill` | bio.c:95-106 | after the disk read the locked buffer holds the current view of its block |
| `BufferCache.BufferCache.Bread` | bio.c:95-106 | a locked buffer with the last released contents of the block, or the disk's, the recycled buffer being the one given up longest ago; every other buffer and every view unchanged |
| `BufferCache.BufferCache.Modify` | log.c:206-210 | the holder's change is seen at that block and nowhere else |
| `BufferCache.BufferCache.Pin` | log.c:229-229 | setting B_DIRTY pins the buffer and changes no view |
| `BufferCache.BufferCache.Bwrite` | bio.c:108-116 | the disk takes the buffer's data as one write, the buffer becomes clean and no view changes |
| `BufferCache.BufferCache.Brelse` | bio.c:118-141 | drops the lock and a reference; the last one moves the buffer to the front of the ring and makes it the most recently given up |
| `BufferCache.BufferCache.MoveToFront` | bio.c:130-137 | the ring becomes the old one with the buffer moved to the front |
| `BufferCache.OrderedFront` | bio.c:118-137 | moving the buffer just given up to the front keeps the ring ordered by when buffers were given up |
| `BufferCache.ViewCached` | bio.c:58-76 | a valid buffer is what every reader of its block sees |
| `BufferCache.OneChanged` | bio.c:61-93 | at most one buffer per block survives every replacement of a buffer |
| `GroupCommit.StepKeeps` | log.c:125-231 | every step of any operation, the unlocked guard and the locked update of log_write being two, keeps: listed blocks plus all calls to come fit in LOGSIZE, listed blocks plus calls past the guard pass the log size by at most one, and nothing is outstanding during a commit |
| `GroupCommit.RunsKeep` | log.c:125-231 | over every interleaving the panics of end_op and of log_write outside a transaction never happen, lh.n plus all calls still to come stays within LOGSIZE, and lh.n never exceeds the log size by more than one |
| `GroupCommit.LetInIff` | log.c:124-141 | in every run begin_op lets an operation in, whatever others have listed, exactly when no commit runs and the listed blocks leave room for all that the running operations and this one may write; otherwise it changes nothing |
| `GroupCommit.StartsBesideListed` | log.c:124-141 | for every number of blocks that fits, a run in which an operation starts beside another that has listed so many |
| `GroupCommit.RecordLists` | log.c:221-230 | in every run log_write lists its block once, keeps what is listed in its place and lists nothing else |
| `GroupCommit.LastEndCommits` | log.c:143-161 | in every run end_op starts a commit exactly when it was the last operation, and what is listed stays |
| `GroupCommit.DrainsToStart` | log.c:124-172 | from every state a run without a panic leads to, the operations can end and the commit can finish, with nothing listed and nobody inside: no operation is kept out for ever |
| `GroupCommit.NeverTooBig` | log.c:211-231 | with more than LOGSIZE log blocks no run of operations within budget is told its transaction is too big |
| `GroupCommit.TooBigUnreachableIff` | log.c:211-219 | the guard is unreachable exactly when the log has more than LOGSIZE blocks |
| `GroupCommit.NeverOverrunIff` | log.c:216-227 | lh.n stays below the log size in every run exactly when the log has more than LOGSIZE blocks, or none for data |
| `GroupCommit.RaceOverruns` | log.c:216-227 | in any log of 2 to LOGSIZE blocks a run without a panic in which two operations pass the guard before either records, and lh.n reaches the log size |
| `GroupCommit.CommitWithoutBuffers` | log.c:125-172 | with the log of mkfs a run without a panic whose commit finds NBUF blocks listed |
| `RedoLog.PinsLeaveRoom` | bio.c:78-91 | fewer pinned blocks than buffers leave a buffer to recycle |
| `RedoLog.PinsFillCache` | bio.c:78-92 | as many pinned blocks as buffers leave none, so no other block can be read |
| `RedoLog.CopyBlock` | log.c:75-80 | one turn of write_log or install_trans writes one block with the current view of the other and changes no other view |
| `RedoLog.StoreHeader` | log.c:105-110 | the loop of write_head stores exactly the listed block numbers |
| `RedoLog.LoadHeader` | log.c:89-94 | the loop of read_head loads exactly the listed block numbers |
| `RedoLog.Log.constructor` | log.c:53-66 | initlog goes through exactly the writes of a recovery, after which the disk holds what it stood for |
| `RedoLog.Log.RecoverFromLog` | log.c:115-122 | the disk writes are exactly those of a recovery, and afterwards the blocks outside the log are what the disk stood for |
| `RedoLog.Log.ReadHead` | log.c:84-96 | the in-memory list becomes the one on disk |
| `RedoLog.Log.WriteHead` | log.c:98-113 | one write, of a header listing the in-memory blocks |
| `RedoLog.Log.InstallTrans` | log.c:68-82 | the writes are exactly the installation of the logged blocks, and nothing is dirty afterwards |
| `RedoLog.Log.WriteLog` | log.c:174-188 | copies the latest version of every logged block into the log; possible exactly when fewer blocks than buffers are pinned |
| `RedoLog.Log.Commit` | log.c:190-200 | the disk goes through exactly the states crash atomicity is proved about, and afterwards holds what system calls have been seeing; in a log of LOGSIZE blocks or more possible exactly when fewer than NBUF blocks are listed, however many the race let in |
| `RedoLog.Log.WriteTransaction` | log.c:193-199 | the writes of a commit in order, and the disk they leave |
| `RedoLog.Log.BeginOp` | log.c:124-141 | starts exactly when no commit runs and the listed blocks leave room for MAXOPBLOCKS blocks of every running operation and of this one |
| `RedoLog.Log.EndOp` | log.c:143-161 | never finds a commit running, and hands the commit to the last operation out |
| `RedoLog.Log.FinishCommit` | log.c:163-171 | after the commit operations may start again, with an empty list |
| `RedoLog.Log.LogWrite` | log.c:211-231 | when nothing comes between guard and update: lists the block once, pins its buffer, stays below the log size and changes nothing a system call can see; fails exactly on the two guards, which come before absorption |
| `RedoLog.Log.PassGuards` | log.c:216-219 | passes exactly when the log is not full and a transaction runs |
| `RedoLog.Log.ListAndPin` | log.c:221-230 | the locked part, whatever others recorded since the guard: the block is listed once and pinned, and what system calls see stays |
| `RedoLog.Log.FindLogged` | log.c:222-225 | the position of the block in the list, or that it is not there |
| `RedoLog.Log.Update` | log.c:202-231 | bread, change, log_write, brelse, whoever else holds other buffers: system calls see the new contents at once, the block is listed, and the holders of buffers stay the same |
| `RedoLog.Pending` | log.c:174-188 | what system calls see is the disk overwritten with the latest contents of the listed blocks |
| `FreeList.FindSlot` | umalloc.c:30-32 | every block outside the list has a place in it |
| `FreeList.SearchStops` | umalloc.c:30-32 | the exit test of the loop of free holds at the place of the block and nowhere else in the ring |
| `FreeList.InsertSorted` | umalloc.c:33-43 | inserting and joining keeps the list address-ordered, disjoint and coalesced |
| `FreeList.FreedLinked` | umalloc.c:33-43 | the pointer and size assignments of free link exactly the list with the block inserted and joined |
| `FreeList.TakeSorted` | umalloc.c:75-84 | taking a block, or its top, keeps the list sorted and coalesced and clear of what was taken |
| `FreeList.TakeUnits` | umalloc.c:75-84 | what the list loses is exactly what was taken |
| `Heap.Allocator.constructor` | umalloc.c:21-22 | a process starts with no free list |
| `Heap.Allocator.Free` | umalloc.c:24-44 | the block leaves the held ones and joins the ring at its place, merged with its neighbours; freep is the block before it; every unit of every block still held keeps its contents |
| `Heap.FindPlace` | umalloc.c:30-32 | the loop of free ends at the block after which bp belongs |
| `Heap.Allocator.Relink` | umalloc.c:33-42 | the memory after the joins is the one proved to link the merged list |
| `Heap.Allocator.Morecore` | umalloc.c:46-61 | fails exactly when sbrk does; otherwise at least 4096 units join the ring and some block now fits |
| `Heap.Allocator.Malloc` | umalloc.c:63-90 | the first block after freep that fits, taken whole or from its top, with freep left at the block before it; else new memory, after which a block is found before the search gets round again, merged or not; 0 exactly when nothing fits and sbrk fails, and then freep is where it was, or at the base on a first call; every unit of every held block keeps its contents |
| `Heap.SearchGoesOn` | umalloc.c:70-89 | over two calls: the second takes the first block that fits from where the first call left off, round the ring |
| `Heap.Allocator.TakeBlock` | umalloc.c:75-84 | the block handed out was free, is now held with the size asked for, and freep precedes it |
| `Heap.NextFit` | umalloc.c:74-89 | one round of the search: prevp always precedes p, the first fitting block is found, or none fits |
| `Heap.Allocator.UserWrite` | umalloc.c:63-90 | whatever a program writes into a block it holds, other than over its header, leaves the heap sound and every other unit as it was |
| `Heap.UnitsFor` | umalloc.c:69-69 | the least number of units that holds the header and the bytes |
| `Heap.UnitsExact` | umalloc.c:53-69 | for every 32-bit nbytes neither the number of units nor the bytes asked of sbrk wrap around |
| `Heap.SizesExact` | umalloc.c:33-41 | no size field of a free or held block wraps around while the heap is at most 64 GB long |
| `Heap.Conservation` | umalloc.c:24-90 | units in free blocks plus units in held blocks equal the units obtained from morecore, at all times |
| `PageTable.ReachIsRole` | vm.c:155-201 | following pointers from a PML4 reaches a frame at a level and key iff that frame has that role: the tree is a map |
| `PageTable.RoleBounds` | vm.c:160-201 | every table and page of a space hangs from the space's PML4 |
| `PageTable.LinkPte` | vm.c:167-198 | adding a table changes no translation; adding a page changes exactly one |
| `PageTable.UnlinkPte` | vm.c:324-331 | removing a page changes exactly one translation |
| `PageTable.EntryParts` | vm.c:167-198 | frame and each of the flags are read back from an entry |
| `PageTable.RightsOfPage` | vm.c:155-201 | the tables above a page allow writing and user access, so what user code may do with the page is what its page-table entry says |
| `Kalloc.PopKeeps` | kalloc.c:76-93 | the free list without its head lists exactly the frames still free |
| `Kalloc.PushKeeps` | kalloc.c:49-71 | a page freed once is on the list exactly once |
| `Vm.Machine.constructor` | kalloc.c:25-32 | before kinit1 no frame is anything but the kernel image or unused |
| `Vm.Machine.Freerange` | kalloc.c:40-47 | exactly the whole pages of the range become free, each once on the list, and nothing else in use changes; panics exactly when the range reaches into the kernel image or past the end of memory |
| `Vm.Machine.Kinit1` | kalloc.c:25-32 | the free list is exactly the pages of the range |
| `Vm.Machine.Kvmalloc` | vm.c:116-137 | two free frames become the tables of the kernel, with the mappings of the first and the fourth gigabyte; panics exactly when there are not two |
| `Vm.Boot` | main.c:21-22 | kinit1 and kvmalloc establish the invariant all of vm.c relies on, with exactly the two tables in use; fails exactly with fewer than two frames |
| `Vm.KernelAddresses` | vm.c:116-137 | in every address space and in the kernel's own, at all times, the upper half is the linear map of the first and the fourth gigabyte and nothing else |
| `Vm.KernelRights` | vm.c:116-137 | what is mapped in the upper half the kernel can write and user code cannot touch |
| `Vm.Machine.KallocPage` | kalloc.c:73-93 | takes the first free frame, and panics exactly when there is none |
| `Vm.Machine.KfreePage` | kalloc.c:49-71 | the frame is filled with junk but for the link to the next free page, and is first on the free list |
| `Vm.Machine.Walkpgdir` | vm.c:155-201 | finds the page table of a page, making at most three tables, each on the way to that page, present, writeable and for users; no translation of any space changes; fails only when the allocator runs out |
| `Vm.Machine.Step` | vm.c:167-176 | one level of the walk: the table behind the entry, made only if it is missing and asked for |
| `Vm.Machine.NewTable` | vm.c:167-176 | a zeroed page becomes the table behind the entry, with the rights the invariant asks of tables, and no translation changes; panics exactly when no page is free |
| `Vm.Machine.Mappages` | vm.c:209-232 | the pages of the range, and no others, are mapped to consecutive frames, and no table is made but on the way to one of them; panics only on a page already mapped or when no frame is left |
| `Vm.Machine.Allocuvm` | vm.c:276-306 | exactly the pages in [PGROUNDUP(oldsz), newsz) are added, on frames that were free and are zero, with tables only where they are needed; nothing else is mapped or changed; panics only on a page already mapped or when no frame is left |
| `Vm.GrownRights` | vm.c:276-306 | every page allocuvm adds can be read and written by user code, through all four levels |
| `Vm.Machine.Deallocuvm` | vm.c:308-334 | exactly the pages in [PGROUNDUP(newsz), oldsz) go away, their entries zero and their frames free; holes are skipped |
| `Vm.ShrinkUndoesGrow` | vm.c:276-334 | deallocuvm back to the old size restores every translation, and every frame in use has its old use and contents |
| `Vm.Machine.Clearpteu` | vm.c:386-397 | exactly one entry loses the user flag and nothing else in memory changes; panics exactly when the page has no page table |
| `Vm.ClearedRights` | vm.c:386-397 | after clearpteu the page is where it was, user code cannot touch it, and it is as writeable as before |
| `Vm.Machine.Setupkvm` | vm.c:102-109 | an empty space whose upper half is the kernel's; every other space as before |
| `Vm.Machine.Copyuvm` | vm.c:399-429 | from the second page up to sz the child has the same pages, flags and contents on frames that were free, the parent's map and contents and the kernel's tables unchanged; panics only on a missing page or a lack of frames |
| `Vm.CopyApart` | vm.c:411-423 | the child's pages are on frames of their own, none shared with each other or with the parent |
| `Vm.CopiedRights` | vm.c:399-429 | user code of the child may do with each page exactly what user code of the parent may |
| `Vm.Machine.Freevm` | vm.c:336-384 | exactly the frames of the space, pages and tables of all levels, become free; the shared kernel PDPT keeps its use and contents, and all other frames and spaces stay |
| `Vm.Machine.FreeLevel` | vm.c:347-383 | one of the nested loops frees exactly what hangs under its table, each page once |
| `Vm.RazedKernel` | vm.c:336-384 | freeing the frames of a space leaves the kernel's tables and the kernel's half of every other space alone |
| `Vm.PagesConserved` | kalloc.c:49-93 | pages on the free list plus pages in use are all the pages there are |
| `Vm.FreevmCounts` | vm.c:336-384 | freevm lengthens the free list by exactly the number of frames of the space |
| `Vm.LifeOfASpace` | vm.c:102-109 | a space made, grown in any way and freed leaves every frame with its former use and contents, the kernel's tables and halves included |
| `Vm.LifeOfACopy` | vm.c:399-429 | the same for the space of a child made by copyuvm |
| `FsBlocks.WordSet` | fs.c:366-370 | storing a 32-bit entry in an indirect block changes that entry and no other |
| `FsBlocks.BitPut` | fs.c:60-62 | setting or clearing one bit of the free map changes that bit and no other |
| `FsOwner.AssignKeeps` | fs.c:354-371 | giving a free block to an empty pointer keeps all pointers distinct and owned |
| `FsOwner.ReleaseKeeps` | fs.c:390-407 | dropping a pointer frees its block and keeps all others owned |
| `FsImage.BitsExact` | fs.c:49-89 | the set bits are exactly the metadata blocks and the blocks some inode or indirect block points to |
| `FsImage.PointersApart` | fs.c:339-376 | no two direct, indirect or indirect-entry pointers of any inodes lead to the same block, and none leads to metadata |
| `FsImage.AssignBytes` | fs.c:346-376 | allocating a zeroed block into a file changes no byte of any file |
| `FsImage.CopyBytes` | fs.c:471-477 | copying into one block of a file changes exactly those bytes of that file |
| `FileSystem.FileSystem.constructor` | fs.c:157-172 | a well-formed disk, with memory and disk in agreement |
| `FileSystem.FileSystem.Balloc` | fs.c:51-72 | the lowest free block, marked and zeroed; a panic exactly when none is free |
| `FileSystem.FileSystem.Bfree` | fs.c:74-89 | clears the bit; panics exactly when it is clear |
| `FileSystem.FileSystem.Bmap` | fs.c:346-376 | the block of the file, allocated if missing; no byte of any file changes, no pointer is lost, none is set but the block's own and the indirect block's when it needs one, and nothing changes if the block was there; panics only out of range or when the disk is full |
| `FileSystem.FileSystem.Itrunc` | fs.c:378-411 | "freeing free block" never happens; exactly the blocks of the file become free, the file is empty in memory and on disk, and no other file changes |
| `FileSystem.FileSystem.TruncDirect` | fs.c:390-395 | the loop drops all direct pointers and only those |
| `FileSystem.FileSystem.TruncEntries` | fs.c:397-404 | the loop frees exactly the blocks the indirect block lists |
| `FileSystem.FileSystem.Readi` | fs.c:425-450 | fails exactly on an offset past the end or a 32-bit overflow; otherwise the bytes from off on, cut at the end of the file; without holes nothing changes, so reading never allocates, and with holes only blocks of the bytes asked for are allocated |
| `FileSystem.FileSystem.Writei` | fs.c:453-484 | fails exactly on a bad offset, a 32-bit overflow or a file too large, changing nothing; otherwise the contents are the old ones with the bytes put in place, no pointer but those to the blocks written and to the indirect block is set, no other file changes in pointers, size or bytes, no hole appears, and the disk copy follows when the file grows |
| `FileSystem.ProgressMore` | fs.c:471-477 | one more turn of the loop of writei extends what is in place and takes no block but the one it writes |
| `FileSystem.FileSystem.Iupdate` | fs.c:201-218 | the inode on disk becomes the one in memory |
| `FileSystem.FileSystem.Iput` | fs.c:306-328 | only the last reference to a loaded inode without links frees it, and then exactly its blocks become free, on disk as in memory, and the copy is no longer loaded; no other file changes |
| `FileSystem.FileSystem.Ilock` | fs.c:267-294 | loading an inode changes nothing, since disk and memory agree; panics exactly on a free inode |
| `FileSystem.FileSystem.Ialloc` | fs.c:177-200 | the lowest free inode, cleared and given its type, in memory and on disk; panics exactly when there is none |
| `DirContent.CanonPadded` | fs.c:545-545 | a name stored by strncpy compares equal to the name cut to 14 bytes |
| `DirContent.NamesIs` | fs.c:506-518 | the map of a directory has a name iff a live entry carries it, with that entry's inode number |
| `DirContent.AddEntry` | fs.c:537-548 | writing a new entry in a free place or at the end adds exactly that name to the map |
| `DirContent.RemoveEntry` | sysfile.c:215-217 | zeroing a live entry removes exactly its name from the map |
| `DirContent.OnlyDots` | sysfile.c:115-128 | free entries after the first two mean no names but "." and ".." |
| `Directory.Dirlookup` | fs.c:495-521 | the inode number the map gives the name, with the offset of its first entry; nothing exactly when the map lacks the name |
| `Directory.FreeEntry` | fs.c:536-543 | the first free entry, or the end exactly when none is free |
| `Directory.Dirlink` | fs.c:523-551 | -1 exactly when the name is there; else the map gains exactly that name, in the first free entry or at the end if none is free, and no other file changes in pointers, size or bytes; panics only when no entry is free and the directory or the disk is full |
| `Directory.EraseEntry` | sysfile.c:215-217 | the entry is zeros and all other bytes stay, so the map loses exactly the name of the entry; the write never fails and no other file changes |
| `Directory.Isdirempty` | sysfile.c:115-128 | true exactly when the map has no names but "." and ".." |
| `SysFile.Link` | sysfile.c:130-178 | on inodes and directory bytes: succeeds exactly for a non-directory and a 14-byte name new in an existing directory, and otherwise undoes the count; no file but the directory changes in pointers, size or bytes, the linked one included; the counts stay right iff the directory is itself linked; panics only when no entry of the directory is free and the directory or the disk is full |
| `SysFile.Create` | sysfile.c:238-281 | the existing file, untouched, or the lowest free inode entered under the name in the first free entry, empty, or with "." and ".." first and the parent's count raised for a directory; no other file changes in pointers, size or bytes; the counts stay right iff the parent is itself linked; panics only for lack of inodes, of blocks or of room in the directory |
| `SysFile.Unlink` | sysfile.c:181-236 | removes exactly a name other than the dots of a file or an empty directory by blanking its entry; no file but the directory changes in pointers, size or bytes, that of the removed name included; the counts stay right, and none of its three panics can happen |
| `SysFile.MayRemove` | sysfile.c:200-213 | the names that can be removed are exactly those other than the dots, of directories only when nothing but the dots is in them |
| `SysFile.Put` | fs.c:313-328 | iput frees exactly an unlinked inode at its last reference, leaving it without blocks; every other file stays in pointers, size and bytes, and all counts stay right |
| `SysFile.CreateInRemoved` | sysfile.c:181-281 | from any consistent file system mkdir, rmdir while in use and create in the removed directory lead to wrong counts, unless inodes or blocks run out |
| `Links.EnteredKeeps` | sysfile.c:238-281 | entering a name in a linked directory keeps nlink equal to the number of entries in linked directories, "." left out |
| `Links.RemovedKeeps` | sysfile.c:181-236 | removing a name keeps the same equality, for files and for empty directories |
| `Links.OneName` | sysfile.c:208-228 | an empty directory other than the root is named by exactly one entry |
| `Links.Created` | sysfile.c:258-278 | a new inode is entered consistently iff the directory is linked, whatever its type |
| `Links.Linked` | sysfile.c:130-178 | a file is linked consistently iff the directory is linked |
| `Links.CreateInRemoved` | sysfile.c:181-281 | a concrete file system, reached from one with only a root by mkdir and rmdir, whose counts are right and go wrong by creating a file or a directory |
| `Links.LinkInRemoved` | sysfile.c:130-236 | the same with a link to a file that exists |
| `Links.FreedKeeps` | fs.c:313-328 | freeing an inode without links keeps all counts right |
| `ProcTable.ProcessTable.Wakeup1` | proc.c:404-415 | every sleeper on the channel, whatever channel it is, is runnable, and every other slot and every other field is as before |
| `ProcTable.ProcessTable.PassChildren` | proc.c:202-209 | all children go to init, which is woken if it sleeps and one of them is a zombie, and no other field changes |
| `ProcTable.ProcessTable.FindUnused` | proc.c:42-47 | the first unused slot, or that there is none |
| `ProcTable.ProcessTable.TakeSlot` | proc.c:41-51 | the first unused slot becomes an EMBRYO with the next pid, and no other field changes; fails exactly when none is unused |
| `ProcTable.ProcessTable.FindChild` | proc.c:228-248 | the first zombie child, and otherwise whether there are children at all |
| `ProcTable.ProcessTable.ReapChild` | proc.c:226-252 | a zombie child, if there is one, becomes an unused slot without stack, parent, pid or kill mark, and its pid is returned; otherwise nothing changes |
| `ProcTable.ProcessTable.MarkKilled` | proc.c:435-446 | the first slot with the pid is killed, and runnable if it slept, and no other field changes; fails exactly when there is none |
| `SchedulerCore.HostedElsewhere` | proc.c:269-307 | while a CPU is inside ptable.lock, every process on another CPU is RUNNING and outside it |
| `SchedulerCore.SchedKeeps` | proc.c:269-307 | a step of the scheduler keeps who runs where, who holds ptable.lock and what each state means |
| `SchedulerCore.InTableKeeps` | proc.c:175-259 | so does every step on the table inside ptable.lock |
| `SchedulerCore.LockStepKeeps` | sleeplock.c:22-41 | so does every step of acquiresleep and releasesleep |
| `SchedulerFamily.SleepInWaitKin` | proc.c:226-258 | wait goes to sleep only when no child is a zombie or about to become one |
| `SchedulerFamily.PassOnKin` | proc.c:197-213 | passing the children on leaves the exiting process childless and init awake if it inherits a zombie |
| `SchedulerFamily.ForkTargets` | proc.c:132-169 | processes under construction stay in slots of their own |
| `SleepLocks.LockStepLocks` | sleeplock.c:22-41 | a step of acquiresleep or releasesleep keeps one holder per lock and every sleeper facing a held lock or a pending wakeup |
| `SchedulerSafety.StepKeeps` | proc.c:132-447 | every step of every CPU keeps the whole invariant |
| `SchedulerSafety.RunsKeep` | proc.c:132-447 | so does every run from boot |
| `SchedulerSafety.NoLostWakeupInWait` | proc.c:175-259 | in every run a process asleep in wait has no zombie child, its own or inherited |
| `SchedulerSafety.ZombieIsCollected` | proc.c:175-259 | in every run a zombie has a living parent that is not asleep in wait |
| `SchedulerSafety.NoLostWakeupOnLock` | sleeplock.c:22-41 | with the spin lock free, whoever sleeps in acquiresleep faces a held lock |
| `SchedulerSafety.OneHolder` | sleeplock.c:22-41 | at most one process holds a sleep lock, and the lock carries its pid |
| `SchedulerSafety.RunningIffCurrent` | proc.c:269-343 | with ptable.lock free a process is RUNNING iff a CPU has it as proc, and never two CPUs have the same one |
| `SchedulerSafety.NeverOnFreedStack` | proc.c:237-238 | no CPU is on, or about to switch to, a kernel stack that was freed |
| `SchedulerSafety.ReapsOffCpu` | proc.c:234-246 | whenever a step frees a kernel stack, it is that of a zombie no CPU is on |
| `SchedulerSafety.SchedNeverPanics` | proc.c:316-333 | whoever switches away holds ptable.lock and no other spin lock, and is not RUNNING |
| `SchedulerPids.UniquePids` | proc.c:42-51 | in every run no two processes have the same pid, and pid 0 marks exactly the unused slots |
| `SchedulerPids.StepPids` | proc.c:132-447 | every step keeps pids distinct and below the next one to give out |
| `SchedulerFairness.StepDistance` | proc.c:281-300 | a scan comes one slot closer to a waiting process with every dispatch of another |
| `SchedulerFairness.BoundedOvertaking` | proc.c:275-306 | a CPU dispatches at most NPROC - 1 other processes while a process stays RUNNABLE |
| `SchedulerCalls.NobodyLeftAsleep` | proc.c:404-424 | in every run, right after the step of wakeup1 nobody is SLEEPING on the channel, whatever channel it is |
| `SchedulerCalls.CallWakeup` | proc.c:417-424 | wakeup makes exactly the sleepers on the channel runnable and changes nothing else |
| `SchedulerCalls.CallKill` | proc.c:426-447 | kill marks the process with the pid and makes it runnable if it sleeps, with every other field as before; without such a process it changes nothing |
| `SchedulerCalls.CallFork` | proc.c:132-170 | fork makes of the first unused slot a runnable child with the next pid, a stack and the caller as parent, and changes nothing else; without an unused slot it changes nothing |
| `SchedulerCalls.CallWait` | proc.c:220-259 | wait reaps a zombie child if there is one, returns with nothing changed if the caller is killed or childless, and otherwise sleeps on the caller |
| `SchedulerCalls.CallExit` | proc.c:175-215 | exit leaves a zombie off the CPU, gives its children to init, wakes its parent, and init if it inherits a zombie, and changes no other field |
| `SchedulerCalls.CallSleep` | proc.c:369-402 | sleep leaves the process SLEEPING on the channel and off the CPU, and changes nothing else |
| `SchedulerCalls.CallYield` | proc.c:336-343 | yield leaves the process RUNNABLE and off the CPU, and changes nothing else |
| `SchedulerCalls.ScanDispatches` | proc.c:281-295 | a scan dispatches the first runnable process from its slot on |
| `SchedulerCalls.ScanEnds` | proc.c:279-304 | a scan that finds nobody lets go of ptable.lock and changes no process |
| `SchedulerCalls.CallAcquire` | sleeplock.c:22-31 | acquiresleep of a free lock makes the caller its holder, with the caller's pid in the lock |
| `SchedulerCalls.CallAcquireTaken` | sleeplock.c:22-31 | acquiresleep of a held lock leaves the caller asleep on it and off the CPU, with the lock itself as it was |
| `SchedulerCalls.CallRelease` | sleeplock.c:33-41 | releasesleep frees the lock and makes exactly the sleepers on it runnable |
| `PipeRing.FullAndEmpty` | pipe.c:85-106 | the 32-bit tests for full and empty are right at any number of wraps |
| `PipeRing.PutStores` | pipe.c:93-93 | storing a byte appends it to what the buffer holds |
| `PipeRing.DropTakes` | pipe.c:114-116 | taking a byte takes the oldest |
| `PipeRing.ContentsAre` | pipe.c:13-20 | what counters and data say the buffer holds is what was stored and not yet taken |
| `PipeBuffer.PipeBuffer.constructor` | pipe.c:22-46 | an empty pipe |
| `PipeBuffer.PipeBuffer.Fill` | pipe.c:84-94 | the copy loop appends the bytes in order until all are in or the pipe is full |
| `PipeBuffer.PipeBuffer.Drain` | pipe.c:113-117 | the copy loop returns the oldest bytes in order, n of them or all there are |
| `PipeProtocol.StepKeeps` | pipe.c:59-121 | every step of every thread keeps the whole invariant |
| `PipeProtocol.RunsKeep` | pipe.c:59-121 | so does every run of any number of threads |
| `PipeProtocol.Fifo` | pipe.c:78-121 | in every run what was stored is what was read followed by what the buffer holds, which is at most 512 bytes |
| `PipeProtocol.ReadIsSlice` | pipe.c:100-121 | the bytes one piperead returns are consecutive bytes of the stream, at most n, the last ones taken from it; PipeCalls.ReadsAllThereIs says when they are fewer than n |
| `PipeProtocol.WriteStoresAll` | pipe.c:78-98 | when pipewrite returns n, exactly its n bytes are in the stream in order, whatever others stored between them |
| `PipeProtocol.NeverBothAsleep` | pipe.c:78-121 | a reader and a writer never sleep at the same time, and a writer asleep with the lock free faces a full pipe with its read end open |
| `PipeProtocol.FreedAlone` | pipe.c:59-75 | when pipeclose frees the pipe nobody else is in a call on it |
| `PipeProtocol.AlertStep` | pipe.c:84-92 | a step leaves a reader asleep beside unread bytes iff a writer takes the early return while a reader is down |
| `PipeProtocol.AlwaysAlertIff` | pipe.c:84-112 | throughout a run no reader is left asleep beside unread bytes iff no writer of the run takes the early return while a reader is down |
| `PipeProtocol.SleepingReaderIsEmpty` | pipe.c:100-112 | without kills a reader asleep with the lock free faces an empty pipe with its write end open |
| `PipeProtocol.KilledWriterStrandsReader` | pipe.c:85-89 | with a kill it need not: a run that ends with both locks free, a reader asleep and 512 bytes in the pipe |
| `PipeCalls.ReadsAllThereIs` | pipe.c:113-121 | in every run a piperead that leaves its copying loop has n bytes or has emptied the pipe, so one of n > 0 that returns nothing has found the pipe empty and its write end closed |
| `PipeCalls.ReadFailsOnly` | pipe.c:106-112 | in every run piperead fails only in a killed process, with the pipe empty and its write end open |
| `PipeCalls.WriteFailsOnly` | pipe.c:84-89 | in every run pipewrite fails only with bytes left to write, the pipe full, and the read end closed or the process killed |
| `PipeCalls.CallRead` | pipe.c:100-121 | undisturbed, piperead returns the oldest bytes in order, n of them or all there are, as the copy loop of PipeBuffer does, leaves the others, wakes exactly the sleeping writers and changes nothing else |
| `PipeCalls.CallReadEmpty` | pipe.c:105-112 | on an empty pipe that can still be written it fails if the process was killed and otherwise sleeps with both locks free, and changes nothing else |
| `PipeCalls.CallWrite` | pipe.c:78-98 | undisturbed and with room for all its bytes, pipewrite puts them behind what is in the pipe, wakes exactly the sleeping readers and succeeds |
| `PipeCalls.CallWriteFails` | pipe.c:84-89 | with less room, the read end closed or the process killed, it fills the pipe and fails, waking nobody |
| `PipeCalls.CallWriteWaits` | pipe.c:84-92 | with less room and otherwise, it fills the pipe, wakes exactly the sleeping readers and sleeps with both locks free |
| `PipeCalls.CallClose` | pipe.c:59-75 | pipeclose marks its end closed, wakes exactly those who wait at the other end, and changes nothing else |
| `PipeKills.StepHeeded` | pipe.c:84-112 | a step leaves a killed process asleep in the pipe, or about to be, exactly when it is a kill that comes after the process looked at proc->killed and before it took ptable.lock to sleep |
| `PipeKills.AlwaysHeededIff` | pipe.c:84-112 | throughout a run no killed process sleeps in the pipe or is about to iff no kill of the run comes in that gap |
| `PipeKills.KilledReaderSleepsOn` | pipe.c:106-111 | a run with such a kill: both locks free, the pipe empty, and the killed reader asleep |
| `ShellSyntax.TokenExact` | sh.c:268-311 | gettoken finds the one token that is there: the end, ">>", a symbol not starting ">>", or a maximal run of word characters, with all white space around it skipped |
| `ShellGrammar.ParserIsGrammar` | sh.c:330-449 | for every text and every command, parsecmd accepts the text with that command iff the grammar derives the text with that meaning: '&' takes the pipeline before it, pipes and lists group to the right, redirections may stand anywhere among at most 9 words, later ones outside earlier ones |
| `ShellGrammar.Unambiguous` | sh.c:330-449 | the grammar gives no sequence of tokens two meanings |
| `ShellGrammar.LineAgree` | sh.c:347-362 | the parser on characters and positions is the parser on tokens |
| `ShellGrammar.LineBuilt` | sh.c:347-449 | whatever the parser takes is in the grammar, with the tree it builds |
| `ShellGrammar.LineTaken` | sh.c:347-449 | whatever is in the grammar, up to the end or a closing parenthesis, the parser takes, building its meaning |
| `ShellRoundTrip.RoundTrip` | sh.c:330-449 | parsing the fully parenthesised print of any command of at most 9 plain words per exec node gives the command back |
| `ShellRoundTrip.LineTrip` | sh.c:347-362 | the same inside any text, up to the end or a closing parenthesis |
| `ShellRoundTrip.WordsTrip` | sh.c:418-449 | words separated by blanks parse to exactly those words in order |
| `ShellWords.LineProper` | sh.c:347-449 | every word of every accepted command is a maximal, nonempty run of word characters, and no exec node has more than 9 |
| `ShellWords.ParsedReprints` | sh.c:330-449 | whatever is accepted can be printed, and parsing the print gives the same command |
| `ShellWords.WordsReadBack` | sh.c:451-496 | with NULs at the ends of all words of an accepted command, every word reads as exactly its own text |
| `Shell.Parser.Peek` | sh.c:313-323 | skips white space and says whether the next character is one of those given |
| `Shell.Parser.Gettoken` | sh.c:268-311 | the loops compute the token function and leave the cursor after it |
| `Shell.Parser.Parseredirs` | sh.c:377-400 | the loop computes the redirection function, panics included |
| `Shell.Parser.Parseexec` | sh.c:418-449 | the cursor parser computes the command function |
| `Shell.Parser.Parseargs` | sh.c:432-448 | the loop fills the exec node, at most 9 words, whatever redirections came between |
| `Shell.Parser.Parseblock` | sh.c:402-416 | the cursor parser computes the block function |
| `Shell.Parser.Parsepipe` | sh.c:364-375 | the cursor parser computes the pipeline function |
| `Shell.Parser.Parseline` | sh.c:347-362 | the cursor parser computes the line function, and terminates |
| `Shell.Nulterminate` | sh.c:451-496 | NULs at the ends of the command's words and nowhere else |
| `Shell.Parsecmd` | sh.c:330-345 | panics exactly when the text is not a command, leaving the buffer alone; otherwise every word of the tree is a C string of its own in the buffer |

## Left out

- Boot, traps, interrupts, device drivers, segment and TSS setup, and the memory order of spin locks: a spin lock is an owner, taken and dropped atomically.
- ide.c: the disk is an atomic block map, as memide.c has it.
- Out-of-memory recovery in vm.c, proc.c and pipe.c: kalloc panics instead of returning 0, so those branches are dead; a panic is a result of the methods, and nothing is promised about the machine after one.
- exec.c, file.c, syscall.c and sysproc.c: file descriptors, argument fetching and the ELF format, which none of the modelled properties depend on.
- Path lookup, and the inode cache as a table of limited size: `SysFile` starts from the inodes that namei and nameiparent return, and every inode has a copy in memory. References taken during a call are not counted; iput is an operation of its own (`SysFile.Put`).
- FileSystem.FileSystem.Readi: the device branch is not modelled; nor are the major and minor numbers of inodes.
- FileSystem.FileSystem.Writei: the device branch is not modelled. That disk and memory agree afterwards is promised for files without holes, because writei calls iupdate only when the size grows; mkfs can leave the root directory with a hole (mkfs.c:158-163).
- Directory.Dirlookup: directories without holes, in which reading allocates nothing. mkfs makes a hole only when the root directory exactly fills its blocks (mkfs.c:158-163).
- Directory.Dirlink: directories without holes, for the same reason; inode numbers below 2^16 only, because a directory entry has 16 bits for them; the inode dirlookup returns to dirlink is not counted as referenced in between.
- Directory.EraseEntry: directories without holes.
- Directory.Isdirempty: directories without holes.
- BufferCache.BufferCache.Bget: devices other than 0 only, because buffers that hold nothing carry device 0 and block 0.
- That an operation makes at most MAXOPBLOCKS calls of log_write is an assumption about system calls, as it is in begin_op.
- The link between fs.c and the log: `FileSystem` updates blocks directly, `RedoLog` shows what a logged update does.
- The on-disk layout of inodes inside their blocks: the inode area is a sequence of inodes.
- Heap.Allocator.Malloc: sizes are unbounded; that 32-bit sizes would not wrap around is stated by Heap.UnitsExact and Heap.SizesExact.
- Vm.Machine.Freerange: pages of the range are not in use for anything else, as at boot.
- Vm.Machine.Allocuvm: sizes up to 2^47, the lower half of the address space, or from KERNBASE on, which the code refuses; the addresses in between are not canonical.
- Vm.Machine.Mappages: ranges below 2^47, for the same reason.
- Vm.Machine.Deallocuvm: sizes up to 2^47, for the same reason.
- Vm.Machine.Copyuvm: sizes below 2^32 only, because the parameter of copyuvm is a 32-bit integer.
- BufferCache.BufferCache.Bread: the wait for a buffer that another process has locked is not modelled here; sleep locks are modelled on their own.
- RedoLog.Log.Commit: runs with no other process inside bio.c, which group commit guarantees for writers but not for readers. A log smaller than LOGSIZE must not have been overrun; commit would write past its end.
- RedoLog.Log.LogWrite: guard and update without another operation in between; `GroupCommit` has the other interleavings.
- RedoLog.Log.Update: nobody else holds the buffer of the block, on which bread would sleep.
- SchedulerSafety.SchedNeverPanics: the panic on the interrupt flag (proc.c:328) is about the processor and not modelled; ncli counts the spin locks of the model, which are ptable.lock and those inside sleep locks.
- ShellGrammar.ParserIsGrammar: texts without NULs, because the shell's line ends at the first.
- SchedulerSafety.RunsKeep: what fork, exit and wait do to memory, files and names is left out, and so is the halt of an idle CPU.
- Scheduler: exit is not taken by init and not while holding a sleep lock, and releasesleep is called by the holder; these are rules for callers. Process identifiers do not wrap around.
- PipeProtocol: pipeclose runs when no call uses its end any more, which file reference counts provide.
- runcmd, printing and the other user programs.
