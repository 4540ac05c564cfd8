# xv6 with copy-on-write fork, in Dafny

A model of the hard parts of the kernel and of a few of its user programs, with proofs.
Where the C code works in place, the model is a class with the same fields, arrays and
loops, proved against a specification. Protocols between processes are step machines, and
their theorems hold of every run, for any number of processes and any interleaving. A
`panic` is a result of the call, not a forbidden input.

`dafny verify dfyconfig.toml` verifies the whole project.

| files | what they model |
|---|---|
| `LogMachine`, `LogReservation`, `BufferCache`, `RedoLog` | the write-ahead log over the buffer cache (log.c, bio.c, memide.c): crash atomicity, space reservation, the MRU ring |
| `Frames`, `Kalloc`, `Paging`, `CowSteps`, `AddressSpace`, `TableNeed`, `Vm`, `PrivateMemory`, `MemoryNeed`, `Processes` | reference-counted pages, page tables, copy-on-write fork (kalloc.c, vm.c, proc.c) |
| `FreeList`, `FreeListCanon`, `Umalloc` | the user heap (umalloc.c) |
| `Bitmap`, `BlockTree`, `FileSteps`, `DiskNeed`, `FileSystem`, `Mkfs` | block allocation, the block tree of an inode, reading and writing (fs.c, file.c), and the image that mkfs.c makes |
| `Directories`, `Paths`, `InodeCache`, `LinkSteps`, `Links` | directories, path names, link counts and the inodes in memory (fs.c, sysfile.c) |
| `FileTable` | open files, descriptors and the ends of pipes (file.c, sysfile.c, pipe.c) |
| `SleepLock`, `Lifecycle`, `Pipe` | sleep, wakeup and kill; fork, exit, wait and the scheduler; pipes (proc.c, sleeplock.c, pipe.c) |
| `Shell`, `ShellLines`, `ShellRoundTrip`, `ShellFacts` | the parser of the shell (sh.c) and the grammar of its lines |
| `Words32`, `Mt19937`, `Grep` | the random number generator (rand.c) and the matcher of grep (grep.c) |
| `Blocks`, `Options`, `Sets` | blocks of bytes and words, options, finite sets |

Some results are about what the code does *not* do:

- With the log size that mkfs writes, the panic in `log_write` is out of reach if every
  operation logs at most nine blocks, and nine is tight: with ten, or with a log one block
  smaller, a run reaches it (`NinePanicsExactly`, `TenPanicsAlways`).
- `end_op` never panics for want of a buffer while nobody holds one, and neither does booting,
  on any disk that a run leaves (`EndOp`, `Boot`).
- The calls of vm.c have their exact price in pages. `fork` of a process that has all of its n
  pages succeeds if and only if 66 pages and one for every 1024 of the n, rounded up, are free,
  and with eager copying n more (`Procs.Fork`, `CopyDecided`).
- `deallocuvm` steps over mapped pages when it starts inside a table that is missing
  (`RemovedExactly`, `DeallocSteppedOver`); processes never get there (`NoneMissed`).
- `sbrk` down to size 0 frees the pages but keeps the size, and that is just what makes a
  later `fork` panic (`StepFull`, `Procs.Fork`).
- `malloc` of more than 2^32 - 8 bytes returns a block that is too small (`UnitsSuffice`),
  and from 2^31 - 15 bytes on `morecore` asks `sbrk` for no memory or for less (`Lost`).
- A killed writer that fills an empty pipe returns without waking a sleeping reader
  (`Pipe.Write`, `KilledWriter`).
- `writei` into a hole does not write the inode back (`WriteBackExactly`), and mkfs makes a
  hole just when the entries of the root fill its blocks (`RootHoleExactly`, `Image.Build`).
- `fileread` starts no operation of the log, so with none outstanding it panics just when a
  block of the range that it reads is a hole (`Fileread`): a read of the whole root that mkfs
  wrote does just when its entries fill its blocks (`RootReadable`).
- A name entered in a directory that was removed, but is still some process's own, is what
  breaks link counts, and nothing else does (`MakeExact`, `AddFileExact`).
- The panic of `ilock` for an inode without a type is reached, and just by paths that climb
  with ".." out of a removed directory whose parent is free (`EndsExactly`, `OrphanReached`,
  `OrphanExample`).

## Model

| member | source | states |
|---|---|---|
| LogMachine.HeadRoundTrip | log.c:95-105 | the header that write_head makes is read back by read_head: the count and the block numbers |
| LogMachine.InstallAt | log.c:67-78 | installing the first k log blocks changes just the home blocks that the header lists, to the log's contents |
| LogMachine.StepInv | log.c:163-184 | every single disk write of a commit keeps what recovery needs: before the header write home blocks are untouched, after it the log covers the changes |
| LogMachine.RunInv | log.c:67-213 | that invariant holds in every state of every run, over any number of power failures, also during recovery |
| LogMachine.InvRecovers | log.c:107-112 | from any such state, recovery gives the first disk with the committed writes applied |
| LogMachine.CrashAtomicity | log.c:107-184 | for every run and a crash after any write, recovered home blocks are the first disk with some operations' writes applied, of each operation all or none |
| LogMachine.DurableGrows | log.c:176-184 | what is committed stays committed through everything that follows |
| LogMachine.NothingLost | log.c:115-213 | of an operation that began after the last crash, every write it issued is durable or still pending |
| LogMachine.QuiescentIsDurable | log.c:133-160 | with no operation active, nothing is pending, and every write that such an operation issued is durable and on its home block |
| LogMachine.DurableForGood | log.c:107-184 | whatever follows, with crashes anywhere, recovery gives the first disk with writes applied among which are just those that the operation issued |
| LogReservation.ReservationHolds | log.c:115-129 | n plus what active operations may still log never exceeds LOGSIZE, and no operation is active during a commit |
| LogReservation.NineNeverPanics | log.c:195-213 | with a log of 30 blocks and at most nine distinct blocks per operation, the panic for a too large transaction is not reached, and n stays at or below 28 |
| LogReservation.NinePanicsExactly | log.c:195-213 | with nine blocks per operation, a run reaches that panic if and only if the log has fewer than 30 blocks |
| LogReservation.TenPanicsAlways | log.c:195-213 | with ten blocks per operation a run reaches it, whatever the log size |
| BufferCache.UnlinkRing | bio.c:112-131 | taking a buffer out of the doubly linked ring leaves a ring of the others, in order |
| BufferCache.InsertRing | bio.c:112-131 | putting it behind the head makes it the first of the ring |
| BufferCache.CurrentData | bio.c:92-100 | a valid unmodified buffer holds the disk overlaid with the dirty buffers |
| BufferCache.TakenCounts | bio.c:59-89 | bget of a block that no referenced or dirty buffer has makes the number of idle buffers one less, and of another block leaves it; what other blocks would take is as before |
| BufferCache.Cache.constructor | bio.c:38-54 | binit makes a ring of all buffers, all bound to block 0 of device 0 and unused |
| BufferCache.Cache.Lookup | bio.c:59-89 | the first loop of bget finds the one buffer of the block if there is one |
| BufferCache.Cache.Victim | bio.c:59-89 | the second loop finds the unused clean buffer released longest ago, if there is one |
| BufferCache.Cache.Bget | bio.c:59-89 | never two buffers for a block, references counted, and no referenced or dirty buffer is rebound |
| BufferCache.Cache.Iderw | memide.c:32-52 | writes a dirty buffer to its block or reads the block, and panics just for a clean valid one, one that is not locked, or a block that is not there |
| BufferCache.Cache.Bread | bio.c:92-100 | returns a held buffer with the disk's contents overlaid with dirty buffers |
| BufferCache.Cache.Bwrite | bio.c:103-108 | writes the buffer's block, and no other block, to disk; panics just for a buffer that is not locked |
| BufferCache.Cache.Brelse | bio.c:112-131 | drops one reference; the last one moves the buffer to the front of the ring; panics just for a buffer that is not locked |
| BufferCache.Cache.Copy | bio.c:92-131 | two blocks are read, one is copied to the other and written, and both are released; panics just when idle buffers for the two are lacking |
| RedoLog.EveryImageSound | log.c:67-184 | every disk image that a run leaves behind recovers to whole operations |
| RedoLog.Log.constructor | log.c:107-112 | booting on a disk left by a power failure continues the run of the log machine |
| RedoLog.Log.WriteLog | log.c:163-174 | the loop that copies cached blocks to the log is a sequence of log-block steps of the machine; panics just when idle buffers are lacking for the blocks of the log |
| RedoLog.Log.InstallTrans | log.c:67-78 | the loop that copies log blocks home is a sequence of install steps of the machine, and two idle buffers are enough for it |
| RedoLog.Log.WriteHead | log.c:95-105 | writes n and the block numbers to the header block and nothing else; panics just when there is no buffer for that block |
| RedoLog.Log.Commit | log.c:176-184 | an empty transaction writes nothing; another one is logged, committed, installed and erased; panics just when idle buffers are lacking for the header or a block of the log |
| RedoLog.Log.BeginOp | log.c:115-129 | starts an operation just when no commit runs and the reservation fits, and otherwise changes nothing |
| RedoLog.Log.LogWrite | log.c:195-213 | pins the block and records it once; panics just when the log is full or no operation is active |
| RedoLog.Log.EndOp | log.c:133-160 | the last active operation commits; then every write issued by it, and by every operation since the last power failure, is durable; it panics just when buffers are lacking then, and never while nobody but the log holds any |
| RedoLog.Log.Recover | log.c:107-112 | recovery completes a committed transaction and empties the log; it does not panic with two idle buffers, or with none held |
| RedoLog.Log.ReadHead | log.c:81-90 | reads back the committed header |
| RedoLog.NobodyHolds | log.c:195-213 | with no buffer held, all but the n pinned ones are idle |
| RedoLog.Boot | log.c:53-64 | after any run, wherever the power failed, binit and initlog come to a running log without a panic |
| RedoLog.CodeIsCrashSafe | log.c:67-213 | each image that this code, with this cache, leaves on disk after any single write recovers to whole operations |
| RedoLog.CodeIsDurable | log.c:67-213 | what end_op has made durable stays so: every later run of this code leaves a disk that recovers to one with those writes |
| Frames.AllocCounted | kalloc.c:91-105 | kalloc keeps every count equal to the number of references, with a new one to a frame nobody had |
| Frames.ShareCounted | kalloc.c:128-135 | so does incrementReferenceCount with a new reference to the same frame |
| Frames.DropCounted | kalloc.c:63-86 | so does kfree with one reference fewer; the last one puts the frame on the free list |
| Frames.UnshareCounted | kalloc.c:118-125 | so does decrementReferenceCount of a shared frame |
| Frames.FreeDetermined | kalloc.c:63-105 | the references alone determine how many pages are free |
| Kalloc.Kmem.constructor | kalloc.c:48-55 | kinit puts every managed frame on the free list once |
| Kalloc.Kmem.Kfree | kalloc.c:63-86 | drops a reference; at the last one fills the page with junk and links it in front; panics just for frames not managed; the free list stays sound if and only if the frame was not on it |
| Kalloc.Kmem.Kalloc | kalloc.c:91-105 | takes the first free frame with count 1, or fails just when there is none |
| Kalloc.Kmem.IncrementReferenceCount | kalloc.c:128-135 | adds one to one count; panics just for a frame that is not managed; the free list stays sound if and only if the frame is not on it |
| Kalloc.Kmem.DecrementReferenceCount | kalloc.c:118-125 | takes one from one count, and 0 wraps; panics just for a frame that is not managed; the free list stays sound if and only if the frame is not on it |
| Paging.SetPteLookup | vm.c:70-88 | storing an entry in the two-level table updates the flat map at that page only |
| Paging.ClearPteLookup | vm.c:263-291 | clearing one removes that page only |
| CowSteps.ShareSound | vm.c:366-402 | mapping a read-only page a second time keeps counts exact and writable pages unshared, and shows the child what the parent sees |
| CowSteps.CopyFaultSound | vm.c:456-519 | copying a shared page on a fault changes nobody's view, keeps counts exact, and makes the page writable |
| CowSteps.StoreSound | vm.c:456-519 | a store through a writable entry is seen by that process at that page, and by nobody else |
| AddressSpace.RemovedExactly | vm.c:263-291 | deallocuvm empties its range if and only if none of the pages it steps over was mapped |
| AddressSpace.NoneSteppedOver | vm.c:263-291 | it steps over no mapped page when it starts on a table boundary or memory is contiguous from 0 |
| AddressSpace.SteppedOver | vm.c:263-291 | from inside a missing table on, the pages at the beginning of the next one are left mapped and seen |
| AddressSpace.UpIs | vm.c:226-291 | PGROUNDUP: the pages below it are just those with a byte below the size |
| AddressSpace.GrownIs | vm.c:226-257 | in bytes, the pages that begin from the old size on and below the new one are new and zero |
| AddressSpace.SharersCounted | kalloc.c:138-148 | the count of a page is above one if and only if another page of some process is in the same frame |
| AddressSpace.SameFree | vm.c:295-312 | when an address space is gone and all other references are as before, all its pages are free again |
| TableNeed.KernTabsAre | vm.c:113-144 | the rows of kmap need 64 page tables, none of them for user pages |
| TableNeed.CopyDecided | vm.c:327-402 | whether a copy succeeds, fails or panics is decided by the pages of the parent and the number of free pages |
| TableNeed.GrowCostOver | vm.c:226-257 | a page or a table that cannot be had on the way means that there were too few for the whole |
| Vm.Vm.Walk | vm.c:45-65 | walkpgdir with alloc maps nothing, makes at most the one missing table, and fails just when there is no free page |
| Vm.Vm.Deallocuvm | vm.c:263-291 | frees and unmaps the pages of its range but for those it steps over; no other page or view changes |
| Vm.Vm.DeallocSteppedOver | vm.c:263-291 | such a call of deallocuvm |
| Vm.Vm.Freevm | vm.c:295-312 | frees all user pages, tables and the directory; every other address space keeps its tables and its view |
| Vm.Vm.MapKernel | vm.c:70-88 | mappages maps just its range, in order, also when the range is not aligned or its end is 2^32; takes pages for just the tables that are missing, and fails only if they are lacking; panics only if a page of it was mapped |
| Vm.Vm.Setupkvm | vm.c:126-144 | maps just the rows of kmap without reaching the panic for a remap; it fails if and only if fewer than 65 pages are free, and then everything is as before |
| Vm.Vm.Inituvm | vm.c:185-195 | the page of code is seen at address 0; fails if and only if a page, or one for the table, is lacking |
| Vm.Vm.Allocuvm | vm.c:226-257 | grows by zero pages, in bytes from the old size to the new; fails, with every page and view as before, if and only if the size is too large or fewer pages are free than the new pages and the missing tables |
| Vm.Vm.Copyuvm | vm.c:366-402 | the child sees what the parent sees, nobody else's view changes; panics just for the first missing page if memory lasts until there; fails just when it does not: 65 pages and one for every 1024 copied; then everything is as before |
| Vm.Vm.CopyuvmOriginal | vm.c:327-362 | the same with frames of its own for the child, which takes just that many more pages |
| Vm.Vm.Pagefault | vm.c:456-519 | changes no view; makes the page writable, and takes a page if and only if it is shared; kills if and only if the page is not accessible or it is shared and no page is free; the panic for count 0 is not reached |
| Vm.Vm.UserWrite | vm.c:456-519 | a user store, through a fault if need be, changes that byte of that process and no other byte of any; when it is killed, exactly |
| PrivateMemory.StepFull | proc.c:202-217 | a call leaves every process with all pages that have a byte below its size if and only if it does not shrink one to size 0 |
| PrivateMemory.RunFull | proc.c:202-217 | so after runs without such a call every byte below the size is there, and no page begins at or above it |
| Processes.NoneMissed | vm.c:263-291 | a process has the tables below its size, so deallocuvm steps over none of its pages |
| Processes.Procs.Userinit | proc.c:150-195 | the first process sees its one page of code; it fails if and only if fewer than 68 pages are free |
| Processes.Procs.Fork | proc.c:269-314 | with shared or with copied pages, the child's private memory is the parent's; succeeds if and only if no page below the size is missing and the pages for the copy and a stack are free; a failed fork restores the free count; it panics only if a page is missing |
| Processes.Procs.Growproc | proc.c:202-217 | private memory grows by zero pages or loses its end, and every byte below the new size is there if every one was; fails if and only if it is too large, too few pages are free, or the size would be 0 |
| Processes.Procs.Store | vm.c:456-519 | private memory changes at one byte of one process; the process is killed instead just when the page is not accessible, or is shared and no page is free |
| Processes.Procs.Reap | proc.c:420-458 | freeing a dead process changes no other process |
| Processes.Procs.Execute | vm.c:366-402 | for every run, each process sees what it would if nothing were shared; a panic needs an earlier shrink to size 0 |
| Processes.Procs.ForkRunReap | vm.c:295-312 | fork, any calls of the child, and reaping restore the parent's memory and the number of free pages |
| MemoryNeed.RefsFit | vm.c:126-144 | what the processes refer to is never more than their pages, a stack, a directory and the tables for each |
| MemoryNeed.FreeAtLeast | kalloc.c:63-105 | every managed frame that nobody refers to is free |
| Processes.Procs.Do | proc.c:202-314 | with that much memory, and the call's own demand, the call comes to what the private memory alone says |
| Processes.RunBoth | vm.c:327-402 | copy-on-write and eager copying show every process the same bytes after every run with the same outcomes; the outcomes are the same if memory suffices for what the processes can need |
| FreeList.MergeSane | umalloc.c:24-42 | joining two free blocks that touch keeps the list circular and ordered and the blocks tiling the arena |
| FreeList.CarveSane | umalloc.c:59-84 | so does cutting the tail off a free block |
| FreeListCanon.Canonical | umalloc.c:24-84 | the arena and the blocks in use determine the free list: there is one way only to have it ordered and without neighbours that touch |
| Umalloc.UnitsSuffice | umalloc.c:59-84 | a block holds the bytes asked for if and only if the request is at most 2^32 - 8; when the request makes morecore ask for no memory |
| Umalloc.Heap.Search | umalloc.c:24-42 | the search loop ends at the free block that the freed one comes behind, also across the wrap of the list |
| Umalloc.Heap.Free | umalloc.c:24-42 | the block goes back into the ordered list, joined with neighbours that touch; used blocks keep their sizes |
| Umalloc.Heap.Morecore | umalloc.c:44-57 | adds the new memory as a free block that the next lap meets, or says why not |
| Umalloc.Heap.Malloc | umalloc.c:59-84 | takes a block of the right size out of the free memory, asking morecore at most once and just when no free block is large enough |
| Umalloc.Heap.MallocFree | umalloc.c:24-84 | free undoes malloc: the same blocks in use and all other memory free, with what sbrk gave; without that, the same free blocks of the same sizes |
| Bitmap.FlipUsedBit | fs.c:52-88 | setting or clearing a block's bit in the free map changes that bit only |
| BlockTree.AllocOwned | fs.c:52-72 | balloc's block was referred to by nobody, and taking it changes no file |
| BlockTree.SetEntryOwned | fs.c:347-373 | entering a new block in an indirect block keeps every block with one owner, and no byte of any file changes |
| BlockTree.TruncOwned | fs.c:380-406 | clearing a file's slots and bits keeps the free map exact and other files whole |
| Mkfs.Image.Iappend | mkfs.c:237-277 | appends the bytes to the file and to no other; the image stays consistent, up to the map, and without new holes or blocks behind the end; fails if and only if the file is too long or fewer blocks are left than it takes |
| Mkfs.NeedMade | mkfs.c:237-277 | which is as many as the longer file has more, with its indirect block |
| Mkfs.TotalIs | mkfs.c:63-162 | what all appends take is the blocks of all files |
| Mkfs.Image.Balloc | mkfs.c:221-233 | the map of the blocks that were handed out makes the image consistent, or they do not fit into one map block |
| Mkfs.Image.FixRoot | mkfs.c:152-157 | only the size of the root changes, up to the end of a block, and the image stays consistent, up to the map |
| Mkfs.Image.Build | mkfs.c:63-162 | any appends to the root and the files, then the new size of the root, then the map: a consistent image in which every file has just what was appended to it and the root its entries and zeros, with a hole in the root if and only if the entries fill its blocks; it fails if and only if a file is too long or the blocks of all do not fit into the image and its map |
| Mkfs.RootReadable | mkfs.c:152-159 | every block of that root is there if and only if its entries do not fill its blocks, which is when fileread of the whole root does not panic |
| Mkfs.RootHoleExactly | mkfs.c:152-157 | rounding up the size of the root leaves a hole if and only if its entries filled its blocks |
| Mkfs.NewEntryLost | mkfs.c:152-157 | for example: writing the next entry of such a root leaves its inode block without the new block |
| DiskNeed.AllocSpare | fs.c:52-72 | balloc makes the number of free blocks one less |
| DiskNeed.DemandNext | fs.c:347-373 | the free blocks that a range of a file takes are those that bmap of its first block takes and those that the rest takes then |
| DiskNeed.NeedsNone | fs.c:421-443 | a range takes no free block if and only if none of its blocks is a hole |
| DiskNeed.ReachStep | file.c:105-142 | of the chunks of a long write just those go through that end within the largest file |
| FileSystem.FileSystem.Balloc | fs.c:52-72 | takes the first free block and zeroes it; panics just when all are used |
| FileSystem.FileSystem.Bfree | fs.c:75-88 | clears the bit; panics just when it is clear |
| FileSystem.FileSystem.Bmap | fs.c:347-373 | finds or makes the block; no byte of any file changes, and one that was there is returned with nothing changed; takes as many free blocks as it lacks, and panics just when there are fewer or the block number is too large |
| FileSystem.FileSystem.Itrunc | fs.c:380-406 | frees just the blocks of the file, without reaching bfree's panic; no other file changes |
| FileSystem.FileSystem.Readi | fs.c:421-443 | returns the bytes of the file; logs nothing if and only if no block of the range is a hole, and then changes nothing; panics just when there are fewer free blocks than the range takes, or the range goes beyond MAXFILE blocks |
| FileSystem.FileSystem.Fileread | file.c:86-99 | the same with the new offset; with no operation of the log outstanding it panics if and only if a block of the range is a hole |
| FileSystem.FileSystem.Writei | fs.c:448-476 | splices the bytes into the file, grows it if need be, and changes no byte of any other file; panics just when there are fewer free blocks than the range takes |
| FileSteps.WriteBackExactly | fs.c:448-476 | after a write the inode agrees with its inode block if and only if the file grew or had the addresses for the range |
| FileSteps.BackAgain | fs.c:448-476 | without holes it always does |
| FileSteps.HoleNotWrittenBack | fs.c:448-476 | with a hole it does not: any write into one inside the size is done, and the inode block does not know of its block |
| FileSteps.ChunkLogs | file.c:105-142 | a chunk of filewrite logs at most 10 blocks, and at most 7 with a free map of one block |
| FileSystem.FileSystem.Filewrite | file.c:105-142 | chunk by chunk the bytes are spliced in, up to the first chunk beyond the largest file; when one fails, those before it stay; panics if and only if the chunks that go through take more than the free blocks; each logs few enough blocks; an offset behind the end fails and changes nothing |
| Directories.AddFileExact | sysfile.c:105-150 | a new name for a file keeps every nlink equal to the number of entries that name the inode, other than ".", if and only if the directory of the name is not a removed one |
| Directories.AddDirLinked | sysfile.c:222-263 | a new directory, with its "." and "..", keeps all counts exact, names unique, and every directory in the one parent that its ".." names |
| Directories.AddDirBreaks | sysfile.c:222-263 | in a removed directory it does not: the removed one comes back to life, and its own ".." is not counted |
| Directories.RemFileLinked | sysfile.c:167-220 | taking a file's name away keeps all that |
| Directories.RemDirLinked | sysfile.c:167-220 | so does taking an empty directory's name away, which was its only one |
| Directories.BareOnce | sysfile.c:153-164 | a directory that isdirempty finds empty is named by the one entry in its parent and by nothing else |
| Directories.SetDeadLinked | fs.c:185-203 | an inode without links can be allocated or freed without touching any count |
| Paths.Skipelem | fs.c:554-576 | the loops of skipelem give the next name, cut to DIRSIZ bytes, and the rest, and fail just when no name is left |
| Paths.JoinElems | fs.c:554-576 | a path made of names with slashes is taken apart into the same names |
| Paths.Strncmp | fs.c:481-483 | two names are the same to namecmp if and only if strncpy leaves the same field of both |
| Links.Inodes.Dirlookup | fs.c:487-509 | finds the first entry in use whose name is the same to namecmp |
| Paths.ParentThenName | fs.c:581-621 | the parent that nameiparent finds, and then the last name, lead where namei leads |
| LinkSteps.FromRoot | fs.c:581-613 | a path that begins with a slash leads from the root, whatever the directory of the process |
| LinkSteps.FromHere | fs.c:581-613 | another one leads from that directory |
| InodeCache.InUse | fs.c:310-329 | between calls an inode is not free if and only if an entry names it or somebody holds it: never freed too early, and never lost |
| InodeCache.AllTaken | fs.c:228-257 | when all slots are in use, all but as many as the call itself refers to are inodes that are held |
| LinkSteps.LeadsTo | fs.c:487-509 | an entry leads to a free inode if and only if it is the ".." of a removed directory whose parent is free |
| LinkSteps.OrphanExactly | fs.c:310-329 | a removed directory's parent is free if and only if nobody names or holds it |
| LinkSteps.ReadsExactly | fs.c:581-613 | namex has to read a free inode if and only if some name of the path, not the last, is ".." and the names before it lead to such a directory |
| LinkSteps.EndsExactly | fs.c:270-291 | namei and ilock do if and only if any name of it is |
| LinkSteps.OrphanReached | sysfile.c:167-366 | making two directories, one in the other, and unlinking both from inside leads there: chdir to ".." then meets a free inode |
| LinkSteps.OrphanExample | sysfile.c:167-366 | there is such a state: counts exact, holders tracked, and chdir to ".." meets a free inode |
| LinkSteps.LinkLeads | fs.c:512-537 | after dirlink the new name leads to the inode, and every other name where it led |
| LinkSteps.UnlinkLeads | sysfile.c:167-220 | after sys_unlink the name leads nowhere, and every other name where it led |
| LinkSteps.LinkUnlink | sysfile.c:105-220 | unlink undoes link: the same counts and the same entries in use |
| LinkSteps.NameOnce | fs.c:512-537 | two entries in use of a directory never have the same name field |
| LinkSteps.MakeExact | sysfile.c:222-263 | create keeps the counts exact if and only if the directory is not a removed one |
| LinkSteps.MadeInRemoved | sysfile.c:222-263 | otherwise it does not: an example |
| LinkSteps.BlankLinked | mkfs.c:111-122 | the root directory that mkfs writes has exact counts |
| Links.Inodes.Iget | fs.c:228-257 | one slot for each inode that is held, with the number of its holders; panics just when the inode has none and all are in use |
| Links.Inodes.Iput | fs.c:310-329 | frees an inode and its blocks just at the last reference to one that was read and has no links |
| Links.Inodes.Namex | fs.c:581-613 | follows the names of the path, from the root or from the directory of the process, and ends with one reference, to the result; nothing is freed on the way; unless slots run out, it panics for an inode without a type if and only if the path makes it read a free one |
| Links.Inodes.Dirlink | fs.c:512-537 | enters the name at the first place not in use, or fails just when it is there; panics for a directory of full size just when that place is behind it |
| Links.Inodes.SysLink | sysfile.c:105-150 | which file and which entry, when it fails, and that it then undoes its count; when it panics for a directory of full size; for want of a slot only if all but two are held |
| Links.Inodes.Isdirempty | sysfile.c:153-164 | says whether there is an entry besides the first two |
| Links.Inodes.SysUnlink | sysfile.c:167-220 | which entry, when it fails; the inode goes with its last name if nobody holds it; the panic for nlink < 1 is not reached, that for want of a slot only if all but one are held |
| Links.Inodes.Ialloc | fs.c:185-203 | the first free inode, with one link; panics for want of an inode just when none is free |
| Links.Inodes.Create | sysfile.c:222-263 | the file that is there, or the first free inode under the new name; when it panics for want of an inode or for a directory of full size; the panics for entries that are there are not reached |
| Links.Inodes.SysOpen | sysfile.c:265-311 | which inode it opens, when it fails or panics, and what the process holds afterwards, also when there is no descriptor left |
| Links.Inodes.SysChdir | sysfile.c:345-366 | when it fails; gives up the old directory for the new one; a removed one goes when its last process leaves it; the panic of ilock, exactly |
| Links.Inodes.Close | file.c:50-72 | the last holder of an inode without names frees it |
| Links.Call | sysfile.c:105-366 | every call that returns fails just when the lookup of its names says so, and else has the effect on inodes and holders that the lookup tells; every panic has its cause, and each cause but the want of a slot makes it panic |
| Links.Session | sysfile.c:105-366 | over any calls, each by a process whose directory is held and each with its effect on the inodes before it, link counts stay exact and inodes are free just when they have neither name nor holder, unless a name is entered in a removed directory or the kernel panics; it does so at the first call that has to read a free inode, has none left to make, or has no room in a directory, and otherwise only if all slots but two are held; three of the panics are not reached |
| FileTable.ClosePiped | pipe.c:57-71 | the last reference to an end of a pipe closes that end, which was open until then |
| FileTable.EndsOpen | pipe.c:57-71 | an end of a pipe is open if and only if some process has a descriptor for it |
| FileTable.Files.Filealloc | file.c:24-37 | the first file not in use, with count 1, or none just when all are in use |
| FileTable.Files.Fdalloc | sysfile.c:39-50 | the lowest free descriptor, or none just when all are in use |
| FileTable.Files.Fileclose | file.c:50-72 | drops one reference; the last closes the file and its end of a pipe; the panic is not reached |
| FileTable.Files.SysDup | sysfile.c:52-62 | the lowest free descriptor for the same file, or nothing changes, just when there is none or the file is not open |
| FileTable.Files.SysClose | sysfile.c:84-93 | frees the descriptor and drops its reference |
| FileTable.Files.ForkFiles | proc.c:295-298 | the child has the parent's descriptors, for the same files |
| FileTable.Files.CloseAll | proc.c:385-391 | exit closes every descriptor of the process and no other |
| FileTable.Files.SysOpen | sysfile.c:265-311 | a new file for the inode at the lowest free descriptor, or everything as before, just when there is no free file or descriptor |
| FileTable.Files.SysPipe | sysfile.c:392-412 | a reading and a writing descriptor, the two lowest free ones, for a new pipe; or files, descriptors and pipes as before, just when two files, two descriptors or the page are lacking |
| FileTable.Session | file.c:24-72 | over any calls every count is the number of descriptors; each end of a pipe is closed once and its page freed once; with no descriptor left, no file and no pipe is |
| SleepLock.MutualExclusion | sleeplock.c:20-36 | in every state of every run at most one process holds the lock |
| SleepLock.NoLostWakeup | proc.c:691-746 | a process sleeps on the lock only while it is held or a release that will still wake it is under way, whatever kill does |
| SleepLock.HoldingAnswers | sleeplock.c:38-45 | holdingsleep answers yes if and only if the caller has the lock |
| SleepLock.AcquireHolds | sleeplock.c:20-28 | after acquiresleep, until the next call, a process is still in it or has the lock, whoever woke it |
| SleepLock.NoDeadlock | sleeplock.c:20-45 | while a process is inside a call, some process can go on or one is holding the lock |
| Lifecycle.NoSleepOverZombie | proc.c:420-458 | no parent sleeps in wait while it has a zombie child |
| Lifecycle.ZombieHasParent | proc.c:377-416 | every zombie has a live parent to reap it: the process that forked it, or init |
| Lifecycle.ReapedOnce | proc.c:420-458 | a process that has exited is a zombie or was reaped, and not both; pids in use are distinct |
| Lifecycle.ReapSafe | proc.c:420-458 | when wait frees a kernel stack its process has switched away from it, its pid was not returned before, and it is returned to init or to the process that forked it |
| Lifecycle.WaitReturns | proc.c:420-458 | wait that finds no zombie returns if and only if the process has no child or was killed, and sleeps if not |
| Lifecycle.SleepsForKid | proc.c:751-771 | who sleeps in wait has a child and was not killed; kill makes it runnable, and changes nothing else |
| Pipe.CountersTell | pipe.c:74-113 | the two counters tell an empty and a full pipe although they wrap at 2^32 |
| Pipe.Pipe.Write | pipe.c:74-92 | appends to the stream until done or full; nobody sleeps in vain afterwards, except after a killed writer that overfills an empty pipe |
| Pipe.Pipe.Read | pipe.c:94-113 | returns the next bytes of the stream; sleeps just when there are none and a writer is left |
| Pipe.Pipe.Close | pipe.c:57-71 | closes one end, wakes the other, and frees the page when both are closed |
| Pipe.Pipe.TakeTurn | pipe.c:57-113 | the ring with its wrapping counters does what a queue of at most 512 bytes does: the same bytes, the same end of the turn, the same sleepers |
| Pipe.Conserved | pipe.c:74-113 | on the queue, what was written is what was read and then what is in it |
| Pipe.Session | pipe.c:57-113 | for any calls in any order, each has the outcome that it has on the queue; the bytes read are a prefix of the bytes written, with at most 512 in between |
| Pipe.KilledWriter | pipe.c:74-92 | a killed writer leaves a reader asleep on a full pipe: an example |
| Shell.ScanToken | sh.c:245-286 | the loops of gettoken find the token, its span and the next position |
| Shell.ScanPeek | sh.c:288-296 | the loop of peek skips white space and tells whether one of the characters is next |
| ShellFacts.LineWords | sh.c:318-331 | every token of a parsed line is a whole word of it |
| ShellFacts.Nulterminate | sh.c:413-455 | writes a NUL behind every token and nothing else |
| ShellFacts.TokenSafe | sh.c:413-455 | no terminator lands inside another token |
| ShellFacts.Parsecmd | sh.c:303-316 | accepts just the lines of the grammar, and gives the tree of the line; each argument and file name is then a C string of its own, equal to its token |
| ShellRoundTrip.ParsePrint | sh.c:303-410 | parsing the parenthesised printing of a legal command tree gives the tree back |
| ShellLines.LineParses | sh.c:303-410 | a line of the grammar, with redirections before, between and behind the arguments, pipes, lists and background commands, is parsed to its tree: redirections in order, pipes and lists to the right |
| ShellLines.AcceptsExactly | sh.c:303-410 | parsecmd accepts just the lines of the grammar |
| ShellLines.LexShow | sh.c:245-286 | a line written out, with white space anywhere between its tokens, is taken apart into the same tokens |
| ShellLines.ParseShow | sh.c:303-410 | so parsing any written form of a line gives its tree back |
| Mt19937.Mt.Sgenrand | rand.c:53-61 | the first 624 words come from the seed by multiplication |
| Mt19937.Mt.Regenerate | rand.c:64-98 | in place, the array moves on by 624 words of the recurrence |
| Mt19937.Mt.Genrand | rand.c:64-98 | over any number of calls the outputs are the tempered words of the recurrence, in order |
| Mt19937.SequenceUnique | rand.c:53-98 | the sequence is determined by the seed |
| Words32.TemperOneToOne | rand.c:90-93 | tempering takes the words to the words one to one |
| Words32.TwistBack | rand.c:74-86 | a step of the recurrence determines what went into it |
| Mt19937.Backward | rand.c:64-98 | no two states of the generator come to be the same: 624 words in a row determine all before them but the first |
| Mt19937.Uniform | rand.c:102-119 | each result up to max has just bin_size raw values, and none is larger |
| Mt19937.Mt.RandomAtMost | rand.c:102-119 | the first output that is not rejected decides, and the result is at most max |
| Grep.PatternMeans | grep.c:79-98 | the matcher succeeds if and only if the text can be cut into pieces that the items of the pattern stand for |
| Grep.CharByChar | grep.c:79-89 | without * and $ a pattern matches character by character, where . stands for any |
| Grep.SearchStar | grep.c:92-98 | the loop of matchstar agrees with the recursive definition |
| Grep.Search | grep.c:68-76 | match finds a pattern if and only if it occurs: at the beginning after ^, and anywhere otherwise |

## Left out

- The MFQ and LOTTERY schedulers and their statistics: their queues are not what the code keeps.
- Hardware, assembly, interrupt controllers, the console and the disk driver with port I/O.
- exec and the parsing of ELF files; copyout, which writes through the kernel's mapping.
- Spin locks and the switch between processes are single steps; kernel code outside SleepLock and Lifecycle is taken one call at a time.
- Links.Inodes.SysLink: nlink does not wrap at 16 bits; a disk of FSSIZE blocks has no room for so many entries.
- Links.Inodes.Dirlink: entries are records, and a full disk is left to FileSystem.Balloc.
- A power failure between unlink and the last close, after which nobody frees the inode.
- The bytes of an inode inside its inode block: FileSystem keeps inodes as records.
- FileSystem reads and writes blocks as the buffer cache shows them; that the cache shows the disk overlaid with logged blocks is what BufferCache and RedoLog prove.
- Mt19937.Mt.RandomAtMost: gives up after a number of draws, because that rejection ends at all depends on the generator.
- Kalloc.Kmem.Kfree: the count of a page is not bounded above by the width of the C array's elements.
- FileSystem.FileSystem.Readi: device files, whose contents come from a driver.
- FileSystem.FileSystem.Writei: device files, likewise.
- FileSystem.FileSystem.Fileread: device files and pipes, a file that is not open for reading, and, while another process has an operation outstanding, the log's own limit, which RedoLog.Log.LogWrite has.
- The buffering of lines in grep.
- BufferCache.Cache.Bget: a buffer that another process has locked, for which the call waits; calls are taken one at a time.
- BufferCache.Cache.Bread: the same.
- BufferCache.Cache.Bwrite: a locked buffer that was never read; every caller has it from bread.
- BufferCache.Cache.Brelse: a buffer that was changed but neither written nor logged, whose change the next lookup may lose.
- RedoLog.Log.WriteLog: a buffer of the log that another process has locked, for which it waits.
- RedoLog.Log.InstallTrans: the same.
- RedoLog.Log.WriteHead: the same.
- RedoLog.Log.Commit: the same.
- RedoLog.Log.EndOp: the same.
- Vm.Vm.MapKernel: a physical address inside a page, and a range that wraps or lies below the kernel; the table kmap has none.
- Vm.Vm.Inituvm: without memory the code goes on with a page or an entry that it does not have; the model stops there.
- Mkfs.Image.Iappend: the code hands out block numbers behind the end of the image; the model stops there.
- Mkfs.Image.Build: the same.
- Vm.Vm.Allocuvm: pages that are mapped above the old size, where mappages panics; Vm.Vm.MapKernel has that panic.
- Links.Inodes.SysOpen: whether a file and a descriptor are left is an input; FileTable says when they are.
- Running a parsed command, and printf and the other user programs.
