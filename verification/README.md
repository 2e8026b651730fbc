# A verified model of an xv6 kernel with copy-on-write memory

This project models the hard parts of an xv6-riscv kernel extended with copy-on-write fork, lazily
filled memory areas, reference-counted pages and a lottery scheduler, together with two user-level
programs that ship with it: the allocator `malloc`/`free` and the shell's parser. `dafny verify
dfyconfig.toml` checks all of it.

Code that updates state in place is a class whose methods have the loops of the C functions. Each
method is proved against functions on plain values, and the theorems are proved about those. Code
that is run by several processes, or by a driver and a device, is a transition system whose steps
run from one lock operation to the next; the theorems hold in every state of every run.

| part | files |
|---|---|
| redo log, crash recovery, log space | RedoLog, LogReservation, LogCode |
| buffer cache | BioModel, BioLaws, BioCode |
| blocks and files, their disk image, crashes | FsModel, FsSpace, FsCode, FsImage, FsCrash |
| directories and link counts | DirModel, DirLaws, DirCode |
| memory areas, page counts, copy-on-write | VmaTable, CowModel, UvmSpec, UvmLaws, UvmBytes, UvmCode |
| Sv39 page tables | Sv39, Sv39Code |
| sleep, wakeup, fork, exit, wait, kill; the lottery | SleepWakeup, SleepLaws, SleepProgress, Lottery |
| virtio disk driver | VirtioModel, VirtioCode |
| malloc and free | FreeList, Malloc |
| shell parser | ShellModel, ShellGrammar, ShellRoundTrip, ShellCode |
| values that may be missing; facts about sequences | Options, Seqs |

What the proofs say about the code, beyond what its comments promise:

- `log_write()` can refuse a new block to an operation that keeps to its budget exactly when the
  on-disk log is no longer than the blocks that can be reserved. mkfs makes it as long as LOGSIZE, so
  the shipped image is one block short (`NewBlockPanicExactly`, `ShippedLogIsOneShort`).
- `log_write()` also tests for a full log before it looks whether the block is already in it. With the
  shipped LOGSIZE a write of a logged block can therefore panic however long the on-disk log is
  (`WritePanicExactly`, `ShippedLogRefusesLoggedBlocks`).
- `uvm_map()` accepts areas whose end wraps around. One whose rounded-up end alone wraps covers no page
  while it contains bytes, so it is accepted beside any other: two areas contain the same bytes exactly
  when their bytes meet and one of them is of this kind (`AcceptsApartExactly`, `TwoAreasShareByte`).
  One whose sum of start and length wraps contains no byte and covers at most the page of its start
  (`WrappedCovers`).
- `uvm_unmap()` at the start of an area takes any length. It leaves the pages of the other areas alone
  exactly when the range it unmaps meets none of them; otherwise they go back to zeros
  (`CutLeavesOthersExactly`, `CutZeroesNeighbour`). What is left of the area contains no byte exactly
  when the length is beyond it without wrapping, and the area grows downwards exactly when start and
  length wrap (`CutRemainderExactly`, `CutEnlarges`).
- The heap keeps a page over every run in which no unmap starts in it (`HeapStays`). One that does
  leaves a heap exactly when a page remains, or start and length wrap (`CutKeepsHeapExactly`); after
  another one, sbrk() of a negative number can pass its test and panic (`CutBreaksHeap`).
- `copyin()` reads a page that is in memory whatever its area allows, so the areas alone do not decide
  what it returns (`GetOfWriteOnly`); where they allow reading they do (`Determined`).
- `create()` and `link()` keep link counts exact if and only if the directory in which they make an
  entry is still linked itself; they do not check it (`CreateExactly`, `LinkEndExactly`,
  `CreateInOrphan`).
- `morecore()` passes a byte count to `sbrk()`, which takes an int, and enters the block in the list
  whatever the break did: the allocator owns exactly what it got if and only if the count is below
  2^31 (`GrowthIsExact`). A request of 2^32 - 1 bytes grows the heap by 16 bytes, and one of 0xffffefe0
  bytes shrinks it (`WrappedRequests`).
- The bound of ten logged blocks for a chunk of `filewrite()` needs files without holes: the first
  block of an unaligned write is then already there, so at most three of four are new. The count of
  blocks comes to ten (`TenBlocks`).

## Model

| member | source | states |
|---|---|---|
| RedoLog.CrashAtomicity | kernel/log.c:68-123 | over every run of commits and recoveries, each cut after any number of block writes, a boot finds exactly the transactions whose header reached the disk, whole and in order; while the machine is up the home blocks hold that state |
| RedoLog.CommitCut | kernel/log.c:179-203 | a commit cut after k block writes leaves all old contents up to the header write and all new contents from it on; a full commit empties the log |
| RedoLog.RecoveryCut | kernel/log.c:117-123 | recovery cut anywhere, and so repeated any number of times, keeps what the disk means; a full recovery empties the log |
| RedoLog.FormattedDisk | mkfs/mkfs.c:110-111 | a disk of zeros is valid, has an empty log and means its home blocks |
| RedoLog.RecoveryDone | kernel/log.c:117-123 | after recovery the home blocks hold what the log promised |
| RedoLog.StepRefines | kernel/log.c:68-203 | one commit, recovery or power loss changes the meaning of the disk exactly as the specification says |
| RedoLog.InstallKeepsDurable | kernel/log.c:69-84 | installing any prefix of a logged transaction does not change what the disk means |
| RedoLog.HeaderRoundTrip | kernel/log.c:87-113 | the block numbers written by write_head() are those read_head() finds |
| RedoLog.LogPhaseKeeps | kernel/log.c:179-192 | write_log() cut anywhere changes neither the header nor a home block |
| LogReservation.ReservationHolds | kernel/log.c:127-175 | over every run of operations of any number of processes, logged blocks plus the unused budgets stay within LOGSIZE, logged blocks are distinct and fit the on-disk log, and nothing is added during a commit |
| LogReservation.StepKeepsInv | kernel/log.c:127-235 | each of begin_op(), log_write(), end_op() and commit() keeps the reservation |
| LogReservation.NewBlockPanicExactly | kernel/log.c:215-235 | for all sizes: some run leads to an operation within its budget that is refused a new block if and only if the on-disk log has no more blocks than can be reserved while an operation runs |
| LogReservation.WritePanicExactly | kernel/log.c:215-235 | for all sizes: some run leads to a write, of a new or a logged block, that meets the "too big a transaction" panic if and only if the reservation lets the log fill up or the on-disk log is too short |
| LogReservation.LongLogTakesNewBlocks | kernel/log.c:220-221 | with an on-disk log longer than LOGSIZE no new block within budget is refused |
| LogReservation.RunsOneAtATime | kernel/log.c:127-175 | where two operations do not fit in the log, one runs at a time and the log holds no more blocks than it added |
| LogReservation.FillsUp | kernel/log.c:127-235 | some run fills the log to any number of blocks up to what can be reserved |
| LogReservation.ShippedLogIsOneShort | mkfs/mkfs.c:25 | with the shipped sizes a new block can be refused, and one more log block rules that out |
| LogReservation.ShippedLogRefusesLoggedBlocks | kernel/log.c:220-228 | with the shipped sizes and any on-disk log of 31 blocks or more, a run that logs 30 blocks, after which a write of one of them panics |
| LogCode.CommitKeepsVisible | kernel/log.c:194-203 | a commit puts on disk what readers of the cache saw, and readers see no change |
| LogCode.Log.constructor | kernel/log.c:54-66 | a boot issues exactly the recovery writes, and readers then see what the disk meant |
| LogCode.Log.WriteLog | kernel/log.c:179-192 | issues exactly the log writes, in order |
| LogCode.Log.WriteHead | kernel/log.c:103-114 | writes the header of the current block numbers |
| LogCode.Log.ReadHead | kernel/log.c:87-97 | reads back the logged block numbers |
| LogCode.Log.InstallTrans | kernel/log.c:69-84 | copies every slot to its home, in order, and drops every pin |
| LogCode.Log.RecoverFromLog | kernel/log.c:117-123 | issues exactly the recovery writes |
| LogCode.Log.Commit | kernel/log.c:194-203 | issues exactly the commit writes, leaves an empty log, and what readers see is unchanged |
| LogCode.Log.BeginOp | kernel/log.c:127-142 | enters exactly when no commit runs and its budget fits, and reserves it |
| LogCode.Log.LogWrite | kernel/log.c:215-235 | absorbs a block already logged or appends and pins it once; readers see the new contents; the panic exactly when the log is full |
| LogCode.Log.EndOp | kernel/log.c:147-175 | gives back the budget, and commits exactly when it was the last operation |
| BioModel.CacheAgrees | kernel/bio.c:59-134 | in every run, a valid buffer that is neither held nor pinned equals its disk block |
| BioModel.OneCopy | kernel/bio.c:59-90 | in every run, no block of a device is in two buffers |
| BioModel.KeepsItsBlock | kernel/bio.c:77-87 | a buffer that a process has or the log pinned is never recycled for another block |
| BioModel.RecycledIsIdle | kernel/bio.c:77-87 | what bget() recycles has no holder, no pin and no reference, and the block was not cached |
| BioModel.RunKeeps | kernel/bio.c:37-151 | reference counts, uniqueness, list order and agreement hold in every reachable state |
| BioModel.UnlinkKeeps | kernel/bio.c:128-129 | the two stores of brelse() take a buffer out of the doubly linked list |
| BioModel.PushKeeps | kernel/bio.c:130-133 | the four stores put a buffer at the most recently used end |
| BioLaws.BreadReturnsLast | kernel/bio.c:93-104 | in every run, what bread() returns is the data last changed or written for that block, or what the disk had at the start if there was none |
| BioLaws.DiskHasLast | kernel/bio.c:107-138 | the disk itself has that data, except for blocks whose valid buffer is held or pinned |
| BioLaws.StepHolds | kernel/bio.c:59-151 | each step keeps the data of every block, but for a change or write of that block, whose data replaces it |
| BioLaws.RecyclesOldest | kernel/bio.c:77-87 | the buffer that bget() recycles was let go of no later than any other unreferenced buffer |
| BioLaws.RunNewest | kernel/bio.c:117-138 | in every run the list is in order of the last release, newest first |
| BioCode.BufferCache.constructor | kernel/bio.c:37-53 | binit() links every buffer once |
| BioCode.BufferCache.FindCached | kernel/bio.c:65-73 | the forward search finds the block's place in the list, or its end |
| BioCode.BufferCache.FindIdle | kernel/bio.c:77-87 | the backward search finds the least recently used buffer without references |
| BioCode.BufferCache.Bget | kernel/bio.c:59-90 | returns the cached buffer or the recycled one with one more reference; its panic exactly when every buffer is in use |
| BioCode.BufferCache.Load | kernel/bio.c:93-104 | bread() fills a buffer that is not valid with the disk block of its device and number, and leaves a valid one, the disk and the block it stands for alone |
| BioCode.BufferCache.Bwrite | kernel/bio.c:107-112 | after it the disk block equals the buffer, and no other block changes |
| BioCode.BufferCache.Brelse | kernel/bio.c:117-138 | drops one reference; the last one makes the buffer the most recently used |
| BioCode.BufferCache.Bpin | kernel/bio.c:140-145 | adds the log's reference |
| BioCode.BufferCache.Bunpin | kernel/bio.c:147-151 | drops the log's reference once the buffer is on disk |
| FsModel.WordRoundTrip | kernel/fs.c:391-401 | a block number stored in an indirect block is read back, and no other entry changes |
| FsModel.GaveKeepsInv | kernel/fs.c:378-405 | putting a free block in an empty slot keeps every block with one owner and the bitmap exact |
| FsModel.WroteIsSpliced | kernel/fs.c:487-517 | writes to the file's blocks, and then to its size, splice the bytes into the contents |
| FsModel.SplicedBytes | kernel/fs.c:487-517 | the bytes written read back at their offset, every other byte is as it was, and the file is as long as the larger of its size and the end of the write |
| FsModel.TruncateKeeps | kernel/fs.c:410-437 | clearing an inode and returning its blocks keeps the invariant and every other file |
| FsCode.FileSystem.Balloc | kernel/fs.c:65-86 | marks, zeroes and returns the first free block, or finds none |
| FsCode.FileSystem.Bfree | kernel/fs.c:90-103 | clears one bit; its panic needs a block that is already free |
| FsCode.FileSystem.Bmap | kernel/fs.c:378-405 | the block at a position, allocated with its indirect block if need be; it finds none exactly when fewer blocks are free than it needs, changes no other slot, and logs every block it changes and at most one bitmap block for each one allocated |
| FsCode.FileSystem.Writei | kernel/fs.c:487-517 | refuses exactly bad offsets and sizes, panics exactly when fewer blocks are free than the write needs, and otherwise splices exactly the bytes before the block of the first unreadable source byte into the file, takes exactly the missing blocks off the bitmap and leaves every other file alone; every block that differs is logged, and at most MAXOPBLOCKS for a chunk of filewrite() |
| FsCode.TransactionBound | kernel/file.c:149-167 | four data blocks of which three are new, an indirect block, four bitmap blocks and the inode block are at most ten distinct blocks |
| FsCode.TenBlocks | kernel/file.c:149-167 | the counting bound is attained: four turns of the loop that start in the middle of a block, with three new data blocks, a new indirect block and four bitmap blocks, count ten distinct blocks |
| FsCode.FileSystem.FileWrite | kernel/file.c:135-179 | the chunks together splice the bytes up to the first refused chunk or unreadable byte, exactly; it panics exactly when fewer blocks are free than all chunks need |
| FsSpace.NeedJoins | kernel/fs.c:378-405 | what two successive writes need adds up to what one write over both ranges needs, indirect block included |
| FsSpace.TookTogether | kernel/fs.c:378-405 | and what they take adds up likewise |
| FsSpace.CopiesAll | kernel/fs.c:487-517 | writei() copies all bytes exactly if all can be read, and else stops at the start of the block into which the first bad byte would go |
| FsSpace.WritesAll | kernel/file.c:135-179 | filewrite() writes all bytes exactly if it starts within the file, ends within the largest file, and all can be read |
| FsImage.ImageReadsBack | kernel/fs.h:32-56 | inodes, bitmap and data blocks are read back from the disk blocks that hold them |
| FsImage.ImageKept | kernel/fs.c:221-236 | a disk block that a write does not log is the same before and after it |
| FsCrash.CommitsImage | kernel/log.c:194-203 | committing the blocks logged by a group of writes turns the disk image before the group into the image after it |
| FsCrash.CrashSafe | kernel/file.c:135-179 | over every run of group commits of writes and recoveries, each cut after any block write, a boot finds the image of a file system with exact bitmap and unshared blocks, whose files have the bytes of exactly the writes in committed groups, in order |
| FsCrash.BootReads | kernel/fs.h:32-56 | the inodes, bitmap and data blocks found by that boot are those of that file system |
| FsCrash.WriteOp | kernel/fs.c:487-517 | a writei() that does not panic is such a write, with at most MAXOPBLOCKS logged blocks for a chunk of filewrite() |
| FsCode.FileSystem.Readi | kernel/fs.c:456-477 | the slice of the contents up to the end of the file, or -1 exactly when the destination does not take all of it, with a prefix of the slice copied |
| FsCode.FileSystem.Itrunc | kernel/fs.c:410-437 | returns exactly the file's blocks to the bitmap; no block is freed twice, and other files keep their bytes |
| DirModel.RunKeeps | kernel/sysfile.c:103-250 | over every interleaving of create, link, unlink, lookups and iput under linked parents, each count is the number of entries in the tree other than "." that name the inode plus the links still to be entered, names are unique, every linked directory but the root is in its parent exactly once, and its ".." entries lead to the root |
| DirModel.FromMkfs | mkfs/mkfs.c:117-168 | all of that in every state of every run that starts from the file system of mkfs |
| DirModel.MkfsOk | mkfs/mkfs.c:117-168 | the root directory and files that mkfs makes have exact counts and form a tree |
| DirModel.EmptyHasNoChild | kernel/sysfile.c:149-159 | no linked directory has an empty one for its parent |
| DirModel.QuiescentCount | kernel/sysfile.c:103-250 | with no link() half done, nlink is the number of entries that name the inode |
| DirModel.StepKeeps | kernel/sysfile.c:103-250 | every step under a linked parent keeps counts and tree, and none panics |
| DirModel.CreateExactly | kernel/sysfile.c:212-250 | create() keeps counts and tree if and only if the parent is linked |
| DirModel.LinkEndExactly | kernel/sysfile.c:126-131 | entering the name in link() keeps the counts if and only if the directory is linked |
| DirModel.CreateInOrphan | kernel/sysfile.c:212-250 | a directory removed while it is some process's current directory, in which create() breaks the counts |
| DirModel.OrphanedReached | kernel/sysfile.c:161-250 | a run from a new file system that leads to that directory |
| DirModel.UnlinkTarget | kernel/sysfile.c:176-182 | what unlink() finds in any directory has a link, so its panic is not reached |
| DirModel.NamedOnce | kernel/sysfile.c:149-159 | an empty directory has one link, and its parent at least two |
| DirModel.UnlinkKeeps | kernel/sysfile.c:161-210 | unlinking a file or an empty directory keeps the counts |
| DirModel.IputFrees | kernel/fs.c:333-358 | iput() frees an inode and empties it if and only if it drops the last reference to a valid copy, no entry of the tree names the inode and no link to it is under way; otherwise only the reference goes |
| DirLaws.LookupHas | kernel/fs.c:530-553 | dirlookup() finds a name exactly where a live entry has it, and finds that entry's inode |
| DirLaws.CreateNames | kernel/sysfile.c:212-250 | after create() a lookup finds what it found before, the new name, and the dots of a new directory; nothing else |
| DirLaws.LinkNames | kernel/sysfile.c:126-131 | after link() a lookup finds what it found before and the new name; nothing else |
| DirLaws.UnlinkNames | kernel/sysfile.c:161-210 | after unlink() a lookup finds what it found before except the name unlinked |
| DirLaws.UnlinksExactly | kernel/sysfile.c:161-210 | unlink() succeeds exactly for a name, other than the dots, of a file or of a directory in which a lookup finds only the dots |
| DirLaws.StepNames | kernel/sysfile.c:103-250 | no other step changes what a lookup finds, but for freeing the directory itself |
| DirCode.Dirs.Dirlookup | kernel/fs.c:530-553 | the first live entry with the name |
| DirCode.Dirs.Dirlink | kernel/fs.c:557-583 | refuses a name that is there, and else writes the first free slot |
| DirCode.Dirs.IsDirEmpty | kernel/sysfile.c:149-159 | whether no entry besides the dots is live |
| DirCode.Dirs.Ialloc | kernel/fs.c:196-216 | the first free inode, zeroed and referenced |
| DirCode.Dirs.Drop | kernel/fs.c:333-358 | iput() on the last reference of an unlinked inode frees it |
| DirCode.Dirs.Create | kernel/sysfile.c:212-250 | reopens exactly a file or device that a live entry of the directory has under the name, and returns its inode; refuses exactly a name that is taken otherwise, panics exactly when no inode is free, and else makes the first free inode with its dots, its name and the parent's link |
| DirCode.Dirs.Link | kernel/sysfile.c:115-124 | raises the count of a file and refuses a directory |
| DirCode.Dirs.LinkName | kernel/sysfile.c:126-145 | enters the name, or takes the link back when the name is taken or there is no directory |
| DirCode.Dirs.Unlink | kernel/sysfile.c:161-210 | removes the entry exactly when it is a file or an empty directory, and lowers the counts |
| VmaTable.GetFreeVRange | kernel/uvm.c:154-187 | exact first fit for every int length: the least address from START_VMAS_ADDR on whose pages are free, and 0 only if there is none below MAXVA |
| VmaTable.IsRangeFree | kernel/uvm.c:154-164 | whether a page range meets no area |
| VmaTable.NextEnd | kernel/uvm.c:171-184 | the next candidate is the least rounded end of an area above the last |
| VmaTable.Va2Vma | kernel/uvm.c:145-152 | the first area that contains the address |
| VmaTable.CoversItsBytesExactly | kernel/uvm.c:94-99 | an area's page range holds its bytes if and only if its rounded-up end does not wrap |
| VmaTable.WrappedCovers | kernel/uvm.c:94-99 | an area whose rounded-up end wraps covers the page of its start, exactly when start and length wrap round to that page, and else no page |
| VmaTable.AcceptsApartExactly | kernel/uvm.c:189-198 | uvm_map() accepts an area that shares a byte with another if and only if their bytes meet and one of the two has a rounded-up end that wraps while it contains bytes |
| VmaTable.TwoAreasShareByte | kernel/uvm.c:189-198 | two areas accepted one after the other that contain the same byte |
| VmaTable.FirstNull | kernel/uvm.c:25-30 | the first null pointer |
| VmaTable.MapGains | kernel/uvm.c:189-198 | adding an area over a free range keeps areas apart and covers exactly that range more |
| VmaTable.UnmapLoses | kernel/uvm.c:200-249 | unmapping a whole area, a prefix or a suffix, of any length that does not panic, takes from the area exactly the pages in which no remaining byte of it lies |
| VmaTable.GrowHeap | kernel/uvm.c:316-336 | for every heap and every int, grows the heap exactly when nothing is in the way, refuses to shrink it exactly by the unsigned test of the source, and else names the range to unmap |
| VmaTable.OneAreaCovers | kernel/uvm.c:94-99 | a page lies in the range of at most one area |
| CowModel.StoreIsPrivate | kernel/uvm.c:285-302 | a store through a writable entry changes what one process sees and nothing any other sees |
| CowModel.ShareKeeps | kernel/pagetable.c:141-152 | sharing a page read-only gives the child a copy in the model and keeps every count |
| CowModel.CopyKeeps | kernel/uvm.c:285-302 | moving an entry to its own copy of the page changes nothing that is seen |
| CowModel.DropKeeps | kernel/pagetable.c:107-124 | dropping an entry, and its page with the last entry, keeps every count and every other view |
| CowModel.AllocKeeps | kernel/kalloc.c:49-65 | taking a page off the free list keeps every count |
| UvmCode.Vm.Run | kernel/uvm.c:189-418 | over every run of user loads, stores and faults, copies, maps, unmaps, heap changes and forks on any number of address spaces, each event does to the areas and private zero-filled memories of a simple model what UvmSpec.Follows computes from the event: which of them succeed, refuse or panic, the ranges that come and go, the bytes read and written. Memory is reported short only when it is, and no event uses up more pages than it needs; page counts equal the entries for the page, writable entries are alone, the free list is exact and every entry lies in an area |
| UvmCode.Vm.Step | kernel/uvm.c:189-418 | the same of one event |
| UvmLaws.Determined | kernel/uvm.c:189-418 | for areas that start at page boundaries, and allow reading where copyin() reads, the model leaves no choice: apart from short memory, it determines the outcome and the new areas and memories |
| UvmLaws.GetOfWriteOnly | kernel/uvm.c:400-418 | a copy from an area without read permission has two outcomes in the model |
| UvmLaws.CutLeavesOthersExactly | kernel/uvm.c:200-249 | an unmap leaves the pages of all other areas alone, whatever they hold, if and only if the range it passes to pgt_deallocunmap() meets none of them |
| UvmLaws.CutZeroesNeighbour | kernel/uvm.c:200-249 | an unmap of two pages from an area of one, which zeroes the page of the next area |
| UvmLaws.CutRemainderExactly | kernel/uvm.c:200-249 | when the remaining area contains no byte, and when it contains a byte that it did not |
| UvmLaws.CutEnlarges | kernel/uvm.c:200-249 | an unmap after which the area is larger |
| UvmLaws.GrowsSimply | kernel/uvm.c:316-336 | on a heap of at least a page, sbrk() changes the length and gains zeros or loses the tail if and only if nothing is in the way or a page is left, and never panics |
| UvmLaws.HeapStays | kernel/uvm.c:316-336 | in every run of the model in which no unmap of the process starts in its heap, the heap keeps at least a page |
| UvmLaws.CutKeepsHeapExactly | kernel/uvm.c:200-249 | an unmap that starts in the heap leaves it a heap if and only if a page of it remains or start and length wrap |
| UvmLaws.CutBreaksHeap | kernel/uvm.c:329-334 | an unmap of half a heap after which sbrk() panics |
| UvmLaws.RunLeavesOthers | kernel/uvm.c:189-418 | in a run of the model an address space keeps its areas and its bytes until an event of its own; being forked is not one |
| UvmLaws.MachineFollows | kernel/uvm.c:189-418 | the states of such a machine form a run of the model |
| UvmSpec.MustIsMay | kernel/uvm.c:253-258 | a page for which uvm_completemap() finds a sound area lies in its range |
| UvmSpec.MayIsMust | kernel/uvm.c:253-258 | a page in the range of a page-aligned area is one for which uvm_completemap() finds the area |
| UvmBytes.PutBytes | kernel/uvm.c:379-398 | copyout() writes its bytes, or those before the page at which it stops, and no other byte of any address space |
| UvmBytes.StoreBytes | kernel/trap.c:60-71 | a store writes its byte and no other of any address space |
| UvmBytes.StoreThenLoad | kernel/trap.c:60-71 | a load after a store gives the byte stored |
| UvmBytes.PutThenGet | kernel/uvm.c:379-418 | a copyin() after a copyout() gives the bytes copied |
| UvmBytes.MapBytes | kernel/uvm.c:189-198 | uvm_map() adds the bytes of its pages as zeros and changes no other |
| UvmBytes.ForkBytes | kernel/uvm.c:338-354 | after fork() the child reads what the parent reads, byte for byte, and no other byte changes |
| UvmBytes.CutBytes | kernel/uvm.c:200-249 | uvm_unmap() takes the bytes of the lost pages away, zeroes the others in its range, and changes no byte outside |
| UvmBytes.GrowBytes | kernel/uvm.c:316-336 | sbrk() changes the heap's length by its argument, adds zeros above the old end or takes away the pages above the new one, and changes no other byte |
| UvmBytes.MapPerms | kernel/uvm.c:189-198 | uvm_map() gives exactly its pages exactly the permissions asked for |
| UvmBytes.CutPerms | kernel/uvm.c:200-249 | uvm_unmap() takes the permissions of exactly the lost pages away |
| UvmBytes.AccessNeeds | kernel/uvm.c:253-258 | a load needs an area with PTE_R, a store one with PTE_W, an instruction fetch one with PTE_X, and is refused only where no such area contains the start of the page |
| UvmCode.Vm.TouchPage | kernel/trap.c:60-71 | a user access leaves the memories as they are; it succeeds only in an area that allows it, is refused only outside, and else memory is short |
| UvmCode.Vm.LoadByte | kernel/trap.c:60-71 | a user's load gives the byte of the process's own memory |
| UvmCode.Vm.StoreByte | kernel/trap.c:60-71 | a user's store puts its byte at the address in the process's own memory and leaves every other byte of every process; without success it leaves all of them |
| UvmCode.Vm.constructor | kernel/kalloc.c:28-47 | after kinit() every managed page is free, once |
| UvmCode.Vm.KAlloc | kernel/kalloc.c:49-65 | hands out a free page with one reference |
| UvmCode.Vm.KFree | kernel/kalloc.c:75-87 | drops one reference and frees the page with the last; the negative count is not reached |
| UvmCode.Vm.KIncRef | kernel/kalloc.c:67-73 | adds a reference to a page in use |
| UvmCode.Vm.CompleteMap | kernel/uvm.c:253-303 | a fault changes nothing that is seen; it fails exactly outside the areas or their permissions, or when no page is left and it needs one |
| UvmCode.Vm.WriteFault | kernel/uvm.c:285-302 | a write fault makes the entry writable, in place for the only user and else on a copy |
| UvmCode.Vm.PgtClone | kernel/pagetable.c:134-158 | gives the child every entry of the range, takes PTE_W from both, leaves every other entry, and so the child sees the parent's pages; it fails only without memory |
| UvmCode.Vm.Dup | kernel/uvm.c:338-354 | a successful fork gives the child the parent's areas and contents; it panics only for an area whose range pgt_clone() rejects, and falls short only of pages or areas |
| UvmCode.Vm.DeallocUnmap | kernel/pagetable.c:107-124 | removes exactly the range |
| UvmCode.Vm.MapArea | kernel/uvm.c:189-198 | for every address and length: succeeds exactly when the range is free and a slot and an area are left, and then adds the area in the first null slot and zeroed pages; the invariant of the pages is kept exactly if the area is sound |
| UvmCode.Vm.UnmapArea | kernel/uvm.c:200-249 | panics exactly when no area contains the address, neither end matches or the range is irregular; otherwise zeroes the range, takes the lost pages away and cuts the area |
| UvmCode.Vm.GrowHeapArea | kernel/uvm.c:316-336 | for every heap and every int: grows it with zeros exactly when nothing is in the way, refuses to shrink it exactly by the unsigned test, and else unmaps the range from the new end on, or panics with uvm_unmap() |
| UvmCode.Vm.CopyOut | kernel/uvm.c:379-398 | puts its bytes at the address in the process's memory, all of them unless it meets a page that no area lets it write or has no memory for, and leaves every other byte of every process |
| UvmCode.Vm.CopyIn | kernel/uvm.c:400-418 | reads what the process sees, all of it unless it meets a page that is not in memory and that no area lets it read, or has no memory for; it changes nothing |
| Sv39.PxBitsInjective | kernel/riscv.h:360-362 | on the bits of page-aligned addresses below MAXVA the three indices determine the address |
| Sv39.PteRoundTrip | kernel/riscv.h:353-357 | a physical address comes back out of an entry, and so do the flags |
| Sv39.PxInjective | kernel/riscv.h:360-362 | the three indices of a virtual page number determine it |
| Sv39.SetLeaf | kernel/pagetable.c:40-54 | writing an entry of the lowest table changes that page's mapping and no other |
| Sv39.AttachKeeps | kernel/pagetable.c:47-50 | adding a blank table changes no mapping |
| Sv39.OrderPages | kernel/pagetable.c:20-34 | the pages visited below a table are exactly those that hang below it, each once |
| Sv39Code.PageTable.Walk | kernel/pagetable.c:40-54 | finds the lowest table, with alloc unless memory runs out, and changes no mapping |
| Sv39Code.PageTable.Map | kernel/pagetable.c:63-76 | adds exactly one mapping, panics exactly on a mapped page, and fails only without memory |
| Sv39Code.PageTable.Unmap | kernel/pagetable.c:107-124 | removes exactly the range and releases its pages in address order |
| Sv39Code.PageTable.FreeTable | kernel/pagetable.c:20-34 | frees the pages below a table in that order, and its leaf panic is not reached |
| Sv39Code.PageTable.Free | kernel/pagetable.c:20-34 | without mappings, every table page is freed exactly once |
| SleepWakeup.MutualExclusion | kernel/sleeplock.c:22-41 | in every run at most one process has a sleep lock |
| SleepWakeup.NoLostWakeup | kernel/proc.c:449-490 | while a sleep lock and its spin lock are free, no process sleeps on it or is bound to |
| SleepWakeup.NoLostExit | kernel/proc.c:228-329 | while wait_lock is free, no process sleeps in wait() with a zombie child |
| SleepWakeup.ReapedIsDead | kernel/proc.c:286-329 | wait() frees only a process that has left its kernel stack, and never init |
| SleepWakeup.StepKeeps | kernel/proc.c:178-490 | every step of every process keeps the invariant behind these |
| SleepWakeup.RunKeeps | kernel/proc.c:178-490 | that invariant holds in every reachable state |
| SleepWakeup.MoveKeeps | kernel/proc.c:449-490 | one process's change keeps it if it forgets no wakeup that it owes |
| SleepWakeup.AdoptKeeps | kernel/proc.c:228-237 | a new parent may sleep only while reparent() has still to wake it |
| SleepLaws.WaitReturns | kernel/proc.c:286-329 | in every reachable state, a step takes a process out of wait() only if it is its own, and only if it was killed, no process has it for its parent, or a zombie child has just become UNUSED or could not be copied out; wait_lock is then free |
| SleepLaws.WaitSleeps | kernel/proc.c:321-327 | a completed scan with a child and no kill goes to sleep, and none of the children is a zombie |
| SleepLaws.SleepIsReached | kernel/proc.c:449-476 | once sleep() has begun no step of any process turns it back, and it sleeps on the sleep lock, or in wait() on its own process |
| SleepLaws.Reparented | kernel/proc.c:228-237 | after reparent(), and until its slot is used again, no process has the exiting one for its parent |
| SleepLaws.ExitStays | kernel/proc.c:242-284 | exit() is never left: it ends as a zombie, which only a step of its parent frees |
| SleepLaws.ForkReturns | kernel/proc.c:178-224 | fork() returns with a child that is RUNNABLE, has not run, and has the caller for its parent |
| SleepLaws.AcquireReturns | kernel/sleeplock.c:22-31 | in every reachable state, a step takes a process out of acquiresleep() only if it is its own and the lock was free; the lock is then its own and nobody else's |
| SleepLaws.ReleaseReturns | kernel/sleeplock.c:34-41 | releasesleep() returns with the lock free and no process asleep on it or bound to be |
| SleepLaws.KillWakes | kernel/proc.c:495-512 | kill() leaves its process killed and not asleep, and every other as it was |
| SleepLaws.Interference | kernel/proc.c:178-512 | all that a step of one process does to another: wake, kill, reap, reparent, allocate, adopt or start it, each only in the state that calls for it |
| SleepLaws.StepFamily | kernel/proc.c:178-329 | every step keeps the invariant behind these: havekids is set exactly if a child lies below the index of wait(), reparent() has left no child below its own, a process in fork() has its child to itself, and processes past exit() or not yet begun have none |
| SleepLaws.RunFamily | kernel/proc.c:178-329 | that invariant holds in every reachable state |
| SleepProgress.NoDeadlock | kernel/proc.c:178-490 | in every reachable state a process that runs in one of these operations can go on, or the holder of the lock that it waits for can, or the holder of the lock that this one waits for |
| SleepProgress.CanRun | kernel/proc.c:338-384 | in every reachable state a RUNNABLE process can be scheduled, and a zombie goes on until it has left its kernel stack |
| SleepProgress.CanStart | kernel/proc.c:178-512 | an idle process can start each operation as soon as the lock that it takes first is free, and is then at its beginning with that lock |
| SleepProgress.StepOrderly | kernel/proc.c:178-512 | every step keeps the invariant behind these: a process has p->lock exactly where the code holds it, every other lock that is taken is held by a process that needs it there, and each state fits the program counter |
| SleepProgress.RunOrderly | kernel/proc.c:178-512 | that invariant holds in every reachable state |
| Lottery.Draw | kernel/proc.c:350-377 | the binary search agrees with a linear scan, and there is no winner exactly when no tickets are in play |
| Lottery.PartialSums | kernel/proc.c:350-358 | the partial sums, without overflow |
| Lottery.Search | kernel/proc.c:367-376 | the process whose sums bracket the winner |
| Lottery.Exact | kernel/proc.c:350-377 | each process is chosen by exactly its tickets' number of winner values if RUNNABLE, and by none otherwise |
| VirtioModel.RunKeeps | kernel/virtio_disk.c:144-315 | chains, rings, phases and serial numbers are consistent in every run, with any order of completions |
| VirtioModel.ChainsDisjoint | kernel/virtio_disk.c:190-201 | requests in flight own disjoint triples of descriptors |
| VirtioModel.FreeExactly | kernel/virtio_disk.c:145-170 | a descriptor is free if and only if it is in no chain |
| VirtioModel.NothingOverwritten | kernel/virtio_disk.c:259-265 | neither side overwrites a ring entry that the other has still to read, around the 16-bit wrap |
| VirtioModel.WindowPush | kernel/virtio_disk.c:259-265 | an entry added to a ring that is not full is behind all entries still to be read |
| VirtioModel.IntrNeverPanics | kernel/virtio_disk.c:300-312 | the handler finds a completed request that it has not seen before |
| VirtioModel.ExactlyOnce | kernel/virtio_disk.c:204-315 | no request is completed twice, and once none is outstanding all have been completed |
| VirtioModel.BusyExactly | kernel/virtio_disk.c:252-309 | in every run b->disk is set exactly while a request for the buffer is one that the handler has not seen completed |
| VirtioCode.Driver.constructor | kernel/virtio_disk.c:77-141 | after initialisation every descriptor is free and the rings are empty |
| VirtioCode.Driver.AllocDesc | kernel/virtio_disk.c:145-155 | a free descriptor, or none if none is free |
| VirtioCode.Driver.Alloc3 | kernel/virtio_disk.c:190-201 | three free descriptors, or exactly the state before if there are not three |
| VirtioCode.Driver.FreeChain | kernel/virtio_disk.c:174-186 | frees the three descriptors of a chain, and neither panic is reached |
| VirtioCode.Driver.Start | kernel/virtio_disk.c:204-269 | publishes a request whenever three descriptors are free |
| VirtioCode.Driver.End | kernel/virtio_disk.c:276-280 | frees the chain of a completed request |
| VirtioCode.Driver.Interrupt | kernel/virtio_disk.c:283-315 | whatever chains the device takes and completes meanwhile, it ends having seen every request that the device is done with, each once |
| VirtioCode.Driver.SeeOne | kernel/virtio_disk.c:300-311 | one turn of the handler, which does not panic, is a step of the transition system |
| FreeList.InsertUnits | user/umalloc.c:33-42 | free() adds exactly the block's units to the free list |
| FreeList.InsertOrdered | user/umalloc.c:33-42 | free() leaves blocks in address order with no two touching |
| FreeList.TakeUnits | user/umalloc.c:75-82 | malloc() takes exactly the block's units off |
| FreeList.Canonical | user/umalloc.c:25-44 | a free list is determined by its units |
| FreeList.FreeUndoesMalloc | user/umalloc.c:25-90 | freeing what was just allocated restores the list, split or not |
| FreeList.FreedLinks | user/umalloc.c:33-42 | the stores of free() link the headers as that list |
| FreeList.CutLinks | user/umalloc.c:75-82 | the stores of malloc() link the headers as the list without the block |
| Malloc.NUnits | user/umalloc.c:69 | a block's own header and the fewest further headers that hold the bytes |
| Malloc.GrowBy | user/umalloc.c:52-53 | morecore() asks for what is needed, but for no less than 4096 headers |
| Malloc.Given | user/umalloc.c:52-54 | the headers by which sbrk() moves the break are those asked for if and only if that is below 2^31 bytes |
| Malloc.GrowthIsExact | user/umalloc.c:47-61 | after morecore() the allocator owns exactly what sbrk() gave besides what it had if and only if the size is below 2^31 bytes |
| Malloc.WrappedRequests | user/umalloc.c:47-61 | a request after which a free header lies at the break, and one that lowers the break |
| Malloc.Heap.Find | user/umalloc.c:30-32 | the search of free() ends, at the block behind which the freed one goes |
| Malloc.Heap.Free | user/umalloc.c:25-44 | frees exactly the block, and free and live units together stay those obtained; the list stays circular, ordered, without touching blocks and apart from every block in use |
| Malloc.Heap.MoreCore | user/umalloc.c:47-61 | for every size, moves the break by the int that sbrk() gets and adds the block asked for at the old break, wherever that is above the blocks; the blocks stay below the break if and only if the size is below 2^31 bytes; without sbrk() nothing changes |
| Malloc.Heap.TakeBlock | user/umalloc.c:75-84 | cuts the block from the tail, or takes it whole |
| Malloc.Heap.Malloc | user/umalloc.c:64-90 | for every uint: the search ends with at most one call of sbrk(); the block was free or is new, sbrk() is called exactly when no free block is large enough, free and live units together grow by exactly what was asked for, they stay below the break exactly when that is less than 2^31 bytes, and the call fails only if sbrk() does |
| ShellModel.ReadsAsWord | user/sh.c:450-493 | after nulterminate() every pointer reads as exactly its word, since no word's end lies inside another |
| ShellModel.LineWords | user/sh.c:345-359 | every span in a parsed tree is a whole word of the line |
| ShellGrammar.ParsesExactly | user/sh.c:328-447 | parsecmd() accepts a line if and only if its tokens are a sentence of the shell's grammar, and then gives the sentence's tree |
| ShellGrammar.ParsesLine | user/sh.c:328-447 | every sentence parses to its tree: words and redirections in order, | before & and ;, | and ; grouped to the right, and each & around the pipeline before it |
| ShellGrammar.ReadsLine | user/sh.c:328-447 | every line that parses is a sentence |
| ShellGrammar.SimpleParses | user/sh.c:416-447 | a simple command with redirections before, among and after its words parses to the words in order inside exactly those redirections, with their kinds and files, the first innermost |
| ShellGrammar.ElemParses | user/sh.c:400-447 | a simple command or a block with its redirections parses to its tree |
| ShellGrammar.PipeParses | user/sh.c:362-372 | a pipeline parses to its tree |
| ShellGrammar.LineParses | user/sh.c:345-359 | a line, up to its end or a closing parenthesis, parses to its tree |
| ShellGrammar.LineReads | user/sh.c:345-359 | what parseline() accepts is a line of the grammar, with that tree |
| ShellRoundTrip.SpacingIsFree | user/sh.c:266-309 | a sentence parses to its tree with any white space around its tokens, and none where two tokens do not run together |
| ShellRoundTrip.SpellLexes | user/sh.c:266-309 | gettoken() on the text of such tokens gives the tokens |
| ShellRoundTrip.RoundTrip | user/sh.c:328-447 | every command tree has a text, with each command inside another in parentheses, that parses to the tree |
| ShellCode.NextToken | user/sh.c:266-309 | gettoken() with its loops computes the next token |
| ShellCode.PeekFor | user/sh.c:311-320 | peek() skips white space and looks for one of the given characters |
| ShellCode.ParseRedirs | user/sh.c:375-397 | parseredirs() ends and finds the redirections, or panics |
| ShellCode.ParseArgs | user/sh.c:416-447 | on the tokens of a simple command, the loop of parseexec() ends with its words in order inside exactly its redirections, in order, with their kinds and files; it panics on a symbol or too many words |
| ShellCode.Line | user/sh.c:345-359 | parseline() ends, with the tree of pipelines, backgrounds and lists that the grammar gives or with a panic |
| ShellCode.PipeLine | user/sh.c:362-372 | parsepipe() ends, with commands joined to the right |
| ShellCode.Command | user/sh.c:416-447 | parseexec() ends, with a block or a simple command |
| ShellCode.Block | user/sh.c:400-413 | parseblock() ends, with the line in the parentheses and its redirections, or panics without the closing one |
| ShellCode.NulTerminate | user/sh.c:450-493 | writes a NUL at the end of every word of the tree and nowhere else |
| ShellCode.ParseCommand | user/sh.c:328-343 | parsecmd() ends on every line, with a panic exactly if the line is not in the grammar, and else with its tree, whose pointers read as the words of the line |

## Left out

- The hardware and plumbing: uart, plic, traps, start code, assembly, printf, system call arguments, the TLB, spin lock internals and memory fences. Acquire and release are steps.
- exec, pipes, the console, `random.c`, `mkfs` apart from its log size and its directory, and the user programs other than `malloc` and the shell's parser.
- File-backed and shared areas with their write-back: areas are private and anonymous. The trampoline and trapframe pages are not in the page tables of this model.
- The failure path of `uvm_dup()`, which passes an end address as a length: the theorem on runs stops at a fork that runs out of memory.
- UvmCode.Vm.Run: says nothing after uvm_map() has accepted an area that is not sound, because a page of it is then in no area's range (UvmCode.MapKeeps says that the invariant is kept exactly for sound ones). An unmapped heap whose slot is empty counts as none, because `uvm->heap` then dangles. Every entry has PTE_U, because the guard page of exec() is not modelled.
- UvmCode.Vm.CompleteMap: the table pages that a walk may have to allocate are a number `need`, because the tree itself is the subject of Sv39Code.
- Page permissions in Sv39Code grant at least one of read, write and execute: an entry without any is a pointer to a table for the hardware and for `pgt_free()`.
- FsCode.FileSystem.Writei: a copy from user memory stops after a number of good bytes, because the chunk it stops in is not copied in part.
- FsCrash.CrashSafe: the transactions are of writei() calls only, because create() and unlink() change the part of a dinode before its size, which the model of files does not have, and itrunc() would be an easy case more.
- An inode has one copy: the difference between an inode in memory and on disk is not modelled. The initial image has no holes.
- Directory offsets, the size limit of a directory and the 14-byte limit on names; link counts are unbounded; `namex()` is represented by the inode it found.
- DirModel.RunKeeps: takes entries to be made in linked directories, because the counts are not meant for others; DirModel.CreateExactly says that this is exactly what it needs.
- BioModel.CacheAgrees: takes a holder to write a changed buffer, or have it logged, before releasing it, because that is the callers' part.
- SleepWakeup: the parts of exit() and fork() before wait_lock, and scheduling policy; the scheduler may run any RUNNABLE process.
- VirtioModel: the contents of disk blocks and the status byte of a device error.
- Lottery.Draw: the number is a parameter, and the total of tickets is below 2^31, because the sums are ints.
- Malloc.Heap.Malloc: the sizes in headers do not wrap at 2^32 headers, because such a heap has 64 GB; writing a header above the break is not a fault.
- Malloc.Heap.MoreCore: takes the break to be at or above the blocks when it is called, because after a request of 2^31 bytes or more, or a program's own negative sbrk(), a new block can meet old ones.
- The shell's prompt, `runcmd()`, and memory for the tree, which the model does not run out of.
