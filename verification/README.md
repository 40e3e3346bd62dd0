# Verified models of the xv6 kernel and its tools

This project models the parts of xv6 for RISC-V that carry its guarantees, and states and proves those guarantees in Dafny 4.11. The command for the whole project is `dafny verify dfyconfig.toml`.

- **The redo log** (`Blocks`, `LogFormat`, `Log`, `LogProtocol`, `LogRuns`). `LogFormat` looks at the block writes of commit and recovery and at a crash between any two of them. `Log` is the code as one object, and its loops emit exactly those writes. `LogProtocol` lets file system operations, readers, the committing process, buffer recycling, crashes and reboots interleave, and refines an atomic, durable block store. `LogRuns` has the results about whole runs: crash safety with group commit, the runs that are free of panics, the exact capacity of the log, the boots after which the buffer counts go wrong, and what a change costs that is not logged.
- **The buffer cache's list** (`Bcache`): the doubly linked ring with its pointer assignments, ordered by last release.
- **The file system** (`Bitmap`, `Inodes`, `FileSystem`, `FileExamples`, `Directories`): the bitmap allocator, block maps with an indirect block, reading and writing at byte level, which changed blocks are logged, the chunks of filewrite against the log's reservation, and directories with link counts.
- **Virtual memory** (`PageTables`, `PageTableFree`, `Vm`, `Exec`, `Fork`): page tables as trees in physical memory that refine a flat map (section 4.4 of the RISC-V Privileged Architecture), the page allocator, copying between kernel and user memory, and the memory side of exec, fork and freeproc. Every page is free or has one use, after every call and every failure.
- **Processes** (`Processes`, `ProcessRuns`, `ProcessPlays`, `InitRace`, `ReparentRace`): the process table as interleaved steps of the CPUs, with the locks, the scheduler's hand-over, sleep, wakeup, fork, exit, wait and kill.
- **Pipes, disk and tools** (`Pipes`, `Virtio`, `Umalloc`, `Shell`, `ShellParser`, `ShellGrammar`, `Grep`): the pipe's ring with 32-bit counters, the virtio queue with both its rings (section 2.6 of VIRTIO 1.1), the storage allocator of user programs, the shell's parser, and the regular expression matcher.

Module `Prelude` holds what several parts share.

Code that updates memory step by step is a class or a method with its loops, proved against a specification on values. Protocols between processes are state machines; what one step covers is said at the head of each module. A panic is an outcome of its own, and most panics are proved unreachable.

Ghost state names the one use of each resource: `owner` gives the use of every disk block, `use` that of every page, `own` the block every unit of the heap is in. Disjointness and conservation follow from that map and the invariant that ties it to the data.

## Where the code departs from what one would expect

- **Replay unbalances the buffer counts.** install_trans drops a pin that recovery never took. `LogRuns.ReplayLosesUpdates` gives, for every boot that finds a committed transaction, a run in which a correct and committed update is lost. `LogRuns.BootIff` shows that a boot is safe exactly if the log was empty.
- **The log holds one block less than it admits.** begin_op counts with LOGSIZE, log_write also wants `n < log.size - 1`, and mkfs makes the area LOGSIZE blocks. `LogRuns.CapacityIff` gives the exact size for operations that log none of their blocks again once they have logged ten.
- **log_write panics at a full log before it looks whether the block is listed.** `LogRuns.NoSizeSuffices`: for a log of any size, operations of ten different blocks each reach this panic. `LogRuns.LogWritePanicsIff` gives the condition for a call, and `LogRuns.NoPanicIff` that for a run: it never calls log_write while the log is full.
- **writei after a failed copy** reports all bytes as written, leaves those copied before the failure in the block without counting them in the size, and releases that block without log_write. `FileSystems.FileSystem.Writei`: the number reported is the number counted exactly if every byte could be read, and every changed block is logged exactly if the failing copy left no different byte in a block that was there before and is not yet logged. `FileExamples.TornWrite` is such a call. `LogRuns.UnloggedIsLost`: a buffer changed and released like this may be recycled, and then reads return the old contents again.
- **filewrite after a failed copy** goes on with the next chunk. `FileSystems.ReportedIff` says when it still reports success.
- **The root directory of a new image** has a hole exactly if its entries end at a block's end (`FileSystems.RootHole`).
- **Reading a hole allocates.** `FileSystems.FileSystem.Readi`: a read leaves the disk as it is exactly if all blocks it looks up are there; the inode that leads to a new block is not logged. `FileExamples.HoleRead` is such a read of the root directory. fileread calls readi outside of any operation: `FileSystems.FileSystem.FileRead` panics in log_write exactly if a block it looks up is missing and no other operation is under way.
- **init can sleep in wait with a zombie child**; no other process can (`ProcessRuns.NoZombieOfSleeper`). A child exits that has read another parent (`InitRace.InitSleepsWithZombie`), or reparent hands over a child that is a zombie already (`ReparentRace.InitGivenZombie`). `ProcessRuns.InitRunIff`: a run is free of this exactly if none of its steps strands a zombie, which three kinds of steps can.
- **A killed pipe writer leaves readers asleep** on a full pipe (`Pipes.KilledWriterLeavesReader`). `Pipes.SleepingReadersIff` says that a run is free of this exactly if no step abandons a reader.
- **create and link do not look whether the parent is still linked.** `Directories.CreateIff` and `Directories.LinkIff`: the link counts stay right exactly if it is. `Directories.UnlinkedParent` makes a directory, removes it while it is in use, and spoils the counts by a create and by a link. unlink needs no such look: `Directories.Tree.Unlink` keeps the tree in order for every directory, because an unlinked one holds nothing but its two dots.
- **Block numbers from 2^31 on** share sectors with those below (`Virtio.SectorIff`).
- **mappages of no bytes** maps one page, or runs on to the end of the address space (`VirtualMemory.NoBytes`).
- **Large requests to malloc** turn negative on the way to sbrk; `Umalloc.SbrkRequest` gives the limit.

## Model

| member | source | states |
|---|---|---|
| Blocks.WordIsLittleEndian | kernel/fs.c:358-359 | A word of a block is the number of its four bytes, the lowest first |
| LogFormat.HeaderRoundTrip | kernel/log.c:80-104 | The list read back from a written header block is the list written, whatever the block held before |
| LogFormat.HeaderLayout | kernel/log.c:35-38 | The header holds the count in its first four bytes and each number in the next four, low byte first |
| LogFormat.CommitCrash | kernel/log.c:161-182 | A crash after any number of commit's block writes leaves to recovery the old home blocks or the new ones, the new ones exactly if the header write is among them |
| LogFormat.RecoveryCrash | kernel/log.c:65-111 | A recovery cut short anywhere leaves the same result to the next one; a complete one puts every home block in place and empties the log |
| LogFormat.CrashedBoots | kernel/log.c:106-111 | Any number of boots that crash during recovery keep the disk well formed and its durable contents |
| LogFormat.CrashAtomicity | kernel/log.c:65-182 | Crash commit after any k writes and then any number of recoveries anywhere: one complete recovery leaves all home blocks exactly as before the transaction or exactly as after it, the latter exactly if the first header write was among the k |
| LogLayer.Absorb | kernel/log.c:200-208 | Listing a block keeps the list free of duplicates, adds that block only, and keeps the order |
| LogLayer.EncodeHeader | kernel/log.c:94-104 | The loop stores the count and the numbers and keeps every other word of the block |
| LogLayer.DecodeHeader | kernel/log.c:80-89 | The loop reads exactly the listed numbers |
| LogLayer.Log.constructor | kernel/log.c:54-62 | An empty log over a disk |
| LogLayer.UnpinnedAll | kernel/log.c:65-77 | Unpinning each listed buffer once takes back exactly the pins of its log_writes, and unbalances the counts where there were none |
| LogLayer.CommitShows | kernel/log.c:174-182 | commit leaves in each home block on the disk what a read through the buffers showed before |
| LogLayer.RecoveryShows | kernel/log.c:106-111 | Recovery leaves in each listed block the log's copy, in every other home block what was there, and an empty header |
| LogLayer.Log.BeginOp | kernel/log.c:114-128 | Admits an operation exactly if no commit is under way and the reservations fit in LOGSIZE |
| LogLayer.Log.LogWrite | kernel/log.c:193-210 | Panics exactly for a full log or outside an operation; otherwise the block is listed once, only its buffer changes, and it gets a pin exactly if it was not listed; each listed buffer stays pinned once |
| LogLayer.Log.WriteLog | kernel/log.c:161-172 | The listed blocks' cached contents are in the log area in order; exactly those writes were made |
| LogLayer.Log.InstallTrans | kernel/log.c:65-77 | The log's data is in the home blocks; exactly those writes were made; each listed buffer has one pin less, and no other |
| LogLayer.Log.WriteHead | kernel/log.c:94-104 | One write, of the encoded list |
| LogLayer.Log.ReadHead | kernel/log.c:80-89 | The list is the one in the header block |
| LogLayer.Log.Commit | kernel/log.c:174-182 | Emits exactly the writes of which CrashAtomicity speaks, in that order, and leaves an empty log, buffers that agree with the disk, on the disk in every home block what a read showed before, and no pin where each listed buffer had one |
| LogLayer.Log.EndOp | kernel/log.c:132-158 | The last operation to end commits the whole group: every home block on the disk is then what a read showed before; the others change nothing but the count; panics exactly if a commit is under way |
| LogLayer.Log.RecoverFromLog | kernel/log.c:106-111 | Emits exactly the writes of recovery: each listed block gets the log's copy, every other home block stays, and the log is empty; the pins come out even exactly if the log was empty |
| LogProtocol.RefineBegin | kernel/log.c:114-128 | begin_op keeps the invariant and begins an operation of the abstract store |
| LogProtocol.RefineEnd | kernel/log.c:132-158 | end_op keeps the invariant and ends the operation; the last one starts the commit |
| LogProtocol.RefineLogWrite | kernel/log.c:193-210 | log_write keeps the invariant and changes nothing a reader or a recovery could see |
| LogProtocol.RefineBget | kernel/bio.c:55-84 | Getting a buffer keeps counts, pins and views |
| LogProtocol.RefineFill | kernel/bio.c:87-96 | Reading a block into its buffer changes no view |
| LogProtocol.RefineBrelse | kernel/bio.c:106-124 | Releasing a buffer keeps counts, pins and views |
| LogProtocol.RefineEvict | kernel/bio.c:72-82 | A buffer that may be recycled is neither pinned nor changed, so recycling it loses nothing |
| LogProtocol.StepWriteLog | kernel/log.c:161-172 | Copying one block to the log changes nothing a reader or a recovery could see |
| LogProtocol.StepWriteHead | kernel/log.c:174-178 | The header write makes the whole group durable at once, while no operation is active |
| LogProtocol.StepInstall | kernel/log.c:65-77 | Installing one block and dropping its pin changes nothing a reader or a recovery could see |
| LogProtocol.StepClear | kernel/log.c:174-182 | Emptying the header after installation changes nothing durable |
| LogProtocol.StepReadHead | kernel/log.c:80-89 | Reading the header at boot changes nothing durable |
| LogProtocol.StepRefines | kernel/log.c:65-210 | Every step of every process keeps the invariant and is a step, or no step, of an atomic durable block store |
| LogRuns.RunKeepsInv | kernel/log.c:65-210 | The invariant holds throughout every run |
| LogRuns.DurableIsQuiescent | kernel/log.c:114-182 | At any time what a recovery would leave is what reads returned at some moment of the run when no operation was active: the writes of an operation become durable together or not at all |
| LogRuns.ReadsAreCoherent | kernel/bio.c:87-96 | The holder of a filled buffer sees the latest contents of its block |
| LogRuns.LoggedStaysCached | kernel/bio.c:126-136 | A logged block stays cached and cannot be recycled until it is installed |
| LogRuns.NoProtocolPanic | kernel/log.c:132-158 | end_op never finds a commit under way, log_write never runs outside an operation, and no other step panics |
| LogRuns.ReservedStep | kernel/log.c:114-128 | For operations of at most 10 different blocks, blocks logged plus what the active operations may still log never exceed LOGSIZE |
| LogRuns.LogWriteFits | kernel/log.c:196-197 | With room for LOGSIZE blocks, log_write does not panic for an operation with reservation left |
| LogRuns.LogWritePanicsIff | kernel/log.c:193-210 | With that room, log_write panics exactly if the log is full, and then only for a block its operation has logged before |
| LogRuns.NoSizeSuffices | kernel/log.c:196 | Whatever the size of the log, operations of 10 different blocks each reach the panic of a too big transaction |
| LogRuns.NoPanicIff | kernel/log.c:114-210 | With room for LOGSIZE blocks, a run of operations of at most 10 different blocks each is free of panics if and only if it never calls log_write while the log is full |
| LogRuns.NoPanic | kernel/log.c:114-210 | With room for LOGSIZE blocks, no run panics whose operations log at most 10 different blocks and none again once they have logged 10 |
| LogRuns.CapacityIff | mkfs/mkfs.c:30 | No run of such operations panics if and only if the log area has LOGSIZE + 1 blocks; mkfs makes LOGSIZE |
| LogRuns.ReplayLosesUpdates | kernel/log.c:65-77 | After any boot that replays a transaction, for any new contents: a run without a crash in which an update made as the interface asks is committed and lost |
| LogRuns.BootIff | kernel/log.c:106-111 | Until the next crash every run behaves as an atomic durable store, if and only if the log was empty at boot |
| LogRuns.UnloggedIsLost | kernel/fs.c:443-452 | A buffer that was changed and released without log_write may be recycled; reads then return the old contents, which no step of the abstract store does |
| LogRuns.UnloggedReached | kernel/fs.c:443-449 | For any block and any new contents, such a change is three calls away from boot |
| Bcache.Unlink | kernel/bio.c:115-116 | The two assignments take one node out of the ring |
| Bcache.LinkFront | kernel/bio.c:117-120 | The four assignments put a node after the head of the ring |
| Bcache.Oldest | kernel/bio.c:72-82 | The last unused buffer on the list is the one released longest ago |
| Bcache.ToFrontOk | kernel/bio.c:106-124 | Moving a released buffer to the front keeps the list a permutation of all buffers ordered by last release |
| Bcache.Cache.Binit | kernel/bio.c:35-50 | All buffers are on the ring, unused |
| Bcache.Cache.Bget | kernel/bio.c:55-84 | Finds the block's buffer, or recycles the least recently released unused one; a block never has two buffers; panics only if all are in use |
| Bcache.Cache.Bpin | kernel/bio.c:126-130 | Counts a reference and leaves the list alone |
| Bcache.Cache.Bunpin | kernel/bio.c:132-136 | Drops a reference and leaves the list alone, even if it was the last |
| Bcache.Cache.Brelse | kernel/bio.c:106-124 | Drops a reference; the last one moves the buffer to the front, and the ring stays whole |
| Bitmap.ByteWithBit | kernel/fs.c:66-68 | Setting or clearing a bit of a byte leaves the other bits |
| Bitmap.Mark | kernel/fs.c:58-92 | Marking a block changes its bit, no other bit and no other block |
| Bitmap.BitIs | kernel/fs.c:66-67 | Bit i of a byte is the bit of weight 2^i |
| Bitmap.UsedIs | kernel/fs.c:63-67 | The bitmap is an array of bytes from its first block on, and block b has bit b % 8 of byte b / 8 |
| FileSystems.FileSystem.Mkfs | mkfs/mkfs.c:229-241 | The image of an empty disk satisfies the invariant; the blocks before the data are in use, and no other |
| FileSystems.MarkFirst | mkfs/mkfs.c:229-241 | Sets exactly the first bits of the bitmap block |
| FileSystems.RootHole | mkfs/mkfs.c:161-165 | Rounding up the root directory's size leaves a hole exactly if the size was a multiple of the block size |
| FileSystems.FileSystem.Balloc | kernel/fs.c:58-78 | Takes the first free block and zeroes it; what it changes is logged; fails only if every block is in use |
| FileSystems.FileSystem.Bfree | kernel/fs.c:81-92 | Clears the block's bit and logs the change; panics exactly if it is clear already |
| Inodes.ByteAtIs | kernel/fs.c:344-368 | Where a byte of a file is on the disk: its first 12 blocks are named in the inode, the other 256 in the words of the indirect block, and what no block is named for reads as zero |
| Inodes.AttachDirect | kernel/fs.c:344-351 | A free block given to a file as a direct block keeps every block's single use and every byte of every file |
| Inodes.AttachIndirect | kernel/fs.c:354-357 | The same for a new indirect block |
| Inodes.AttachEntry | kernel/fs.c:358-364 | The same for a block listed in the indirect block |
| FileSystems.FileSystem.Bmap | kernel/fs.c:344-368 | Finds or allocates a block of a file; no byte of any file changes, everything changed or newly owned is logged, nothing changes if the block is there, and it fails only past the file limit or when no block is free |
| FileSystems.FileSystem.LoadIndirect | kernel/fs.c:354-357 | Finds or allocates the indirect block, with the same guarantees |
| FileSystems.FileSystem.BmapIndirect | kernel/fs.c:354-365 | Finds or allocates a block through the indirect block, with the same guarantees |
| Inodes.OwnedBlocks | kernel/fs.c:344-397 | The blocks of a file are exactly its indirect block and those its map finds |
| Inodes.FreeNext | kernel/fs.c:377-391 | The next block to free has its bit set, and clearing it frees that block only |
| Inodes.Truncated | kernel/fs.c:372-397 | Clearing exactly one file's bits and emptying its inode keeps the invariant and every other file |
| FileSystems.FileSystem.Itrunc | kernel/fs.c:372-397 | Frees exactly the file's blocks, the indirect one included, never a free block, and changes no other file; every changed block and the inode are logged |
| Inodes.StoreBlock | kernel/fs.c:443-452 | Storing into a file's block changes those bytes of that file and no byte of any other |
| FileSystems.WholeIs | kernel/fs.c:420-429 | A copy that can go no further counts all bytes if it could copy all, else those before the last start of a block it reached |
| FileSystems.ReadEndIs | kernel/fs.c:420-427 | A block is looked up exactly if it holds a byte of the range and all bytes of the range before it can be copied |
| FileSystems.FileSystem.Readi | kernel/fs.c:413-430 | Delivers the file's bytes from the offset on: none beyond the end of the file or if the range overflows, else as many as asked for, or as there is room for, or up to the end of the file; all are counted unless the room was too small, and then those up to the last start of a block; everything stays as it was exactly if every block looked up is there, each that is not is allocated and logged, and the inode changes exactly if it did not lead to one of them and is then not logged; fails only at a missing block when every block is in use |
| FileSystems.InReadBmap | kernel/fs.c:420-421 | Looking up one more block keeps what the read so far has left: the same bytes, new blocks logged, the inode not |
| FileSystems.FileSystem.ReadBlock | kernel/fs.c:421 | The block with the file's bytes, found or allocated; fails only if it is missing and every block is in use |
| FileSystems.ReadPresent | kernel/fs.c:413-430 | A file without holes has every block a read looks up |
| FileSystems.FileSystem.FileRead | kernel/file.c:101-104 | Outside of operations succeeds exactly if every block looked up is there, and then changes nothing; on success delivers and counts what readi does, in the same terms, and moves the offset by the count |
| FileSystems.SizeSet | kernel/fs.c:454-460 | Setting the size to the end of the write changes no byte and leaves no hole below the size |
| FileSystems.FileSystem.Writei | kernel/fs.c:436-463 | Refuses exactly a write that starts beyond the end of the file, overflows, or passes 268 blocks; otherwise splices the readable bytes in at the offset, sets the size to the maximum over whole blocks copied, keeps all other bytes of all files, and reports n, which is what the size counts exactly if all bytes could be read; every changed block is logged exactly if none is torn, and a changed inode always; fails only at a missing block when every block is in use |
| FileSystems.FileSystem.Resize | kernel/fs.c:454-460 | The size is the larger of the old one and the end of the write; the inode's block is logged |
| FileSystems.PartCopy | kernel/fs.c:446-449 | Releasing the partly copied block without log_write leaves every changed block logged exactly if no byte moved is different, or the block is new or was logged before |
| FileSystems.ChunkBound | kernel/file.c:131-146 | One chunk logs at most 10 blocks for a file without holes, and at most 7 with one bitmap block |
| FileSystems.ReportedIff | kernel/file.c:131-152 | After a failed copy filewrite reports success exactly if that was in the last chunk or the file was long enough before for the last chunk to be accepted |
| FileSystems.AcceptedIs | kernel/file.c:131-152 | If all bytes can be read, filewrite stores all of them, or none beyond the end of the file, or as many whole chunks of 3072 bytes as fit below the largest file |
| FileSystems.FileSystem.FileWrite | kernel/file.c:131-152 | The operations of the chunked write lead from the state before to the state after; each writes 3072 bytes or the last ones, as writei does, stays within those bounds and logs all it changes exactly if it tears no block; it stops early only before a chunk that starts beyond the end of the file or would pass the largest file; offset, size, result and contents follow the chunks accepted, whichever bytes can be read; if all can, the file gets all of them or those of the chunks before the refused one |
| FileSystems.AllLogged | kernel/file.c:131-152 | If all bytes can be read, every operation of the write has logged all it changed |
| FileExamples.TornWrite | kernel/fs.c:443-463 | A write of two bytes of which one can be read succeeds, and the block it changed is not logged |
| FileExamples.HoleRead | mkfs/mkfs.c:161-165 | Reading at the end of a root directory whose entries fill a block gives the directory a block, allocated and logged, and changes its inode, which is not logged |
| FileExamples.RootWithHole | mkfs/mkfs.c:161-165 | A root directory in which a read at the end looks up a missing block |
| Directories.Cut | kernel/fs.c:467 | What is kept of a name is its first 14 characters, or all of a shorter one |
| Directories.DirLookup | kernel/fs.c:471-489 | Finds the first entry in use with the name cut to 14 characters, or that there is none |
| Directories.DirLink | kernel/fs.c:492-514 | Adds the name exactly if it is not there, in the first empty entry |
| Directories.LinkMaps | kernel/fs.c:492-514 | As a map from names, the directory has that name more and is otherwise the same |
| Directories.UnlinkMaps | kernel/sysfile.c:180-181 | As a map from names, the directory has that name less and is otherwise the same |
| Directories.IsDirEmpty | kernel/sysfile.c:141-150 | True exactly if no entry but the first two is in use |
| Directories.LinkOk | kernel/sysfile.c:95-138 | A new name for a file in a linked directory keeps every link count equal to the number of names |
| Directories.CreateOk | kernel/sysfile.c:202-238 | Creating a file, device or directory in a linked directory keeps every link count |
| Directories.UnlinkFileOk | kernel/sysfile.c:152-200 | Removing a file's name keeps every link count |
| Directories.UnlinkDirCounts | kernel/sysfile.c:152-200 | An empty directory has one link, and its parent more than one |
| Directories.UnlinkDirOk | kernel/sysfile.c:152-200 | Removing an empty directory keeps every link count, that of its parent included |
| Directories.FreeOk | kernel/fs.c:303-327 | Freeing an inode without links keeps the tree in order |
| Directories.Tree.constructor | mkfs/mkfs.c:114-125 | A root directory with its two entries satisfies the invariant |
| Directories.Tree.Create | kernel/sysfile.c:202-238 | Returns the existing file or device, fails for any other existing name, panics exactly for a new name without a free inode, or makes the first free inode one of the kind asked for with one link and no entries, or the two dots for a directory, which gives the parent a link, and adds the name; the tree stays in order exactly if the parent is linked or nothing was made |
| Directories.Tree.Link | kernel/sysfile.c:95-138 | Succeeds exactly for a file and a new name, otherwise everything is as before; the tree stays in order exactly if the parent is linked or the call failed |
| Directories.Tree.Unlink | kernel/sysfile.c:152-200 | Succeeds exactly for a name other than the two dots that leads to a file or an empty directory, and takes that name and one link; never panics at a link count below 1, and keeps the tree in order, in any directory, linked or not |
| Directories.Tree.Iput | kernel/fs.c:303-327 | Gives up a reference; the last one frees an inode without links, and nothing else happens |
| Directories.CreateIff | kernel/sysfile.c:202-238 | Creating a file, a device or a directory keeps the link counts right if and only if the parent is linked |
| Directories.LinkIff | kernel/sysfile.c:95-138 | Linking a file keeps the link counts right if and only if the parent is linked |
| Directories.UnlinkOk | kernel/sysfile.c:152-200 | Removing a name keeps the tree in order, whatever directory it is in |
| Directories.UnlinkHollow | kernel/sysfile.c:152-200 | Removing an empty directory leaves an unlinked one that holds nothing but the two dots |
| Directories.NameHasLink | kernel/sysfile.c:174 | Any name but the two dots is in a linked directory and leads to an inode with a link |
| Directories.UnlinkedParent | kernel/sysfile.c:152-238 | A directory made and removed leaves the tree in order; any create in it and a link into it make link counts wrong |
| PageTables.EncodeDecode | kernel/riscv.h:349-353 | Page number and flags survive the 64-bit form of an entry |
| PageTables.EncodeBits | kernel/riscv.h:341-353 | The page number stands above bit 10 of an entry, and V, R, W, X and U are its bits 0 to 4 |
| PageTables.IndexIsVpn | kernel/riscv.h:356-358 | The index at each level is the nine bits of the address from bit 12, 21 or 30 on, and the three with the offset make up the address |
| PageTables.TranslateIsFlat | kernel/vm.c:67-81 | The walk of the hardware on virtual addresses, with each level's nine bits taken from the address, finds exactly the entries of the flat map |
| PageTables.LoadIsByteAt | kernel/vm.c:67-98 | What a load through the page table reads is the byte that the model says is at the address |
| PageTables.AddTable | kernel/vm.c:74-78 | Hanging a zeroed table into an empty slot changes no translation of any tree |
| PageTables.SetLeaf | kernel/vm.c:127-142 | Storing an entry changes that translation and no other of any tree |
| PageTables.Room | kernel/vm.c:190-211 | Growing user memory never reaches a mapped page: memory runs out before |
| PageTables.Undone | kernel/vm.c:190-226 | Undoing pages added where nothing was mapped leaves only new tables |
| VirtualMemory.PhysicalMemory.Kinit | kernel/kalloc.c:26-35 | Every page of the range is free, once |
| VirtualMemory.PhysicalMemory.Kalloc | kernel/kalloc.c:60-70 | Takes the first free page, filled with junk; fails only if none is free |
| VirtualMemory.PhysicalMemory.Kfree | kernel/kalloc.c:41-55 | Gives a page back, filled with junk; panics exactly outside the range |
| VirtualMemory.PhysicalMemory.Walk | kernel/vm.c:67-81 | Finds the slot of the entry to which the address leads, by its nine bits for each level, adding at most two tables if asked to; no translation changes |
| VirtualMemory.PhysicalMemory.WalkAddr | kernel/vm.c:86-98 | Finds the page exactly if the process may use it |
| VirtualMemory.PhysicalMemory.MapPages | kernel/vm.c:127-142 | Maps a prefix of the pages from that of the first byte to that of the last, all of them on success; every other translation stays; panics only at a mapped page or past the limit |
| VirtualMemory.PhysicalMemory.MapRun | kernel/vm.c:133-142 | The loop on page numbers, with the same guarantees |
| VirtualMemory.PagesTouched | kernel/vm.c:131-132 | The pages gone through are exactly those that hold one of the bytes, if there are any |
| VirtualMemory.NoBytes | kernel/vm.c:131-132 | For no bytes, one page or more than there are |
| VirtualMemory.PhysicalMemory.UvmUnmap | kernel/vm.c:147-163 | Unmaps exactly these pages and gives back exactly their memory if asked to; panics exactly at the first page whose entry is missing, not valid, or has no flag but V |
| VirtualMemory.PhysicalMemory.UvmCreate | kernel/vm.c:167-173 | A new tree that maps nothing; no other translation changes |
| VirtualMemory.PhysicalMemory.AddPage | kernel/vm.c:198-208 | One page of memory with its contents mapped, or nothing but new tables |
| VirtualMemory.PhysicalMemory.UvmAlloc | kernel/vm.c:190-211 | Adds pages whose bytes are zero and that the process may read, write and execute; on failure at any allocation every page taken is given back and every mapping is as before |
| VirtualMemory.PhysicalMemory.UvmDealloc | kernel/vm.c:217-226 | Gives back exactly the pages between the sizes |
| VirtualMemory.PhysicalMemory.FreeWalk | kernel/vm.c:230-244 | Gives back each table of the subtree once and nothing else |
| VirtualMemory.PhysicalMemory.UvmFree | kernel/vm.c:248-251 | Gives back exactly the tree's user memory and tables; every other tree keeps its mappings and its data |
| VirtualMemory.PhysicalMemory.UvmCopy | kernel/vm.c:259-282 | The child gets pages of its own with the same flags and contents; on failure at any allocation every page taken is given back |
| VirtualMemory.PhysicalMemory.UvmClear | kernel/vm.c:286-292 | Clears the U flag of the page's entry, which otherwise stays, and changes no other translation |
| VirtualMemory.PhysicalMemory.CopyOut | kernel/vm.c:297-313 | Stores the bytes up to the first page the process cannot use; no other byte of any process changes; fails exactly at such a page |
| VirtualMemory.PhysicalMemory.CopyIn | kernel/vm.c:318-334 | Reads the bytes up to the first page the process cannot use, and changes nothing |
| VirtualMemory.PhysicalMemory.CopyOutIn | kernel/vm.c:297-334 | What copyout stored, copyin returns; it succeeds exactly if every page can be used |
| Exec.CameAndWent | kernel/exec.c:102-108 | A tree made and given back again leaves every page's use and every byte of every process as they were |
| Exec.ProcPagetable | kernel/proc.c:143-167 | A page table with the two top pages only; on failure at any allocation nothing has changed |
| Exec.TopPages | kernel/proc.c:150-164 | The trampoline is mapped at the top page, to be read and executed, the trapframe below it, to be read and written, and neither for the process |
| Exec.ProcFreePagetable | kernel/proc.c:171-175 | Gives back the tree and its user memory, not the two top pages; every other process keeps its mappings and bytes; freewalk and uvmunmap do not panic |
| Exec.LoadSeg | kernel/exec.c:115-132 | Succeeds exactly if the file has the bytes, which are then in memory at the segment's address; no other byte of any process changes; the address always exists |
| Exec.LoadPage | kernel/exec.c:122-128 | The bytes are in the page at the address, and no other byte of any process changes |
| Exec.LoadProgram | kernel/exec.c:36-47 | Every byte of the new memory is what the last segment covering it says, or zero; fails only for a bad header or without memory |
| Exec.SizeIsMax | kernel/exec.c:42-44 | The size of the program is the end of some segment, and none ends beyond it |
| Exec.ProgramByteIs | kernel/exec.c:36-47 | A byte of the program is the byte of the file that the last segment covering it names |
| Exec.ProgramByteZero | kernel/exec.c:36-47 | A byte that no segment covers is zero |
| Exec.Extend | kernel/exec.c:42-44 | Room for the next segment: memory up to the larger end is there and zero where no segment was |
| Exec.StackLayout | kernel/exec.c:65-79 | Each string, and the array below them, starts at the highest multiple of 16 that leaves room for it; they fit if there are at most 32 and all within 4096 bytes |
| Exec.ArgvStands | kernel/exec.c:65-80 | The array on the stack, read as 64-bit numbers with the low byte first, holds the addresses of the arguments and a null pointer |
| Exec.PushArguments | kernel/exec.c:65-80 | Succeeds exactly if at most 32 arguments and their pointers fit in one page; then the eight bytes for argument k, from the stack pointer on, are an address above the array and below the end of the stack at which the argument and its NUL stand, and the word after them is zero |
| Exec.SetUpStack | kernel/exec.c:55-80 | A page nobody can use, above it the stack on which main finds its arguments through the array at the stack pointer, below it the program unchanged |
| Exec.Exec | kernel/exec.c:12-109 | On any failure no page is lost and no byte of any process is different; on success the new image is complete and contiguous, main finds its arguments through the array at the stack pointer, exactly the old one's pages are given back, and nothing else changed; failure has a reason among bad headers, bad arguments and lack of memory |
| Fork.BornAndReaped | kernel/proc.c:239-243 | A process made and reaped again leaves every page's use and every byte of every process as they were |
| Fork.AllocProc | kernel/proc.c:100-112 | A page for the trapframe and an empty page table; on failure at any allocation nothing has changed |
| Fork.FreeProc | kernel/proc.c:126-131 | Gives back exactly the trapframe page, the user memory and the tables of the process; every other process keeps its mappings and bytes |
| Fork.Fork | kernel/proc.c:228-244 | The child's memory equals the parent's at every address and shares no page with it, and the parent's is unchanged; on failure at any allocation no page is lost and no byte of any process is different |
| Processes.StepKeepsInv | kernel/proc.c:228-602 | Every step of every CPU keeps the invariant of the process table |
| Processes.OthersKept | kernel/proc.c:443-506 | A step of one CPU does not disturb what another CPU relies on |
| ProcessRuns.RunKeepsInv | kernel/proc.c:228-602 | The invariant holds throughout every run from boot |
| ProcessRuns.RunningOnOneCpu | kernel/proc.c:443-506 | Whenever a process's lock is free, it is RUNNING exactly if it is the process of a CPU, and of one only |
| ProcessRuns.ParentsAlive | kernel/proc.c:272-377 | Every process except init has a parent that is neither unused nor a zombie |
| ProcessRuns.NoZombieOfSleeper | kernel/proc.c:308-434 | A process other than init that is asleep in wait has no zombie child |
| ProcessRuns.ReapedByParent | kernel/proc.c:381-434 | A zombie ends only by being freed, by its current parent |
| ProcessRuns.InitStepIff | kernel/proc.c:272-434 | A step keeps init from being asleep in wait with a zombie child if and only if it is none of three: an exit that read another parent, reparent handing over a zombie, init about to sleep past a zombie |
| ProcessRuns.InitRunIff | kernel/proc.c:272-434 | Throughout a run from boot init asleep in wait has no zombie child, if and only if no step of the run is one of these |
| ProcessRuns.NohangNeverSleeps | kernel/proc.c:381-434 | wait with the flag never sleeps |
| ProcessRuns.StateDiagram | kernel/proc.c:228-602 | In every run an entry moves along the arrows of the state diagram, each exactly when its step is taken: fork makes a child of the caller, the scheduler runs what is runnable, yield, sleep and a wait that found children give up the CPU, wakeup, the exit of a child and kill wake exactly who sleeps there, exit leaves a zombie without children, and its parent frees it; only kill marks a process, only freeing takes the mark away, and only the exit of its parent gives it to init |
| ProcessRuns.KillTakesEffect | kernel/proc.c:584-602 | After a kill the process is marked and not asleep |
| ProcessRuns.KilledUntilFreed | kernel/proc.c:126-139 | It stays marked until a step frees its entry |
| ProcessRuns.WaitEnds | kernel/proc.c:417-433 | When the scan of wait ends without a zombie, a killed process, one with the flag and one without children are back at once, running and without the lock; any other but init falls asleep |
| ProcessRuns.SleeperHasChild | kernel/proc.c:381-434 | A process asleep in wait has a child |
| ProcessRuns.ForkMeets | kernel/proc.c:84-95 | Every entry the search for a free one has passed was in use when it came by |
| ProcessRuns.SchedulerMeets | kernel/proc.c:453-470 | Every entry the scheduler has passed was not runnable when it came by |
| ProcessRuns.KilledNeverWaits | kernel/proc.c:381-602 | In every run a process asleep in wait has not been killed |
| ProcessRuns.NoLostWakeup | kernel/proc.c:529-571 | A process that has given up the condition's lock to sleep when a wakeup on its channel begins is made runnable before that wakeup ends |
| InitRace.InitSleepsWithZombie | kernel/proc.c:308-377 | A reachable state in which init sleeps in wait, its lock is free, and its child is a zombie |
| ReparentRace.InitGivenZombie | kernel/proc.c:272-291 | A reachable step in which reparent gives a zombie to init asleep in wait, although the exiting process has read its right parent |
| Pipes.TestsExact | kernel/pipe.c:74-104 | Across the wrap-around of the counters the tests for empty and full are exact |
| Pipes.StoreByte | kernel/pipe.c:82-83 | Storing a byte keeps the ring's contents the bytes written and not yet taken, in order |
| Pipes.TakeByte | kernel/pipe.c:105-106 | Taking a byte, delivered or lost to a failed copy, keeps them |
| Pipes.StepReaders | kernel/pipe.c:67-111 | A step keeps sleeping readers to an empty open pipe exactly if it does not abandon one |
| Pipes.StepWriters | kernel/pipe.c:67-111 | Every step keeps sleeping writers to a full open pipe |
| Pipes.RunInv | kernel/pipe.c:51-111 | The invariant holds throughout every run of any number of readers and writers |
| Pipes.Fifo | kernel/pipe.c:67-111 | What was delivered is what was written first, in order, but for one byte per failed copy, and at most 512 bytes are in the pipe |
| Pipes.Merged | kernel/pipe.c:67-88 | What was stored is a merge of what the processes write: the bytes of each are those its calls have stored, each call a beginning of what it was given, in the order of the calls |
| Pipes.CallBegan | kernel/pipe.c:67-88 | What a call stores comes from the bytes it was started with |
| Pipes.OneWriter | kernel/pipe.c:67-111 | With one call that writes, what was stored is a beginning of its bytes, and so is what was delivered if no copy failed |
| Pipes.WriteRound | kernel/pipe.c:73-85 | A call to write ends exactly when all is stored, when 512 bytes are in the pipe and it is killed or no reader is left, or when its copy fails; it sleeps exactly at 512 bytes otherwise |
| Pipes.ReadRound | kernel/pipe.c:96-108 | A call to read waits exactly while nothing is in the pipe, a writer is left and it is not killed; then it takes the bytes in the order in which they were stored, until it has enough or none is left |
| Pipes.ReadDelivers | kernel/pipe.c:103-107 | The bytes that a read has counted were delivered to it in a row |
| Pipes.KilledAwake | kernel/pipe.c:74-102 | A process hit by a kill is not asleep in the pipe |
| Pipes.SleepingReadersIff | kernel/pipe.c:67-111 | In a run a sleeping reader always means an empty open pipe if and only if no step abandons a reader |
| Pipes.KilledWriterLeavesReader | kernel/pipe.c:74-78 | A reachable state in which a reader sleeps on a full pipe that nobody holds |
| Virtio.TwoChains | kernel/virtio_disk.c:139-148 | At most two requests are in flight |
| Virtio.PendingExact | kernel/virtio_disk.c:231-247 | On either ring, comparing the indices modulo 8 tells exactly whether a head is pending |
| Virtio.SectorIff | kernel/virtio_disk.c:151 | A block's sector is twice its number exactly below 2^31, and two blocks share a sector exactly if their numbers agree modulo 2^31 |
| Virtio.RingAppend | kernel/virtio_disk.c:214-216 | A head put on a ring overwrites none that is pending |
| Virtio.RingPop | kernel/virtio_disk.c:234-243 | The slot looked at next holds the oldest pending head |
| Virtio.DeviceFinds | kernel/virtio_disk.c:171-204 | Following the three descriptors, the device finds the request submitted |
| Virtio.AddChain | kernel/virtio_disk.c:150-204 | Three free descriptors become a chain disjoint from the others |
| Virtio.DropChain | kernel/virtio_disk.c:129-137 | Taking a chain apart frees exactly its three descriptors |
| Virtio.DiskQueue.constructor | kernel/virtio_disk.c:49-106 | All descriptors are free and nothing is pending |
| Virtio.DiskQueue.AllocDesc | kernel/virtio_disk.c:109-117 | Takes the first free descriptor; fails only if there is none |
| Virtio.DiskQueue.FreeDesc | kernel/virtio_disk.c:120-126 | Clears and frees a descriptor; panics exactly for a bad or a free one |
| Virtio.DiskQueue.FreeChain | kernel/virtio_disk.c:129-137 | Frees the three descriptors of a chain, each once, without panic |
| Virtio.DiskQueue.Alloc3Desc | kernel/virtio_disk.c:139-148 | Takes three different free descriptors, or none, and none only if fewer than three are free |
| Virtio.DiskQueue.Submit | kernel/virtio_disk.c:150-216 | The request is offered on the avail ring, in the slot and under the index the device expects, under a head that no live request has, with status 0 and its buffer marked: three descriptors with the header of 16 bytes, the 1024 bytes of the buffer and the status byte, each to be read or written by the device as the direction asks; without three free descriptors nothing happens |
| Virtio.DiskQueue.Fetch | kernel/virtio_disk.c:214-218 | The device takes the oldest request offered and finds its direction, sector and buffer; it finds none exactly if none is pending |
| Virtio.DiskQueue.Complete | kernel/virtio_disk.c:231-247 | The device may complete any request it has, in any order, and puts its head in the next slot of the used ring; with status 0 exactly the data of that request has moved |
| Virtio.DiskQueue.Intr | kernel/virtio_disk.c:231-247 | The completed requests are seen in order, each once, and their buffers given up; panics exactly at the first that failed |
| Virtio.DiskQueue.Finish | kernel/virtio_disk.c:220-229 | A waiter goes on only after its own request was seen, and frees its own chain |
| Umalloc.NUnits | user/umalloc.c:60 | The fewest units that hold a header and the bytes |
| Umalloc.SbrkRequest | user/umalloc.c:43-54 | sbrk is asked for the right amount exactly for requests up to 0x7FFFFFE0 bytes |
| Umalloc.FoundBefore | user/umalloc.c:28-29 | free's test holds exactly at the last block before the one to insert |
| Umalloc.StepAhead | user/umalloc.c:65-79 | Each step of the search leaves one block less before the starting point |
| Umalloc.FullCircle | user/umalloc.c:65-79 | A search round the list meets every block |
| Umalloc.FreeOk | user/umalloc.c:24-41 | Inserting with both merges keeps the list circular, ordered, disjoint and coalesced |
| Umalloc.UnitsAccounted | user/umalloc.c:24-80 | The units obtained from sbrk are those of the free and the live blocks, each in exactly one |
| Umalloc.Allocator.constructor | user/umalloc.c:61-64 | Before the first call there is no list and no memory |
| Umalloc.Allocator.FindPlace | user/umalloc.c:27-29 | The loop ends at the block after which the freed one belongs |
| Umalloc.Allocator.Free | user/umalloc.c:24-41 | The block is free and merged with its neighbours; every live block stays as it was, no unit is lost |
| Umalloc.Allocator.Merge | user/umalloc.c:30-40 | The two tests and their assignments give the headers of the list with the block merged into its neighbours |
| Umalloc.Allocator.Morecore | user/umalloc.c:43-54 | New memory is on the list, also when it merges with the block the search stands at; on failure nothing changes |
| Umalloc.Allocator.Malloc | user/umalloc.c:56-80 | Terminates with a block of enough units apart from all live ones, or fails only if sbrk does and no free block is large enough |
| Umalloc.Allocator.Take | user/umalloc.c:66-75 | Hands out a whole block or its tail; the rest stays on the list |
| Shell.PrintParse | user/sh.c:304-389 | Parsing the parenthesised printing of a command with fewer than 10 arguments each gives that command, and stops where it ends |
| Shell.MapLine | user/sh.c:304-389 | The parser does not look into words |
| Shell.LineWords | user/sh.c:304-389 | Every word of a parsed command is a word of the input |
| ShellParser.GetToken | user/sh.c:237-273 | The next token and where it is; the cursor moves behind it |
| ShellParser.Peek | user/sh.c:275-282 | Whether the next token begins with one of the characters; no token is consumed |
| ShellParser.LexKeeps | user/sh.c:237-273 | The tokens, one after the other, are the line without its white space; words have neither symbols nor white space in them |
| ShellParser.ParseCmd | user/sh.c:289-302 | Accepted input is consumed to its end and gives the command of the grammar |
| ShellParser.ParseLineAt | user/sh.c:304-317 | Follows the grammar on the tokens at the cursor, and terminates |
| ShellParser.ParsePipeAt | user/sh.c:319-328 | Follows the grammar on the tokens at the cursor, and terminates |
| ShellParser.ParseRedirections | user/sh.c:330-350 | Follows the grammar on the tokens at the cursor, and terminates |
| ShellParser.ParseBlockAt | user/sh.c:352-362 | Follows the grammar on the tokens at the cursor, and terminates |
| ShellParser.ParseExecAt | user/sh.c:364-389 | Follows the grammar on the tokens at the cursor, and terminates |
| ShellParser.NulTerminate | user/sh.c:392-432 | Stores a NUL exactly at the ends of the command's words |
| ShellParser.ArgumentsAreTokens | user/sh.c:392-432 | Afterwards each argument and file name, read as a C string, is its token's text |
| ShellParser.ParseOfText | user/sh.c:289-389 | Parsing the text of a parenthesised command gives that command |
| ShellGrammar.ItemsParse | user/sh.c:364-389 | A simple command of arguments and redirections in any order, as in `cat < in > out x`, gives all the arguments in order inside the redirections, the first innermost |
| ShellGrammar.LineParse | user/sh.c:304-389 | Every tree of the grammar is parsed, and gives the command it stands for |
| ShellGrammar.LineParsed | user/sh.c:304-389 | What is parsed is what stands in a tree of the grammar, and the command is that tree's |
| ShellGrammar.ParsesGrammar | user/sh.c:289-389 | The parser accepts exactly what the grammar derives, with the same command |
| Grep.HereEnd | user/grep.c:78 | A final dollar sign matches exactly at the end of the text |
| Grep.HereOne | user/grep.c:79 | A plain character or dot consumes one character |
| Grep.HereStar | user/grep.c:84-89 | A starred character takes any number of characters that fit |
| Grep.MatchHere | user/grep.c:75-81 | True exactly if a prefix of the text from here on is in the pattern's language |
| Grep.MatchStar | user/grep.c:84-89 | The same for a starred character before the rest of the pattern |
| Grep.Match | user/grep.c:66-72 | True exactly if some part of the text is in the pattern's language, at its beginning if anchored |

## Left out

- Inodes on disk (iupdate, ialloc, iget, ilock and the reference counts of fs.c): inodes are records in memory.
- Path names (skipelem, namex): the directory operations take the directory and the last name.
- Open files, system calls and their arguments (file.c but for fileread and filewrite of inodes, sysfile.c but for link, unlink and create, sysproc.c, syscall.c).
- The files mkfs copies: FileSystems.RootHole and FileExamples.HoleRead treat the root's size on its own.
- Sleep locks and spin locks: a lock is a field with its holder; nesting of push_off and pop_off, interrupts and weak memory are not modelled.
- Traps, context switches in assembly, UART, PLIC, console, timer and boot: swtch is a hand-over of control and of the process's lock.
- MMIO registers, feature negotiation and memory barriers of the disk: the device is steps that take the oldest request offered and complete any request taken.
- The kernel's own page table (kvminit, kvmmap, kvmpa), uvminit and copyinstr: they would repeat the arguments made for user page tables.
- pids, names, exit status and the messages about exiting processes: processes are entries of the table, and kill names an entry.
- allocproc's stale pid in an unused entry: pids are not modelled.
- Liveness: it is proved that wakeups are not lost, not that a runnable process is scheduled.
- Steps of the protocols: a read of log.lh.n before the log's lock is taken is part of log_write's step, and a block is written in one step.
- LogProtocol.StepRefines: a boot that replayed a transaction is followed only to its next crash, because LogRuns.BootIff shows that nothing holds after it.
- LogRuns.CapacityIff: asks for 30 home blocks behind the log area, without which the log cannot be filled.
- Directories.Tree.Link: counts are unbounded, 16 bits in the code.
- FileSystems.FileSystem.Mkfs: the image has no root directory and no files (iappend), and one bitmap block, as mkfs's own assertion asks.
- Umalloc.Allocator.Malloc: when sbrk gives memory, the request is at most 0x7FFFFFE0 bytes, because Umalloc.SbrkRequest shows that sbrk is asked for another amount otherwise; sbrk's answer is a parameter, above all memory given before.
- Umalloc.Allocator.Free: asks for a live block, as the interface does.
- Fork.Fork: open files, the saved registers in the trapframe and the entry of the process table are not part of it; module Processes has the entry.
- Exec.Exec: the ELF header and the program headers come as parameters, as far as they can be read; locks on the inode, the log operation and the registers are not modelled.
- Directories.Tree.Iput: the count of references is a parameter, and the inode is taken to be loaded.
- Fork.AllocProc: the entry, its pid and its context are not part of it; module Processes has the entry.
- LogRuns.ReplayLosesUpdates: recycling asks for no pressure on the cache, so the run needs a disk with more blocks than buffers.
- LogRuns.BootIff: the same.
- LogRuns.NoPanic: keeps operations from logging a block again once they have logged 10, because LogRuns.NoSizeSuffices shows that they panic otherwise; LogRuns.NoPanicIff has all runs.
- LogRuns.NoSizeSuffices: asks for 30 home blocks behind the log area, like LogRuns.CapacityIff.
