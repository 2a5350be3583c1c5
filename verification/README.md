# xv6: a verified model of the kernel core

A Dafny 4.11 model of the parts of xv6 (x86, with the `mmap`/`munmap` extension) whose correctness
rests on more than one function: the crash-safe file system, the allocators and address spaces, the
sleep/wakeup protocols, and the shell's parser. Check it with `dafny verify dfyconfig.toml`.

**File system.** `LogDisk` is the on-disk log: a commit and a recovery as sequences of single-block
writes, and what recovery makes of a crash between any two of them. `CrashLog` is `log.c` as a class
whose ghost field records every disk the code passes through. `LogProtocol` runs any number of
processes through `begin_op`, `log_write` and `end_op`, with crashes anywhere, and settles exactly when
the log can overflow. `BufferList` and `BufferCache` are `bio.c` over the memory disk, and `LogCache`
runs a commit through that cache: the same writes as `CrashLog`, with the buffers it needs. `Inodes`,
`FileSystem` and `FileWrite` are block allocation, `bmap`, reading, writing, truncation and the
chunking of `filewrite`; `TightWrite` and `TightTruncate` show when chunks and truncations use up the
log's reservation. `DiskFormat` is the bytes of bitmap and inode blocks, and `CrashSafety` runs
transactions through the log: after a crash at any disk write, the file system read back from the disk
has a whole number of chunks. `Mkfs` builds the image they start from. `Directories`, `LinkCounts`,
`Paths` and `Namespace` are directories as finite maps, link counts, path lookup and the system calls on
them; `DirBytes` and `NamesOnDisk` do those calls on the bytes of directory files, each in one
transaction that a crash leaves done or undone.

**Memory.** `Umalloc` is the user allocator with its circular coalescing free list. `PageTables` and
`Vm` are the frame pool and two-level page tables as flat maps, from `kalloc` to `fork`'s copy.
`Mmap` is the descriptor table of `mmap`.

**Processes.** `Processes` is the process table, the scheduler, sleep locks, `wait` and `exit` for any
number of processes and CPUs. `PipeRing` and `PipeProtocol` are the data and the sleeping of pipes.

**Languages.** `ShellGrammar`, `ShellLexer` and `Shell` are the command parser of `sh.c`; `Grep` is the
pattern matcher.

Code that works in place is a class with methods and loops; protocols between processes are state
machines over the smallest steps another CPU can see. A kernel panic is a result, not an excluded case.
Where the code does not do what its own comments say, the code is modelled as it is, the failing case is
given, and the exact condition is proved: the log's size check (`LogSufficesIff`,
`RacingWritesCanOverrun`), the root directory's size (`RoundedSize`, `Build`), names made in an unlinked
directory (`Create`, `Link`, `UnlinkedParentRun`), a killed pipe writer (`StepKeepsIff`,
`RunKeepsIff`, `KilledWriterLosesWakeup`), truncation on a disk with many bitmap blocks (`Truncate`,
`TruncateOverrun`), `sbrk` down to size 0 (`Growproc`), `mmap` on a closed descriptor or past its region
(`Map`), `munmap` of anonymous memory, which succeeds and overwrites a word of the program (`Unmap`,
`AnonymousRun`), and of guarded memory, whose guard page stays (`UnmapUndoesMap`).

## Model

| member | source | states |
|---|---|---|
| LogDisk.HeaderRoundTrip | xv6-public/log.c:84-113 | the header block written for any list of blocks reads back as that list |
| LogDisk.InstalledBlock | xv6-public/log.c:68-82 | after any number of install steps each home block holds the last logged copy installed so far, every other block is untouched |
| LogDisk.RecoveryRestarts | xv6-public/log.c:115-122 | recovery interrupted after any of its writes and begun again ends with the same home blocks |
| LogDisk.RecoveriesAgree | xv6-public/log.c:115-122 | the same for any number of interrupted recoveries in a row |
| LogDisk.CrashBeforeHeader | xv6-public/log.c:176-202 | a crash before the header write recovers to the old home blocks |
| LogDisk.CrashAtHeader | xv6-public/log.c:98-113 | from the header write on, recovery yields the old home blocks overlaid with the whole transaction |
| LogDisk.CommitIsRecovery | xv6-public/log.c:192-202 | the rest of a commit after the header write is a recovery in progress |
| LogDisk.CrashAtomicity | xv6-public/log.c:68-202 | after a crash between any two writes of a commit, and any interrupted recoveries, the home blocks are all old or all new |
| CrashLog.Log.InstallTrans | xv6-public/log.c:68-82 | the disk becomes the installed one through exactly the single-block steps of the specification; other pending changes stay |
| CrashLog.Log.ReadHead | xv6-public/log.c:84-96 | the in-memory header becomes the list on disk |
| CrashLog.Log.WriteHead | xv6-public/log.c:98-113 | one write that makes the header on disk name the in-memory list |
| CrashLog.Log.WriteLog | xv6-public/log.c:176-190 | the log area receives the pending data in order, home blocks untouched, step by step |
| CrashLog.Log.Commit | xv6-public/log.c:192-202 | home blocks become what readers saw, nothing stays pending, and the disks passed through are those of CrashAtomicity |
| CrashLog.Log.RecoverFromLog | xv6-public/log.c:115-122 | the disk becomes the recovered one, through the steps RecoveryRestarts speaks of |
| CrashLog.Log.EndOp | xv6-public/log.c:143-174 | the last operation out commits everything logged; otherwise disk and pending changes stay |
| CrashLog.Log.LogWrite | xv6-public/log.c:204-233 | the block's new contents are what readers see, the header lists it once (absorption); the exact panic condition |
| CrashLog.CommitEffect | xv6-public/log.c:192-202 | a finished commit leaves on disk exactly what readers saw before it |
| LogProtocol.StepKeeps | xv6-public/log.c:124-233 | every step of every process, a commit step or a crash keeps the protocol's invariant |
| LogProtocol.ReachableStates | xv6-public/log.c:124-233 | in every run: committing implies nothing outstanding; the header on disk never names an open operation's block; whenever it is empty the home blocks hold exactly the durable writes; reservations never exceed LOGSIZE |
| LogProtocol.RecoversDurable | xv6-public/log.c:115-122 | at every moment recovery yields exactly the writes of the durable prefix of the history |
| LogProtocol.OperationsAtomic | xv6-public/log.c:124-233 | after any run, crash and interrupted recoveries, each operation is wholly on disk or not at all, in order |
| LogProtocol.ShortOpsNeverFault | xv6-public/log.c:213-221 | with operations of fewer than MAXOPBLOCKS blocks the size check never fires and the log never overruns |
| LogProtocol.FullOpsCanFault | xv6-public/log.c:218-219 | three operations within their budget can make the size check panic |
| LogProtocol.RacingWritesCanOverrun | xv6-public/log.c:218-230 | with the log mkfs lays out, two log_write calls that both passed the unlocked check run past the log's end |
| LogProtocol.LogSufficesIff | xv6-public/log.c:124-141 | no run can fault exactly when operations stay below MAXOPBLOCKS blocks |
| BufferList.TakeOut | xv6-public/bio.c:132-133 | joining a buffer's neighbours leaves the circular list without it, everything else in order |
| BufferList.PushFront | xv6-public/bio.c:50-54 | linking a buffer after the head puts it in front of the unchanged list |
| BufferCache.Cache.constructor | xv6-public/bio.c:38-56 | all NBUF buffers in one circular list, none given a block |
| BufferCache.Cache.Search | xv6-public/bio.c:68-76 | walking the list finds a buffer of the block exactly if there is one |
| BufferCache.Cache.Victim | xv6-public/bio.c:81-91 | the buffer found from the tail is the clean unreferenced one released longest ago; none exactly if there is none |
| BufferCache.Cache.Bget | xv6-public/bio.c:58-93 | one reference more to the block's only buffer, or to the victim, now that block's; no other buffer changes; panic exactly if the block is not cached and every buffer is pinned or referenced |
| BufferCache.Cache.Fill | xv6-public/memide.c:38-60 | an invalid buffer becomes what a reader should see; the exact panic condition |
| BufferCache.Cache.Bread | xv6-public/bio.c:95-106 | a locked buffer with the disk block overlaid with any pending logged change; no other buffer changes; the exact panic condition |
| BufferCache.Cache.Pin | xv6-public/log.c:231-231 | the buffer's contents become the block's pending change and it cannot be evicted |
| BufferCache.Cache.Bwrite | xv6-public/bio.c:108-116 | the disk block becomes the buffer's contents and nothing is pending for it |
| BufferCache.Cache.Drop | xv6-public/bio.c:128-140 | one reference less; with the last one the buffer is first in the list, which stays a permutation, and is the latest released |
| BufferCache.Recycle | xv6-public/bio.c:81-88 | giving a clean buffer to another block keeps one buffer per block and every pending change in the cache |
| LogCache.LogWrite | xv6-public/log.c:204-233 | on a locked buffer: listed in the header and pinned in the cache, or neither; the log and the cache go on agreeing on disk and pending changes |
| LogCache.WriteLog | xv6-public/log.c:176-190 | through bread, bwrite and brelse of single buffers: the log area receives the pinned contents, through exactly the disks of CrashLog; nothing is unpinned |
| LogCache.InstallTrans | xv6-public/log.c:68-82 | the logged blocks are installed and unpinned one by one, through exactly the disks of CrashLog |
| LogCache.Commit | xv6-public/log.c:192-202 | a commit through the cache passes through exactly the disks of CrashAtomicity and leaves nothing pinned; no bread in it panics |
| LogCache.SpareIff | xv6-public/bio.c:81-93 | a buffer is left for bget exactly if the pinned and the referenced ones together are fewer than all |
| LogCache.CommitHasBuffer | xv6-public/bio.c:81-93 | so a commit finds its buffer while logged blocks and held buffers together stay below NBUF |
| LogCache.LogLeavesOne | xv6-public/log.c:213-221 | the blocks that fit a log of LOGSIZE blocks are fewer than NBUF |
| Inodes.OwnedOnce | xv6-public/fs.c:372-400 | no block is named twice by inodes, and the set bits are exactly the metadata and the named blocks |
| FileSystem.FileSys.Balloc | xv6-public/fs.c:55-78 | the lowest clear bit is set and its block zeroed and logged; None exactly when every bit is set |
| FileSystem.FileSys.Bmap | xv6-public/fs.c:372-400 | the block of any file block, fresh and zeroed if there was none, through the indirect block too; no file's bytes change; exactly which blocks are logged; new blocks are the lowest free ones, and it fails exactly for too few of them |
| FileSystem.FileSys.Readi | xv6-public/fs.c:451-476 | exactly the slice of the file clipped to its size, under 32-bit checks; without holes nothing at all changes |
| FileSystem.FileSys.Writei | xv6-public/fs.c:480-511 | the file's bytes are spliced, no other file's bytes change, every block that differs was logged; without holes the inode on disk equals the one in memory, the logged blocks are exactly those of Logs, and it panics exactly if fewer blocks are free than the file grows by |
| FileSystem.WriteSplices | xv6-public/fs.c:480-511 | a write turns the contents of the file into the spliced sequence and leaves every other file's contents |
| FileSystem.LogsBound | xv6-public/fs.c:480-511 | those blocks are at most WriteCost many: the data blocks, a bitmap block per new block, the indirect block and its bitmap block, the inode |
| FileSystem.FileSys.Itrunc | xv6-public/fs.c:402-435 | exactly the file's blocks become free, each once, so bfree never panics; other files keep addresses and data; logged are exactly the bitmap blocks of those blocks and the inode's block |
| FileWrite.ChunkFits | xv6-public/file.c:140-146 | a chunk of a file without holes logs at most MAXOPBLOCKS blocks, whatever bitmap blocks the allocations hit |
| FileWrite.WriteChunk | xv6-public/file.c:153-160 | one transaction: spliced or refused, position moved, within the log's reservation, everything that changed on disk logged; the exact panic condition |
| FileWrite.Filewrite | xv6-public/file.c:129-169 | the file ends up spliced with all the data or every whole chunk that fits, the position is past it, the result says which; panic exactly if fewer blocks are free than that needs; the states between its transactions each hold one chunk more |
| TightWrite.WriteAtBrink | xv6-public/file.c:140-146 | if the four lowest clear bits lie in four bitmap blocks, a chunk appended to a file of 11 blocks and one byte logs exactly MAXOPBLOCKS blocks |
| TightWrite.BudgetSpent | xv6-public/file.c:140-146 | a clean file system, laid out as mkfs does, on which a chunk logs MAXOPBLOCKS blocks |
| TightTruncate.Truncate | xv6-public/fs.c:402-435 | a truncation logs at most one block more than there are bitmap blocks of data, so it fits an operation if those are fewer than MAXOPBLOCKS |
| TightTruncate.TruncateOverrun | xv6-public/fs.c:402-435 | on every other layout with two inodes or more, a clean file system whose truncation logs MAXOPBLOCKS + 1 blocks |
| DiskFormat.GetBits | xv6-public/fs.c:55-95 | the bits packed into a bitmap block are those balloc and bfree look at |
| DiskFormat.GetInodes | xv6-public/fs.c:216-236 | an inode stored in its block, shorts of either sign included, reads back |
| CrashSafety.CommitCut | xv6-public/log.c:176-202 | a commit of a file-system transaction cut after any of its writes is recovered to the file system before it or the one after it |
| CrashSafety.FilewriteCrashSafe | xv6-public/file.c:129-169 | stop filewrite at any disk write and recover, with recoveries that crash in turn: the file system is sound, the log empty, the file spliced with a whole number of chunks, all other files unchanged |
| CrashSafety.ShowsLoads | xv6-public/fs.h:14-48 | reading the bytes of a disk gives back the bitmap, inodes and data it was written from |
| CrashSafety.Restart | xv6-public/log.c:53-66 | a file system started from the bytes of a disk that holds a sound one is clean and has the same files |
| CrashSafety.TransactionReadBack | xv6-public/log.c:53-202 | any transaction stopped at any disk write and recovered: what is then read from the disk is sound and has the files from before it or those after it |
| CrashSafety.FilewriteReadBack | xv6-public/file.c:129-169 | the same for filewrite: the file read back is spliced with a whole number of chunks |
| CrashSafety.DiskFor | xv6-public/fs.h:14-48 | every file system has a disk that holds it, with an empty log |
| Mkfs.Image.Ialloc | xv6-public/mkfs.c:223-235 | the next inode with one link; nothing else changes |
| Mkfs.Image.Iappend | xv6-public/mkfs.c:255-297 | the file's contents are extended by exactly the bytes; no holes, every other inode untouched; fails exactly if the file would pass the largest size or its new blocks the end of the image |
| Mkfs.Image.AppendFile | xv6-public/mkfs.c:152-153 | a whole host file, block by block, with the same exact failure condition as one append |
| Mkfs.Bitmap | xv6-public/mkfs.c:237-251 | the bits set are exactly those of the blocks used so far; refused exactly if they do not all lie in the first bitmap block |
| Mkfs.RoundedSize | xv6-public/mkfs.c:158-163 | rounding the root's size up leaves no hole exactly if it was not on a block boundary |
| Mkfs.Build | xv6-public/mkfs.c:67-168 | an image is made exactly if the files, the root directory and their blocks fit; it satisfies the file-system invariant and holds the files, without holes exactly if (2 + files) is no multiple of 32 |
| Directories.Strncpy | xv6-public/string.c:68-79 | the first 14 characters, padded with NULs |
| Directories.Namecmp | xv6-public/fs.c:516-520 | zero exactly if the entry's name stands for the string, else the difference of the first characters that differ |
| Directories.LinkedContents | xv6-public/fs.c:550-578 | entering a new name extends the directory's map by it and nothing else |
| Directories.UnlinkedContents | xv6-public/sysfile.c:405-407 | zeroing an entry removes its name from the map and nothing else |
| LinkCounts.FileEnteredConsistent | xv6-public/sysfile.c:324-336 | one more name for a file keeps all counts right exactly if the directory is still linked |
| LinkCounts.DirEnteredConsistent | xv6-public/sysfile.c:455-468 | making a directory keeps the counts and the tree below the root exactly if its parent is still linked |
| LinkCounts.EmptyNamedOnce | xv6-public/sysfile.c:399-415 | an empty directory is named by one entry only, so unlink takes its count to 0 |
| LinkCounts.FileDroppedConsistent | xv6-public/sysfile.c:405-416 | removing a file's name keeps all counts right |
| LinkCounts.DirDroppedConsistent | xv6-public/sysfile.c:405-416 | removing an empty directory keeps the counts and the tree below the root |
| LinkCounts.FreedConsistent | xv6-public/fs.c:331-352 | freeing an inode without links leaves no entry dangling in a linked directory |
| Paths.Skipelem | xv6-public/fs.c:583-618 | the next element, clipped to 14 characters, and the rest of the path; None exactly at its end |
| Paths.JoinedElements | xv6-public/fs.c:583-618 | cutting a path joined from names gives the names back |
| Paths.WalkThenStep | xv6-public/fs.c:640-650 | looking a path up is finding its parent and looking up the last element there |
| Paths.StepLive | xv6-public/fs.c:645-650 | from a linked directory a lookup leads to an inode in use, and to a linked directory if to a directory |
| Paths.LinkedReached | xv6-public/fs.c:620-657 | whenever the invariant holds, a path of names leads from the root to every linked directory |
| Namespace.Tree.constructor | xv6-public/mkfs.c:117-128 | the root directory of a new image satisfies every directory invariant |
| Namespace.Tree.Dirlookup | xv6-public/fs.c:522-548 | the entry of the name, exactly if there is one |
| Namespace.Tree.Dirlink | xv6-public/fs.c:550-578 | refused exactly if the name is there, full exactly at the largest size, else the map extended by the name |
| Namespace.Tree.Isdirempty | xv6-public/sysfile.c:352-367 | true exactly if only the dots are in use |
| Namespace.Tree.Ialloc | xv6-public/fs.c:194-214 | the lowest free inode; None exactly if there is none |
| Namespace.Tree.Create | xv6-public/sysfile.c:429-473 | the exact outcome in each case, the panics included; a new name leaves every link count right exactly if the directory is still linked |
| Namespace.Tree.Link | xv6-public/sysfile.c:300-350 | the exact outcome in each case; a failed link undoes its count; a successful one leaves every count right exactly if the directory is still linked |
| Namespace.Tree.Unlink | xv6-public/sysfile.c:369-427 | when a name can go, that it goes from the map, and that every link count stays right; the nlink panic never happens |
| Namespace.Tree.Iput | xv6-public/fs.c:331-352 | the inode is freed exactly with the last reference and no links, and the invariant stays |
| Namespace.Tree.Namex | xv6-public/fs.c:620-657 | the walk along the path's elements, or its parent with the last name; never a freed inode if started in a linked directory |
| Namespace.Tree.Perform | xv6-public/sysfile.c:300-473 | one call by path: its exact effect, and a panic exactly if there is no inode left or no room for the name |
| Namespace.Tree.Run | xv6-public/sysfile.c:300-473 | any run of create, mkdir, link and unlink on absolute paths keeps directories a tree of finite maps and every nlink the number of entries naming the inode; each call does what Perform says; it stops only at a call that panics |
| Namespace.UnlinkedParentRun | xv6-public/sysfile.c:429-473 | a run from the empty file system that ends with a wrong count: a file made in a directory that was unlinked meanwhile |
| DirBytes.EntryBack | xv6-public/fs.h:50-56 | the 16 bytes of an entry read back as that entry |
| DirBytes.SplicedEntries | xv6-public/fs.c:550-578 | splicing an entry's bytes into the file, or appending them, is entering it in the sequence of entries |
| NamesOnDisk.PutEntry | xv6-public/fs.c:572-575 | writei of one entry enters it in the directory; the blocks logged are known; it panics only for want of a block |
| NamesOnDisk.Lookup | xv6-public/fs.c:522-548 | reading a directory entry by entry finds the name exactly if it is there |
| NamesOnDisk.EnterName | xv6-public/fs.c:550-578 | refused exactly if the name is there, full exactly at the largest size, else the entry is in the first free place on disk |
| NamesOnDisk.AllocInode | xv6-public/fs.c:194-214 | the lowest free inode, cleared and given its type on disk; None exactly if there is none |
| NamesOnDisk.LinkCall | xv6-public/sysfile.c:300-350 | on the bytes of the disk, the effect Tree.Link has on the tree, in one transaction of at most 6 blocks |
| NamesOnDisk.UnlinkCall | xv6-public/sysfile.c:369-427 | the effect of Tree.Unlink before the last iput, in at most 3 blocks, never a panic |
| NamesOnDisk.FreeInode | xv6-public/fs.c:331-352 | the inode and its blocks become free, in at most a block per bitmap block of data and the inode |
| NamesOnDisk.RemoveCall | xv6-public/sysfile.c:369-427 | unlink with the last iput: one transaction if there are at most 7 bitmap blocks of data |
| NamesOnDisk.CreateCall | xv6-public/sysfile.c:429-473 | the effect of Tree.Create for files and directories, in one transaction of at most 9 blocks |
| NamesOnDisk.NamesCrashSafe | xv6-public/log.c:53-202 | such a call stopped at any disk write and recovered: the names and link counts read back are those before the call or those after it |
| Umalloc.InsertSorted | xv6-public/umalloc.c:24-44 | freeing a block keeps the free list sorted, disjoint and fully coalesced |
| Umalloc.InsertUnits | xv6-public/umalloc.c:33-42 | the list then covers exactly the old units and the block's |
| Umalloc.CarveUnits | xv6-public/umalloc.c:74-83 | taking a block from a chunk removes exactly its units |
| Umalloc.FreeUndoesMalloc | xv6-public/umalloc.c:24-90 | freeing the block just allocated restores the free list |
| Umalloc.RequestFits | xv6-public/umalloc.c:69-69 | the unit computation survives 32-bit arithmetic exactly up to a bound, given as an equivalence |
| Umalloc.Heap.Free | xv6-public/umalloc.c:24-44 | the circular list in memory becomes the sorted coalesced one with the block, live blocks untouched |
| Umalloc.Heap.Morecore | xv6-public/umalloc.c:46-61 | at least 4096 units are taken from sbrk and are all free afterwards, or nothing changes |
| Umalloc.Heap.Malloc | xv6-public/umalloc.c:63-90 | for every 32-bit request: first fit from the roving pointer, else after growing; 0 exactly if nothing fits and sbrk fails; units conserved; the search terminates |
| Umalloc.Heap.UserWrite | xv6-public/umalloc.c:11-22 | writing inside an allocated block never disturbs the allocator |
| PageTables.NewTable | xv6-public/vm.c:41-52 | hanging a zeroed table under an empty directory entry changes no mapping of any address space |
| PageTables.SetEntry | xv6-public/vm.c:57-83 | writing an entry changes the flat map at that page of that address space only |
| Vm.Machine.constructor | xv6-public/kalloc.c:31-53 | every frame of the range is free once, the last one on top, and filled with junk; the invariant holds |
| Vm.Machine.Kalloc | xv6-public/kalloc.c:79-95 | the first free frame, in use by nobody; None exactly if the pool is empty |
| Vm.Machine.Walkpgdir | xv6-public/vm.c:32-55 | the table of a page, made if asked, without changing any mapping or any page's contents; a frame is taken exactly if the table was missing |
| Vm.Machine.Mappages | xv6-public/vm.c:57-83 | exactly the pages of the range map to consecutive frames, up to 2^32; the first page that stops it, by the remap panic or because its table is missing and the pool empty; one frame taken per missing table |
| Vm.Machine.Deallocuvm | xv6-public/vm.c:254-282 | skipping whole tables has the effect of visiting every page: the range is unmapped, its frames and no others return to the pool |
| Vm.Machine.Freevm | xv6-public/vm.c:284-301 | every frame of the address space returns to the pool once, other address spaces keep mappings and contents |
| Vm.Machine.Setupkvm | xv6-public/vm.c:106-139 | the kernel half is the standard one and the user half empty, exactly if 65 frames are free, all of which are used; else the pool is as before |
| Vm.Machine.Allocuvm | xv6-public/vm.c:222-252 | zeroed writable user pages over exactly the range, exactly if it is vacant and there are frames for its pages and missing tables; else every page of it is unmapped and only tables are taken; the exact panic condition |
| Vm.Machine.Copyuvm | xv6-public/vm.c:316-348 | a child with the same contents and flags on frames of its own, exactly if there are frames for it; else everything is given back; panic exactly if a missing parent page is reached before the frames run out |
| Vm.Machine.Growproc | xv6-public/proc.c:249-268 | growing succeeds exactly if the frames suffice and the size stays below KERNBASE; the recorded size stays the mapped size exactly unless the call shrinks it to 0 |
| Vm.Machine.Lifetime | xv6-public/vm.c:106-301 | set up, any growing and shrinking, free: the pool has exactly its old frames, no panic, other address spaces untouched |
| Vm.PoolDetermined | xv6-public/kalloc.c:55-95 | the frames in use determine the free list up to order |
| Mmap.Table.FindWindow | xv6-public/sysfile.c:188-205 | the leftmost window of free descriptors; -1 exactly if there is none |
| Mmap.Table.Map | xv6-public/sysfile.c:132-241 | the exact outcome for any flags, anonymous, guarded and non-fixed mappings included; the table stays in order (used pages distinct, in the region) exactly if the call is refused, or has a file or is anonymous and its pages lie free in the region |
| Mmap.Table.Unmap | xv6-public/sysfile.c:77-129 | -1 exactly for an unaligned address, else 0: exactly the pages of the range go, each once in ascending order, and the array of pages to free never overflows; the files written back and closed in that order, the first file's offset reset; a word of the program is overwritten exactly if the first page is anonymous |
| Mmap.UnmapUndoesMap | xv6-public/sysfile.c:77-241 | unmapping what was just mapped restores the table exactly if there was no guard page |
| Mmap.AnonymousRun | xv6-public/sysfile.c:77-241 | one anonymous page mapped and unmapped from an empty table: the table is empty again and the word is overwritten |
| Processes.StepKeeps | xv6-public/proc.c:382-720 | every step of the scheduler, of fork, exit, wait, yield, kill, sleep and wakeup keeps the invariant |
| Processes.NoLostWakeup | xv6-public/sleeplock.c:22-42 | in every run, a process asleep on a sleep lock means the lock is owned or a releaser is still to wake the sleepers |
| Processes.NoMissedChild | xv6-public/proc.c:430-536 | in every run, a parent asleep in wait has no ZOMBIE child |
| Processes.RunningOnOne | xv6-public/proc.c:546-614 | in every run, a process is RUNNING exactly if one CPU, and only one, runs it |
| PipeRing.WrappedEqual | xv6-public/pipe.c:85-107 | the full and empty tests on wrapped counters are exact |
| PipeRing.Ring.Write | xv6-public/pipe.c:84-94 | the bytes are stored behind all others until done or exactly PIPESIZE are buffered |
| PipeRing.Ring.Read | xv6-public/pipe.c:113-117 | the oldest unread bytes in order, so what is read is a prefix of what was stored |
| PipeProtocol.StepKeepsIff | xv6-public/pipe.c:59-121 | a step keeps the protocol's invariant exactly unless a killed writer gives up while a reader sleeps |
| PipeProtocol.RunKeepsIff | xv6-public/pipe.c:59-121 | a run keeps the invariant in every state exactly if no killed writer in it gives up while a reader sleeps |
| PipeProtocol.NoLostWakeup | xv6-public/pipe.c:59-121 | in every such run, nobody with something to do sleeps unless the lock's holder is still to wake the sleepers |
| PipeProtocol.KilledWriterLosesWakeup | xv6-public/pipe.c:86-89 | a run in which a process is killed inside its write and that ends with a full pipe, a free lock and a sleeping reader |
| ShellGrammar.PrintedParses | xv6-public/sh.c:344-446 | parsing the canonical tokens of a command gives the command |
| ShellGrammar.ParsableIffFits | xv6-public/sh.c:432-441 | a command can be parsed from some line exactly if no part has MAXARGS words or more |
| ShellLexer.RenderedTokens | xv6-public/sh.c:265-308 | cutting the text of any tokens gives the tokens back |
| Shell.Gettoken | xv6-public/sh.c:265-308 | the next token with a span that is a maximal word, and the position of the rest |
| Shell.Peek | xv6-public/sh.c:310-320 | the cursor moves over blanks only; whether the next character is one of the given |
| Shell.Parseredirs | xv6-public/sh.c:374-397 | the redirections at the cursor, in order, or the missing file |
| Shell.Parsewords | xv6-public/sh.c:422-446 | words and redirections in any mix, as the grammar reads them, with the exact error |
| Shell.Parseexec | xv6-public/sh.c:415-446 | a command or parenthesised block as the grammar reads it |
| Shell.Parseblock | xv6-public/sh.c:399-413 | a parenthesised line with redirections, or the exact error |
| Shell.Parsepipe | xv6-public/sh.c:361-372 | a pipeline as the grammar reads it |
| Shell.Parseline | xv6-public/sh.c:344-359 | a line as the grammar reads it; the descent terminates |
| Shell.Nulterminate | xv6-public/sh.c:448-493 | NULs exactly at the ends of the command's spans |
| Shell.CmdReads | xv6-public/sh.c:448-493 | every word and file name then reads as a C string equal to its token, although all share one buffer |
| Shell.Parsecmd | xv6-public/sh.c:327-342 | the command of the line with its words as C strings in the buffer, or the error |
| Shell.CanonicalLine | xv6-public/sh.c:327-446 | a command written out in canonical form parses to itself |
| Shell.LineIff | xv6-public/sh.c:327-446 | some line parses to a command exactly if its words are non-empty and free of blanks and symbols and no part has MAXARGS words or more |
| Grep.OneMeans | xv6-public/grep.c:93-94 | a single item matches exactly one fitting character and then the rest |
| Grep.ManyMeans | xv6-public/grep.c:98-106 | a starred item takes nothing, or one fitting character and is tried again |
| Grep.Matchhere | xv6-public/grep.c:84-96 | true exactly if the text can be cut into pieces for the pattern's items from its start |
| Grep.Matchstar | xv6-public/grep.c:98-106 | the same for a starred item in front |
| Grep.Match | xv6-public/grep.c:72-82 | true exactly if the pattern matches somewhere, or at the start after a caret; the recursion terminates |

## Left out

- Hardware, boot code, interrupts, the real context switch and TLB: a switch is a step that changes which process a CPU runs.
- Spin locks as code (`acquire`, `release`, `pushcli`): they are the atomic steps and lock fields of the protocol models.
- The superblock's bytes: its fields are a parameter, as `FileSystem` takes inodes and bitmaps as values whose bytes are in `DiskFormat`.
- Device inodes, `exec`, `printf`, the console and the small user programs.
- The inode cache (`iget`, `ilock`): `Namespace` works on allocated inodes and takes the reference count of `iput` as a parameter.
- `mmap` across `fork`, page faults (and so the growing of a guarded mapping), the bytes written back from mapped files, and the descriptor loop of `exit`.
- The read loop of `grep` and the execution of parsed commands.
- The effect of a full disk or an exhausted inode table beyond the panic itself.
- CrashLog.Log.LogWrite: one call is one step; that its size check runs before the lock is taken is modelled in LogProtocol.
- LogProtocol.LogSufficesIff: assumes at least LOGSIZE home blocks behind the log, without which an operation could not fill it.
- BufferCache.Cache.Release: what a holder changed must have been logged or written before, as the log's callers do.
- FileSystem.FileSys.EndOp: counts the blocks of a transaction; their commit is in CrashSafety, for one process at a time; group commit is in LogProtocol.
- LogCache.Commit: nobody else touches the log's blocks or the logged ones meanwhile, and the header block is built as one value rather than word by word.
- Mkfs.Build: the files must fit the inode table, which the source does not check; the source notices a full image when it reads a block beyond its end.
- Namespace.Tree.Create: device numbers are left out, and a device counts as a file that exists.
- Namespace.Tree.Link: link counts are unbounded integers; the source's 16-bit counter could wrap only with 32768 names, more than the default disk can hold.
- NamesOnDisk.LinkCall: paths have been followed, names consist of bytes, and the file has fewer than 32767 links.
- NamesOnDisk.CreateCall: as LinkCall, for the directory's links; device inodes are never made.
- NamesOnDisk.RemoveCall: with more than 7 bitmap blocks of data only the number of blocks is bounded, as for any truncation.
- Namespace.Tree.Run: calls run one after another on absolute paths; directories unlinked in between are the other half of Create and Link.
- Umalloc.Heap.Malloc: excluded are requests that no free chunk meets and for which sbrk would get a negative argument (the bound of RequestFits); the gap sbrk may leave is in whole units.
- Vm.Machine.Growproc: for a process without mapped files, so that nothing lies above its size.
- Mmap.Table.Map: integers do not overflow; in the source a length above 0x7FFFF000 makes the page count overflow.
- Mmap.Table.Unmap: integers do not overflow; in the source the sum of address and length is a signed 32-bit integer and can overflow.
- Processes.StepKeeps: fork enters the parent together with RUNNABLE, although the source sets it a little earlier without the lock; nobody else can tell.
- PipeProtocol.NoLostWakeup: the pipe's bytes are counted here and kept in PipeRing.
- ShellGrammar.PrintedParses: the two output redirections parse to the same command, as in the source, so only one of them is printed.
