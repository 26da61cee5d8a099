# future_os: a verified model of the kernel's stateful core

future_os is a small x86 teaching kernel. This project models the parts of it that keep state and
whose invariants no single function shows, and proves what they keep over whole runs:

- **The file system on a sector array** (`Common`, `Bytes`, `Bitmap`, `Disk`, `InodeTable`, `FileData`,
  `FileGrowth`, `FileWriteProof`, `DirEntries`, `Directory`, `DirListing`, `DirTree`, `FsState`,
  `FsWrite`, `DirChange`, `DirOps`, `DirEdits`, `FsEntries`, `FsRuns`, `FsOps`, `FileSys`, `Paths`,
  `PathFields`, `PathWalk`, `FsCalls`, `PathEffects`). Files refine byte sequences, directories refine
  finite maps, the directories make a tree, every inode's record on disk is current, and the block bitmap
  is exactly the set of referenced blocks. Every operation is a method on the disk, the bitmaps and the inodes, proved
  against an effect on the file system as one value (`FsState.Fs`); the lemmas about the effects give
  safety over runs.
- **Threads, semaphores and locks** (`Scheduler`, `SchedulerProof`, `SchedulerLaws`, `Kernel`): a step
  system over any number of threads in which a region run with interrupts off is one step and preemption may happen
  between any two steps. The assertions of the source are obligations on every step.
- **fork, exit and wait** (`ExitWait`, `ExitWaitProof`, `ExitWaitLaws`, `Processes`): control blocks with
  an identity, pids that are reused, children that are handed to init.
- **Pages and heap** (`Pages`, `HeapSpec`, `HeapProof`, `Heap`): virtual bitmap, frame bitmap, page
  table, arenas, counters and free lists of one address space.
- **The disk-channel handshake** (`IdeChannel`), **the ring buffer and pipes** (`IoQueue`, `IoqWait`),
  **the linked list** (`List`) and **the path normaliser** (`WashPath`, `CdLaws`).

`dafny verify dfyconfig.toml` checks everything.

## How the source is read

- An `ASSERT` is an obligation and a `PANIC` is unreachable. A full bitmap panics at
  code/lib/kernel/bitmap.c:29, so enough free bits is a precondition of single-bit allocation.
- A disk is a sequence of sectors that `ide_read` and `ide_write` copy; the in-memory inodes are one map,
  because cached and uncached opening give the same inode as long as every record on disk is current,
  which is part of the invariant.
- Inode numbers stay below 256 since `inode_sync` keeps only 8 bits (code/fs/inode.c:45); what happens
  above is `InodeTables.SyncReachesItsRecord`.
- Directories stay within their twelve direct blocks: `sync_dir_entry` never loads the indirect table
  and the counting loop of `delete_dir_entry` does not advance (code/fs/dir.c:131-137, 296-300).
- `dirs`, `home` and `depth` of the file system, `owner`, `popped` and `held` of the semaphores, `arg` and
  the log of the processes, and the counters of the disk channel are bookkeeping of the proofs; the source
  has no such fields.

## Properties of the code that fail, and when they hold

- `rmdir` of a path that ends in "." releases the directory but leaves its entry behind, because the
  recorded parent is the directory itself. The tree of names is damaged, the ownership of blocks is not
  (`FileSys.ReleasedSound`). `FsCalls.Rmdir` states that the file system stays consistent
  exactly when the last component is not "."; `FsCalls.EmptyByDot` and `FsCalls.RmdirDotInput` show that
  there are such paths.
- `search_file` stops at a regular file whatever follows, and `unlink` does not compare depths, so
  unlinking `/f/x` removes `/f` (`FsCalls.FileEndsWalk`, `FsCalls.UnlinkBeyondFile`). The file that the
  whole path names is removed exactly when no proper beginning of the path leads to a regular file
  (`FsCalls.WholePathIff`, `FsCalls.Unlink`).
- A recorded sleeper of the ring buffer need not have the right reason to sleep: the queue is not tested
  again after the lock is taken. The property holds as long as nobody has to wait for the lock
  (`IoqWait.RunOk`), a step into the wait keeps it exactly when the lock is free
  (`IoqWait.ExactlyContention`), and a run from the empty queue breaks it (`IoqWait.ContentionHappens`).
- `pipe_write` computes its room one byte too large (`IoQueues.IoQueue.PipeWrite`).
- A multi-page scan may answer a run that leaves the bitmap (`Bitmaps.ScanPastEndExample`,
  `Bitmaps.ScanInsideMap`).
- Init may wait beside a hanging child: the adoption step of a process with a hanging child brings that
  about while init waits, and nothing else does (`ExitWaitProofs.InitStuckIff`). It ends only when another
  child of init hangs (`ExitWaitProofs.StuckUntilIff`), and a run from boot gets there
  (`ExitWaitProofs.InitGetsStuck`).
- `file_read` computes its end in 32 bits: a count near 2^32 wraps into the file and is not cut
  (`FileSys.ReadCutIff`, `FileSys.ReadWrapInput`). The limit check of `file_write` wraps likewise
  (`FileSys.WriteLimitIff`, `FileSys.WriteWrapInput`), and it lets a total of 71680 bytes through that trips
  the assertion on the block count (`FileSys.WriteAssertIff`).
- README.md of the repository speaks of FAT12; the code has its own inode file system, which is what is
  modelled.

## Model

| member | source | states |
|---|---|---|
| `Bitmaps.Bitmap.Set` | code/lib/kernel/bitmap.c:69-81 | writing a bit changes that bit of the map and no other |
| `Bitmaps.BitPlace` | code/lib/kernel/bitmap.c:69-81 | bit i of the map is bit i % 8 of byte i / 8, counted from the lowest |
| `Bitmaps.Bitmap.ScanOne` | code/lib/kernel/bitmap.c:21-45 | for one bit: the lowest clear bit, every lower one is set; a clear bit must exist, since the assertion at line 29 panics otherwise |
| `Bitmaps.Bitmap.Scan` | code/lib/kernel/bitmap.c:21-66 | first fit for any count over the map extended by the one bit past its end that the loop also tests |
| `Bitmaps.FirstFitUnique` | code/lib/kernel/bitmap.c:21-66 | first fit names one answer |
| `Bitmaps.PastSetIsPlainFirstFit` | code/lib/kernel/bitmap.c:47-65 | with the bit past the end reading as set the answer is plain first fit over the map: the least start of a clear run, -1 exactly when there is none |
| `Bitmaps.ScanInsideMap` | code/lib/kernel/bitmap.c:47-65 | the answer lies inside the map exactly when the map itself has a clear run; always when the bit past the end is set |
| `Bitmaps.ScanPastEndExample` | code/lib/kernel/bitmap.c:47-65 | a map of eight bits for which the search answers a run that leaves the map when the next bit in memory is clear |
| `Lists.List.InsertBefore` | code/lib/kernel/list.c:13-23 | the four pointer writes insert the element at that place of the sequence and keep both directions of links |
| `Lists.List.Push` | code/lib/kernel/list.c:26-28 | the sequence gains the element in front |
| `Lists.List.Append` | code/lib/kernel/list.c:31-33 | the sequence gains the element at the end |
| `Lists.List.Remove` | code/lib/kernel/list.c:35-42 | the sequence loses exactly that element |
| `Common.WithoutSplit` | code/lib/kernel/list.c:35-42 | the other elements keep their order |
| `Lists.List.Pop` | code/lib/kernel/list.c:44-48 | the first element leaves the sequence |
| `Lists.List.Find` | code/lib/kernel/list.c:50-59 | walking the links decides membership in the sequence |
| `Lists.List.Len` | code/lib/kernel/list.c:84-93 | walking the links counts the sequence |
| `Lists.List.Empty` | code/lib/kernel/list.c:95-97 | the sentinels are neighbours exactly when the sequence is empty |
| `Disks.Disk.Read` | code/device/ide.c:155-198 | the buffer is the requested sectors in order; the commands issued cover them exactly once and in order, with 256 written as 0 in the count register |
| `Disks.Disk.Write` | code/device/ide.c:201-241 | exactly the requested sectors are replaced by the buffer; the commands issued cover them exactly once and in order |
| `Disks.CoveredOnce` | code/device/ide.c:165-196 | commands that cover a range move each of its sectors by exactly one command and no sector outside it |
| `IdeChannel.RunOk` | code/device/ide.c:108-258 | over every interleaving of threads that work on the channel inside its lock and of interrupts, spurious ones included: one thread at a time, flag plus value is at most 1, both are 0 outside an operation, and no assertion of sema_up or sema_down fails |
| `IdeChannel.LockKeepsAlone` | code/device/ide.c:158-197 | that the threads on the channel are inside its lock makes them one, by mutual exclusion in the scheduler |
| `IdeChannel.InitialOk` | code/device/ide.c:384-389 | the channel as ide_init leaves it meets the invariant |
| `IdeChannel.DownTakesItsOwn` | code/device/ide.c:176-194 | each sema_down consumes the completion of the command issued last and no other |
| `IdeChannel.EndsAfterAllChunks` | code/device/ide.c:163-197 | an operation ends after exactly ceil(n/256) commands, with all sectors done |
| `IdeChannel.SpuriousIgnored` | code/device/ide.c:244-258 | an interrupt while no command is under way changes nothing |
| `IdeChannel.InterruptCompletes` | code/device/ide.c:244-258 | the interrupt that a command waits for clears the flag and raises the semaphore to 1, which lets that thread's sema_down through |
| `IdeChannel.NeverStuck` | code/device/ide.c:158-197 | a thread on the channel can always go on, or waits for an interrupt that lets it |
| `IdeChannel.OperationCompletes` | code/device/ide.c:155-241 | from an idle channel an operation of any size can be carried out with ceil(n/256) commands and as many interrupts, all sectors are done, and the channel is idle again |
| `InodeTables.EncodeRoundTrip` | code/fs/inode.c:50-58 | the stored copy keeps number, size and all 13 pointers |
| `InodeTables.RecordLayout` | code/fs/inode.h:8-21 | number, size and pointers lie at bytes 0, 4 and 16 of a record, lowest byte first; what is only meant for memory is zero |
| `InodeTables.Locate` | code/fs/inode.c:21-41 | sector and offset of record n add up to n times 76; a record takes two sectors exactly when it straddles; all 4096 records end inside the table |
| `InodeTables.RecordsTileTable` | code/fs/fs.c:80-82 | every byte of the 608 table sectors belongs to exactly one record |
| `InodeTables.Sync` | code/fs/inode.c:44-76 | the record of the number cut to 8 bits becomes this inode; every other record and every sector outside the table is unchanged, straddling records included |
| `InodeTables.Load` | code/fs/inode.c:92-128 | the uncached path reads exactly the record |
| `InodeTables.Delete` | code/fs/inode.c:151-174 | zeroes exactly the record |
| `InodeTables.SyncThenOpen` | code/fs/inode.c:44-129 | for numbers below 256, writing an inode and opening it uncached gives number, size and pointers back |
| `InodeTables.SyncReachesItsRecord` | code/fs/inode.c:44-47 | the written record is the inode's own one exactly for numbers below 256 (or when nothing had to be written); above, another inode's record is overwritten |
| `FileData.TableExistsFrom6144` | code/fs/file.c:270-292 | a file has an indirect table exactly from 6144 bytes on, which is why the table assertions never fire, and stays below 71680 bytes |
| `FileData.AppendChunk` | code/fs/file.c:389-411 | patching the last block extends the byte sequence by the chunk |
| `FileData.InodeFrame` | code/fs/file.c:225-521 | content and references of an inode depend on the sectors it references only |
| `FileSys.FileSystem.AllocBlock` | code/fs/file.c:64-72 | takes the lowest clear bit of the data area and no other |
| `FileSys.FileSystem.AllocRun` | code/fs/file.c:302-320 | the allocation loops yield distinct blocks that were free |
| `FileSys.FileSystem.GrowDirect` | code/fs/file.c:294-320 | case one of growing: the file is grown in the sense of the block-list specification; its assertions hold |
| `FileSys.FileSystem.GrowIntoTable` | code/fs/file.c:321-360 | case two, the table is created; the assertions hold that neither the table nor the direct pointers it fills were allocated |
| `FileSys.FileSystem.GrowInTable` | code/fs/file.c:361-383 | case three, the table is extended; its assertion holds |
| `FileSys.FileSystem.Collect` | code/fs/file.c:255-384 | after collecting, all_blocks names the right block for every index that will be written; takes exactly the blocks computed by BlocksNeeded |
| `FileSys.FileSystem.WriteData` | code/fs/file.c:386-411 | the copying loop appends exactly the buffer to the stored bytes |
| `FileSys.FileSystem.FileWrite` | code/fs/file.c:225-416 | unless the 32-bit sum of size and count wraps round or is 71680: content grows by exactly the buffer, nothing outside the file's blocks and record changes, the invariant is kept, the answer is -1 with no change above the limit, and fd_pos ends one before the end |
| `FileSys.WriteLimitIff` | code/fs/file.c:227-230 | the 32-bit limit check refuses exactly the totals above 71680 if and only if the sum of size and count does not wrap round |
| `FileSys.WriteWrapInput` | code/fs/file.c:227-275 | a size and a count whose sum wraps: the limit check and the assertion on the blocks both let it through |
| `FileSys.WriteAssertIff` | code/fs/file.c:227-275 | in 32 bits: the assertion on the block count holds exactly for sums below 71680, so the limit check lets exactly one sum through that breaks it |
| `FsWrite.WriteKeepsInv` | code/fs/file.c:225-416 | writing keeps the whole-file-system invariant, every other file's content and every directory's name map |
| `FileSys.FileSystem.FileRead` | code/fs/file.c:419-521 | from any position that a call leaves, and unless the assertion on the blocks fails or the 32-bit sum wraps into the file: delivers exactly content[pos..min(pos+count,size)], moves the position by as much, answers -1 at the end, and changes nothing |
| `FileSys.ReadCutIff` | code/fs/file.c:425-447 | the 32-bit cut stays inside the file exactly when the position does and the sum does not wrap into the file; then the block assertion holds exactly when the read ends before byte 71168; at the position that writing nothing to an empty file leaves it fails for every count |
| `FileSys.ReadWrapInput` | code/fs/file.c:425-447 | a position and a count for which the sum wraps and the cut lets 2^32 - 1 bytes through |
| `FileSys.FileSystem.ReadData` | code/fs/file.c:501-517 | the reading loop delivers the requested stretch of the content |
| `FileSys.FileSystem.CollectForRead` | code/fs/file.c:444-493 | all_blocks names the right block for every index read; the table assertions hold |
| `DirEntries.EntryRoundTrip` | code/fs/dir.c:109-116 | a name of 1 to 15 bytes, the inode number and the type survive storing |
| `DirEntries.EntryLayout` | code/fs/dir.h:19-23 | the name lies in the first 16 bytes, filled up with zeros, number and type follow, lowest byte first |
| `DirEntries.PatchSlot` | code/fs/dir.c:201-211 | writing one 24-byte entry of a sector changes that entry only |
| `DirOps.SearchDirEntry` | code/fs/dir.c:34-93 | finds the live entry of that name exactly when the directory has one |
| `DirOps.FirstFreeSlot` | code/fs/dir.c:145-213 | finds the first free slot in block order, where a missing block counts as free; nothing only when all 252 slots are taken |
| `DirOps.Survey` | code/fs/dir.c:250-271 | counts the ordinary entries of a block, tells whether "." is there and where the inode is; its uniqueness assertion holds |
| `DirOps.FindInode` | code/fs/dir.c:242-282 | finds the slot that lists the inode exactly when there is one; the source's test for giving the block back is the right one |
| `FileSys.FileSystem.SyncDirEntry` | code/fs/dir.c:119-216 | the entry goes into the first free slot, in a newly allocated zeroed block when needed; size grows by 24; nothing else changes; the assertion on the size holds |
| `FileSys.FileSystem.DeleteDirEntry` | code/fs/dir.c:219-333 | answers whether the inode was listed; clears its slot, or gives the block back when it was the only live slot of a block other than the first; the assertion on the number of entries in the block holds |
| `Directories.InsertOk` | code/fs/dir.c:119-216 | inserting keeps the directory invariant and adds exactly the entry |
| `Directories.DeleteOk` | code/fs/dir.c:219-333 | deleting keeps the directory invariant, every later block still has a live entry, and removes exactly the entry |
| `Directories.NameMapPlus` | code/fs/dir.c:119-216 | the directory as a finite map gains exactly one pair |
| `Directories.NameMapMinus` | code/fs/dir.c:219-333 | the directory as a finite map loses exactly one pair |
| `DirListings.RoomLeft` | code/fs/dir.c:145-213 | a directory of fewer than 252 entries has a free slot in its twelve direct blocks |
| `DirListings.ListingSize` | code/fs/dir.c:336-388 | the listing in block order holds each live entry exactly once, so i_size is 24 times its length |
| `DirOps.DirRead` | code/fs/dir.c:336-388 | returns entry number dir_pos/24 of the listing and moves on, NULL at the end; the position assertion holds, holes included |
| `DirOps.ReadAll` | code/shell/buildin_cmd.c:184-186 | reading until NULL lists each live entry exactly once, in block order |
| `FsCalls.DirIsEmptyIff` | code/fs/dir.c:391-395 | the size test means exactly that only "." and ".." are left, and then pointers 1 to 12 are all 0 |
| `FileSys.FileSystem.AllocInode` | code/fs/file.c:54-61 | takes the lowest free inode number |
| `FileSys.FileSystem.InodeRelease` | code/fs/inode.c:177-233 | gives back exactly the blocks the inode references, its table included, clears its inode bit and zeroes its record; the assertions that no block is the first one and on the stored number hold |
| `FileSys.FileSystem.Enter` | code/fs/file.c:144-159 | entry, directory record and new record are written in this order and nothing else changes |
| `FileSys.FileSystem.FileCreate` | code/fs/file.c:98-183 | an empty file under the lowest free number is entered; without a free file-table slot the state is unchanged and the answer is -1 |
| `FileSys.FileSystem.MkdirAt` | code/fs/fs.c:599-668 | a directory with "." and ".." under the lowest free number is entered; the assertion on its block holds |
| `FileSys.FileSystem.RemoveAt` | code/fs/fs.c:558-563 | removes entry and inode exactly when the directory lists the inode; otherwise the inode and its bit are released while its directory still lists it: the tree of names is broken, and nothing else of the invariant is |
| `FileSys.ReleasedSound` | code/fs/inode.c:177-221 | an inode released while its entry stays leaves layout, contents, records and the exact ownership of blocks intact |
| `FsEntries.InstallKeepsInv` | code/fs/fs.c:599-668 | entering keeps the invariant; the name map gains exactly the name, every other inode is as it was |
| `FsEntries.RemoveKeepsInv` | code/fs/fs.c:558-563 | removing keeps the invariant; the name map loses exactly the name, every other inode is as it was |
| `FsRuns.StepKeepsInv` | code/fs/fs.c:516-763 | each of create, write, unlink, mkdir and rmdir keeps the invariant, rmdir of a path ending in "." excepted: that one is no step, since it breaks the invariant (FsCalls.Rmdir) |
| `FsRuns.RunKeepsInv` | code/fs/fs.c:516-763 | the invariant holds in every state of every run without an rmdir of a path ending in "." |
| `FsRuns.OwnershipOverRuns` | code/fs/inode.c:177-221 | over every run without an rmdir of a path ending in ".", a data block's bit is set exactly when an inode references it, as data or as table, and no block is referenced by two inodes; right after such an rmdir that still holds (FsCalls.Rmdir) |
| `FsRuns.DeleteInserted` | code/fs/dir.c:282-321 | deleting what was just inserted gives the old slots back, including the block it added |
| `FsRuns.CreateWriteRemoveRestores` | code/fs/fs.c:516-564 | creating a file or directory, writing any number of times and removing it restores block bitmap, inode bitmap and all inodes exactly |
| `FsRuns.FormattedOk` | code/fs/fs.c:131-189 | a formatted partition meets the invariant |
| `FsCalls.SearchFile` | code/fs/fs.c:233-310 | answers where the walk along the components ends, which directory it records as parent and how much of the path it looked up; the assertion on the length of the searched path holds |
| `FsCalls.FileEndsWalk` | code/fs/fs.c:289-293 | a regular file ends the walk: anything appended to its path leads to the same file |
| `FsCalls.WholePathIff` | code/fs/fs.c:263-306 | the file a walk ends at is the one the whole path names, and every component was looked up, exactly when no proper beginning of the path leads to a regular file |
| `FsCalls.UnlinkBeyondFile` | code/fs/fs.c:516-564 | after creating /f the path /f/x meets all that unlink asks for and leads to that file, which it does not name |
| `FsCalls.Unlink` | code/fs/fs.c:516-564 | removes the regular file the walk ends at unless it is open; no change otherwise; what was removed is the file the whole path names exactly when no proper beginning of the path leads to a regular file |
| `FsCalls.Mkdir` | code/fs/fs.c:567-682 | makes the directory exactly when all but the last component exist and the last does not; no change otherwise, "/" included |
| `FsCalls.Rmdir` | code/fs/fs.c:733-763 | removes an empty directory, refuses any other; the assertions of dir_remove hold; the file system stays consistent exactly when the path does not end in "."; otherwise an entry dangles, while records and the exact ownership of blocks are kept |
| `FsCalls.DotStays` | code/fs/fs.c:281-306 | "." after the path of any directory leads to that directory with itself as recorded parent |
| `FsCalls.EmptyByDot` | code/fs/fs.c:733-763 | whatever empty directory a path leads to, the path with "." appended leads to the same one |
| `FsCalls.RmdirDotInput` | code/fs/fs.c:733-763 | after mkdir of /d the path /d/. meets all that rmdir asks for and ends in "." |
| `FsCalls.EmptyReachedBy` | code/fs/fs.c:281-306 | an empty directory's recorded parent lists it exactly when the last component is not "." |
| `FsCalls.GetParentDirInodeNr` | code/fs/fs.c:766-777 | yields the parent; both assertions hold |
| `FsCalls.GetChildDirName` | code/fs/fs.c:781-820 | appends the child's name: the first slot with its number is its entry, though the source does not look at the type |
| `FsCalls.ClimbUp` | code/fs/fs.c:851-858 | the upward walk terminates by depth and collects the path components in reverse |
| `FsCalls.TurnRound` | code/fs/fs.c:864-869 | cutting at the last slash repeatedly turns the components round |
| `FsCalls.GetCwd` | code/fs/fs.c:825-872 | yields the path of the working directory |
| `FsCalls.Chdir` | code/fs/fs.c:875-891 | moves to the directory the path leads to, or stays and answers -1 |
| `FsCalls.ChdirThenGetCwd` | code/fs/fs.c:825-891 | after changing to a path without "." and ".." getcwd reads that same path |
| `FsCalls.GetCwdSearches` | code/fs/fs.c:233-310 | searching for what getcwd prints gives back the same directory |
| `PathEffects.FileReached` | code/fs/fs.c:233-310 | every regular file is found by the path of the directory that lists it and the name of its entry there |
| `PathEffects.EnterThenFound` | code/fs/fs.c:233-310 | what was created in a directory is found by any path to that directory and the new name |
| `PathEffects.MkdirThenFound` | code/fs/fs.c:567-682 | after mkdir the path leads to the new directory |
| `PathEffects.UnlinkThenMissing` | code/fs/fs.c:516-564 | after unlink of the file that a path names, its last component is missing and the others lead where they led |
| `PathWalk.WalkDownNames` | code/fs/fs.c:265-288 | walking down a clean path ends at the directory whose upward path is that path |
| `PathWalk.PathLeadsBack` | code/fs/fs.c:766-820 | walking down the upward path of any directory ends at that directory with its true parent |
| `Paths.PathParse` | code/fs/fs.c:197-211 | told by characters: the component behind the leading slashes, however many, up to the next slash or the end, and the rest from there; none exactly for a string of slashes |
| `Paths.CutOnce` | code/fs/fs.c:197-211 | that description names one component and one rest |
| `PathFields.ComponentsAreFields` | code/fs/fs.c:197-230 | repeated path_parse yields what splitting at every slash and dropping the empty stretches yields |
| `PathFields.ComponentsConcat` | code/fs/fs.c:197-230 | a slash between any two paths puts their components side by side |
| `PathFields.SlashDoubled` | code/fs/fs.c:198-201 | doubling a slash anywhere changes no component |
| `PathFields.SlashesInFront` | code/fs/fs.c:198-201 | any number of slashes in front of a component count as one |
| `Paths.PathDepthCnt` | code/fs/fs.c:214-230 | the number of components |
| `Paths.ComponentsOfPrint` | code/fs/fs.c:197-230 | parsing inverts printing |
| `WashPaths.WashPath` | code/shell/buildin_cmd.c:13-52 | the result is print(resolve(parse(path))) |
| `WashPaths.WashedComponents` | code/shell/buildin_cmd.c:26-51 | the result's components are the resolved ones: none is empty, "." or ".." |
| `WashPaths.WashIdempotent` | code/shell/buildin_cmd.c:13-52 | washing twice is washing once |
| `WashPaths.WashNotLonger` | code/shell/buildin_cmd.c:13-52 | the result is never longer than an absolute path |
| `CdLaws.WashAppend` | code/shell/buildin_cmd.c:26-51 | one more component: "." changes nothing, ".." drops the last component if there is one, any other name is added |
| `CdLaws.WalkResolves` | code/fs/fs.c:233-310 | wherever a path with any "." and ".." leads, the path of that directory has the components that the normaliser makes of it |
| `CdLaws.WashedLeadsThere` | code/shell/buildin_cmd.c:55-69 | washing a path that leads to a directory does not change where it leads |
| `CdLaws.ChdirThenGetCwdWashed` | code/fs/fs.c:825-891 | after chdir to any path, "." and ".." included, getcwd reads the washed path |
| `SchedulerProofs.ScheduleOk` | code/thread/thread.c:197-227 | with an empty ready list the idle thread is blocked, so a next thread always exists; all assertions hold; nobody inside a semaphore is moved |
| `SchedulerProofs.ScheduleTurn` | code/thread/thread.c:197-227 | whose turn it is, by fields: the first ready thread runs, the one that was running is last on the list, nobody else changes status; with an empty list it goes on, or the idle thread is woken |
| `SchedulerLaws.RoundRobin` | code/thread/thread.c:197-265 | while threads only use up their time or yield, the line of running and ready threads turns round: after as many turns as there are threads everybody has run once and the line is the first one again |
| `SchedulerLaws.RunsInTurn` | code/thread/thread.c:197-265 | the thread at place k of the ready list runs after k + 1 turns |
| `SchedulerLaws.CreatedLast` | code/thread/thread.c:160-184 | a new thread is last in the line |
| `SchedulerLaws.WokenNext` | code/thread/thread.c:242-254 | a woken thread has the next turn |
| `SchedulerLaws.ThreadsCount` | code/thread/thread.c:160-184 | over every run from boot there are the three first threads and those started since, less those reaped |
| `SchedulerProofs.UnblockQueued` | code/thread/thread.c:242-254 | the assertions hold and the ready list stays exactly the ready threads |
| `SchedulerProofs.StepOk` | code/thread/sync.c:21-81 | every step of scheduler, semaphores and locks, with preemption in between, meets all assertions and keeps the invariant |
| `SchedulerProofs.RunOk` | code/thread/sync.c:21-81 | over every run and any number of threads: exactly one thread runs, ready means on the ready list once, waiters are blocked, and no wakeup is lost: while a semaphore with waiters is free, a thread popped off them has yet to test it |
| `SchedulerProofs.RunSafety` | code/thread/sync.c:21-81 | over every run from boot, spelled out: one thread runs, ready means on the ready list once, waiters are blocked and on one list, at most one thread is inside a lock, and while a semaphore with waiters is free some thread that sema_up popped off them has yet to test the value and can run |
| `SchedulerProofs.PoppedHistory` | code/thread/sync.c:21-54 | a thread counts as popped from the moment sema_up takes it off the front of the waiters until its own next test of the value, and at no other time |
| `SchedulerProofs.MutualExclusion` | code/thread/sync.c:57-81 | two threads inside a lock are the same thread, which is its holder, and the repeat count is its count of acquires not yet released |
| `SchedulerLaws.HeldStep` | code/thread/sync.c:57-81 | that count grows by one exactly with a completed lock_acquire, the first one or one more as the holder, falls by one exactly with a lock_release, and changes with no other step |
| `SchedulerLaws.RepeatCounts` | code/thread/sync.c:57-81 | over every run from boot, counted in the steps taken: nobody releases more often than it has acquired, at most one thread has acquired a lock more often than released it, it is the holder, and the repeat count is the difference |
| `SchedulerLaws.AcquireFree` | code/thread/sync.c:57-66 | a free lock is taken without sleeping, and nothing but its fields and that count changes |
| `SchedulerLaws.AcquireReleaseRestores` | code/thread/sync.c:57-81 | acquiring a free lock that nobody waits for and releasing it leaves everything as it was |
| `SchedulerLaws.ReacquireRestores` | code/thread/sync.c:57-76 | the holder acquires again, which raises the repeat count, and releases again, which leaves everything as it was with the lock still taken |
| `SchedulerLaws.HandOver` | code/thread/sync.c:42-81 | when the last release gives the value back, the thread that has waited longest runs next and takes it at its next test |
| `SchedulerLaws.WokenInOrder` | code/thread/sync.c:21-54 | over every run, first come, first woken: the threads that went to sleep on a semaphore are, in order, those that sema_up woke and then those that wait |
| `SchedulerLaws.ValueCounts` | code/thread/sync.c:21-54 | over every run a semaphore's value is what it was plus the sema_up calls minus the sema_down calls that came through |
| `SchedulerLaws.DownUpRestores` | code/thread/sync.c:21-54 | for a semaphore that is no lock, sema_down at value 1 and sema_up leave everything as it was |
| `SchedulerProofs.OneListEach` | code/thread/sync.c:21-54 | a thread is on at most one list |
| `SchedulerProofs.UpOk` | code/thread/sync.c:42-54 | sema_up at value 0 meets its assertions; the first waiter becomes the first ready thread, popped and about to test the value; no wakeup is lost |
| `SchedulerProofs.BootedOk` | code/thread/thread.c:394-412 | the state after thread_init, with main running and init and idle ready in this order, meets the invariant |
| `Kernel.Threads.ScheduleNow` | code/thread/thread.c:197-227 | the first ready thread runs and leaves the list, the thread that was running is last on it; with an empty list it goes on, or the idle thread runs; the ready list stays exact |
| `Kernel.Threads.ThreadBlock` | code/thread/thread.c:230-239 | the caller has the given state, and the first ready thread runs, or the idle thread when there is none; the invariant is kept |
| `Kernel.Threads.ThreadUnblock` | code/thread/thread.c:242-254 | the ready list stays exactly the ready threads, each once; the thread was not on it and is now in front of the others; nobody else changes status |
| `Kernel.Threads.ThreadYield` | code/thread/thread.c:257-265 | the first ready thread runs and the caller is behind all others; with an empty list the caller goes on |
| `Kernel.Threads.SemaDownTurn` | code/thread/sync.c:21-39 | takes the value and goes on, or sleeps as the last of the waiters while the first ready thread, or the idle thread, runs |
| `Kernel.Threads.SemaUp` | code/thread/sync.c:42-54 | at value 0: the value is 1, the first waiter is the next to run and about to test the value, exactly the other waiters go on waiting, the queues stay exact and no wakeup is lost |
| `Kernel.Threads.LockAcquireEnter` | code/thread/sync.c:57-66 | for the holder the repeat count is one more and nothing else changes; anyone else goes on to sema_down and no lock changes |
| `Kernel.Threads.LockAcquireHolder` | code/thread/sync.c:60-61 | the caller is the holder, and no other field changes |
| `Kernel.Threads.LockAcquireRepeat` | code/thread/sync.c:62-63 | the repeat count was 0 and is 1, and the caller is inside once more than before |
| `Kernel.Threads.LockReleaseEnter` | code/thread/sync.c:70-78 | both assertions hold; a repeat count above 1 is one less and the holder stays; at 1 the holder is cleared |
| `Kernel.Threads.LockReleaseClear` | code/thread/sync.c:79-79 | the repeat count is 0, and no other field changes |
| `Kernel.Threads.LockReleaseUp` | code/thread/sync.c:80-80 | sema_up is reached at value 0; the value is 1 again and the first waiter, if any, is the first ready thread |
| `ExitWaitProofs.ParentFound` | code/userprog/wait_exit.c:157-161 | the lookup of the parent in sys_exit never fails and finds a process that has not passed its adoption step |
| `ExitWaitProofs.StepOk` | code/userprog/wait_exit.c:110-165 | every step of fork, exit and wait keeps the invariant |
| `ExitWaitProofs.RunOk` | code/userprog/wait_exit.c:110-165 | over every run: parents are listed and not past adoption, nobody is reaped twice, each child is reaped by its current parent with its status cut to int8, and nobody but init waits beside a hanging child |
| `ExitWaitProofs.RunSafety` | code/userprog/wait_exit.c:110-165 | over every run from boot, spelled out: parents exist and are not past adoption, pids are unique and a pid is in use exactly when a process has it, nobody but init waits beside a hanging child, nobody is reaped twice, each reaper is the parent and gets the status cut to int8 |
| `ExitWaitProofs.AdoptParents` | code/userprog/wait_exit.c:100-106 | after the adoption nobody's parent is the exiting process, so its pid can be reused |
| `ExitWaitProofs.HangWaits` | code/userprog/wait_exit.c:157-164 | a process that hangs leaves no parent waiting beside it |
| `ExitWaitProofs.ReapKeeps` | code/userprog/wait_exit.c:117-129 | reaping keeps the invariant and logs the child once |
| `ExitWaitProofs.InitStuckIff` | code/userprog/wait_exit.c:110-165 | a step makes init wait beside a hanging child exactly when it is the adoption step of a process with a hanging child while init waits |
| `ExitWaitProofs.InitGetsStuck` | code/userprog/wait_exit.c:110-165 | a run from boot that ends with init waiting beside a hanging child while no exit is under way that would wake it |
| `ExitWaitProofs.StuckUntilIff` | code/userprog/wait_exit.c:110-165 | once init waits beside a hanging child, a step ends that exactly when it is the hanging of another child of init |
| `ExitWaitProofs.ForkBeginKeeps` | code/userprog/fork.c:14-24 | setting up the child keeps the invariant: fresh pid, parent is the caller |
| `ExitWaitProofs.ForkEndKeeps` | code/userprog/fork.c:180-186 | the child that fork has set up is there and gets listed, and the invariant is kept |
| `ExitWaitLaws.ForkMakesChild` | code/userprog/fork.c:14-186 | after fork the child is listed last, as a copy of its parent with the lowest free pid and the caller as parent; nobody else changes |
| `ExitWaitLaws.SpawnMakesOrphan` | code/thread/thread.c:160-184 | a kernel thread is listed last as nobody's child |
| `ExitWaitLaws.ForkExitWaitRestores` | code/userprog/wait_exit.c:110-165 | a child's whole life: after fork, the child's exit and the parent's wait everything is as it was, the pid is free again, and the parent has the argument of exit cut to int8 |
| `ExitWaitLaws.WaitFirstIsTheSame` | code/userprog/wait_exit.c:110-165 | a parent that waits before the child exits sleeps, is woken by the exit and ends in the same state |
| `ExitWaitLaws.NobodyIsLost` | code/userprog/wait_exit.c:110-165 | over every run from boot the processes started are those listed and those reaped |
| `ExitWaitProofs.BootedOk` | code/thread/thread.c:394-412 | init, main and idle as thread_init lists them meet the invariant |
| `ExitWait.Int8` | code/userprog/wait_exit.c:144-146 | the delivered status is the argument modulo 256, read as signed |
| `Processes.Table.FindHangingChild` | code/userprog/wait_exit.c:90-96 | the traversal finds the first hanging child in list order |
| `Processes.Table.AdoptChildren` | code/userprog/wait_exit.c:100-106 | the traversal hands every child of the pid to init and changes nothing else |
| `Processes.Table.ExitBegin` | code/userprog/wait_exit.c:144-152 | the exit status is the argument cut to int8, exactly the caller's children go to init, nobody else changes; the invariant is kept |
| `Processes.Table.ExitEnd` | code/userprog/wait_exit.c:157-164 | the caller hangs, its parent is awake if it was waiting, nobody else changes; the invariant is kept |
| `Processes.Table.WaitTurn` | code/userprog/wait_exit.c:110-141 | a hanging child's pid and status are returned, it leaves table and list, and its pid is free again; -1 exactly without children and with no change; otherwise the caller waits, and no child hangs |
| `Pages.PtePerPage` | code/kernel/memory.c:84-99 | two addresses share a page-table entry exactly when they share a page; the directory entry is the entry of the entry |
| `Pages.PfreeInvertsPalloc` | code/kernel/memory.c:264-290 | in the layout of mem_pool_init, pfree clears exactly the bit that palloc set, in the right pool |
| `Pages.KernelFrame` | code/kernel/memory.c:264-290 | the frames of the kernel pool have page-aligned addresses, not below 0x102000 nor the start of the kernel pool, and below the user pool |
| `Pages.PageSpace.VaddrGet` | code/kernel/memory.c:52-81 | first fit over the virtual pages; exactly that run is marked |
| `Pages.PageSpace.VaddrRemove` | code/kernel/memory.c:478-496 | exactly that run is cleared |
| `Pages.PageSpace.Palloc` | code/kernel/memory.c:103-112 | takes the lowest free frame: all lower ones are in use |
| `Pages.PageSpace.Pfree` | code/kernel/memory.c:455-467 | given the address of a kernel frame, clears exactly the bit of that frame |
| `Pages.PageSpace.MallocPage` | code/kernel/memory.c:154-180 | a run of pages is mapped to frames of their own, other mappings stay, and page, frame and mapping agree; the entry assertions hold |
| `Pages.PageSpace.MfreePage` | code/kernel/memory.c:499-551 | exactly these pages are unmapped and their frames given back; the assertions on the frame addresses hold |
| `Pages.PagesDetermined` | code/kernel/memory.c:154-180 | the mappings determine both bitmaps |
| `HeapSpec.SizeOf` | code/kernel/memory.c:330-344 | the seven block sizes 16 to 1024 |
| `HeapSpec.PerArena` | code/kernel/memory.c:330-344 | the blocks per arena of each class |
| `HeapSpec.BlockInPage` | code/kernel/memory.c:347-354 | block2arena undoes arena2block, and every block lies inside its page behind the header |
| `HeapSpec.LiveDisjoint` | code/kernel/memory.c:357-452 | live blocks never overlap |
| `HeapProofs.FullCount` | code/kernel/memory.c:582-588 | a counter at its maximum means that every block of the arena is on the free list, so the assertion holds |
| `HeapProofs.TakeCore` | code/kernel/memory.c:443-448 | popping a block keeps counters and lists in agreement |
| `HeapProofs.NewArenaCore` | code/kernel/memory.c:419-441 | a new arena keeps counters and lists in agreement |
| `HeapProofs.PutCore` | code/kernel/memory.c:577-582 | giving a block back keeps counters and lists in agreement |
| `HeapProofs.DropCore` | code/kernel/memory.c:582-590 | dropping an arena keeps counters and lists in agreement |
| `HeapProofs.SomeLive` | code/kernel/memory.c:581-591 | between calls every arena has a live block |
| `Heaps.HeapSpace.ClassFor` | code/kernel/memory.c:407-415 | the least class that fits |
| `Heaps.HeapSpace.CutArena` | code/kernel/memory.c:432-440 | all blocks of the arena enter the free list in order; the assertion holds |
| `Heaps.HeapSpace.SysMalloc` | code/kernel/memory.c:357-452 | a block of at least the size becomes live and nothing else changes; it is the first one on the free list of the least class that fits, and only with an empty list a page is taken, one; above 1024 bytes exactly as many pages as needed are; NULL exactly for sizes out of range or without a run of pages, with no change |
| `Heaps.HeapSpace.SysFree` | code/kernel/memory.c:554-594 | exactly that block stops being live; it goes to the end of its free list, or its arena's pages are given back and none of its blocks is left on a list; no entirely free arena survives; the assertions hold |
| `Heaps.AllFreedRestores` | code/kernel/memory.c:455-594 | once every block is freed, mappings, virtual bitmap and frame bitmap are what they were before the first allocation |
| `Heaps.HeapSpace.FreedRestores` | code/kernel/memory.c:357-594 | for a heap from its set-up on, whatever calls came in between: when no block is live, page table, virtual bitmap and frame bitmap are those of the set-up, and no arena is left |
| `IoQueues.PutAppends` | code/device/ioqueue.c:64-83 | the ring with one byte more is the queue with that byte appended, across the wraparound |
| `IoQueues.GetRemoves` | code/device/ioqueue.c:45-61 | the ring with tail moved is the queue without its first byte |
| `IoQueues.LengthUnique` | code/device/ioqueue.c:84-93 | ioq_length is the only number of steps below the buffer size from tail to head |
| `IoQueues.IoQueue.Put` | code/device/ioqueue.c:64-83 | appends to a queue of capacity bufsize-1 |
| `IoQueues.IoQueue.Get` | code/device/ioqueue.c:45-61 | takes the oldest byte |
| `IoQueues.IoQueue.Full` | code/device/ioqueue.c:20-23 | full means bufsize-1 bytes |
| `IoQueues.IoQueue.PipeRead` | code/shell/pipe.c:38-55 | delivers the oldest bytes up to count and never blocks |
| `IoQueues.IoQueue.PipeWrite` | code/shell/pipe.c:58-74 | blocks exactly when count >= bufsize - length, after filling the queue; otherwise appends everything |
| `IoqWait.RunOk` | code/device/ioqueue.c:31-83 | as long as nobody has to wait for the lock, a recorded consumer sleeps on an empty queue and a recorded producer on a full one; the waiter assertion always holds |
| `IoqWait.BytesCount` | code/device/ioqueue.c:45-83 | over every run the length is what it was plus the bytes stored minus the bytes taken |
| `IoqWait.ConsumerServed` | code/device/ioqueue.c:45-83 | a consumer asleep on an empty queue is woken by the next byte, gives the lock back and takes that byte |
| `IoqWait.ProducerServed` | code/device/ioqueue.c:45-83 | a producer asleep on a full queue is woken by the next byte taken, gives the lock back and puts its own in |
| `IoqWait.ExactlyContention` | code/device/ioqueue.c:45-83 | the property survives a step into all states three steps later exactly when the step did not have to wait while the other side held the lock |
| `IoqWait.ContentionBreaks` | code/device/ioqueue.c:48-52 | once somebody stands behind the other side's lock, three steps break that property, because the queue is not tested again |
| `IoqWait.ContentionHappens` | code/device/ioqueue.c:48-83 | from an empty queue of any capacity there is a run to a sleeper recorded for the wrong reason |

## Left out

- FileSys.FileSystem.FileWrite: a straddling inode needs a 1024-byte buffer for `inode_sync` while `file_write` passes 512 bytes (code/fs/file.c:231, 412); the model's `Sync` uses a buffer of its own.
- FileSys.FileSystem.FileWrite: the in-place update of `i_size` and `fd_pos` inside the copying loop is stated for the whole call; a total of exactly 71680 bytes, which trips the block-count assertion, and counts that wrap round are excluded (FileSys.WriteAssertIff, FileSys.WriteLimitIff).
- FileSys.FileSystem.SyncDirEntry: the branches for an indirect table of a directory are not modelled, so a directory has fewer than 252 entries before an insertion.
- FileSys.FileSystem.MkdirAt: a free inode number below 256 is required, because above that `inode_sync` writes the record of another inode (InodeTables.SyncReachesItsRecord).
- FileSys.FileSystem.FileCreate: a free inode number below 256 is required, as for MkdirAt; `pcb_fd_install` and the descriptor tables are not modelled; a free slot of the global table is a parameter.
- FileSys.FileSystem.FileRead: calls that trip the assertion on the blocks, and counts that wrap round, are excluded; FileSys.ReadCutIff says which these are.
- FsRuns.StepKeepsInv: rmdir of a path ending in "." is not a step.
- FsRuns.RunKeepsInv: runs without an rmdir of a path ending in ".".
- FsRuns.OwnershipOverRuns: runs without an rmdir of a path ending in "."; what holds right after one is FileSys.ReleasedSound.
- FsCalls.Mkdir: the rollback after a failed block allocation is unreachable, since a full bitmap panics first.
- FsCalls.SearchFile: a path of slashes only, such as "//", is excluded, because the source then returns an uninitialised inode number; components have at most 15 bytes.
- FsCalls.GetCwd: the caller's buffer size enters only as the bound of 512 bytes.
- Pages.PageSpace.MallocPage: for more than one page the bit past the end of the virtual bitmap must read as set.
- Heaps.HeapSpace.SysMalloc: the fields of arenas and list elements inside the allocated memory are kept as values beside it, and zeroing of blocks is not modelled.
- IoqWait.RunOk: one producer and one consumer; the lock of the queue is reduced to its holder.
- Failing `sys_malloc` calls inside the file system, and the open-inode list with its counts.
- `bitmap_sync`: the bitmaps are those in memory; their copies on disk are not modelled.
- `sys_open`, `sys_close`, `sys_lseek`, descriptor sharing and `write_deny`: `file_close` clears them unconditionally, so no strong invariant holds.
- Ticks and priorities: preemption is possible at any point.
- User address spaces, `get_a_page`, page tables created on demand, and the heap across fork.
- Copying of process images, ELF loading and release of process resources on exit.
- Boot code, interrupt set-up, port I/O, `busy_wait`, console, keyboard, shell loop and `printk`.
