# A model of xv6

This project models the core of the xv6 kernel for x86, with its modified priority scheduler, and of
two of its user programs, and proves what they are for.

| part | files |
|---|---|
| the redo log and crash recovery | `Log.dfy`, `LogLayer.dfy`, `GroupCommit.dfy`, `GroupCommitDrain.dfy`, `GroupCommitShipped.dfy` |
| blocks, inodes and file contents | `FsSpec.dfy`, `FsOps.dfy`, `FsLogged.dfy`, `FsCount.dfy`, `Fs.dfy`, `File.dfy` |
| file writes over the log | `FileCrash.dfy` |
| directories and link counts | `DirSpec.dfy`, `DirMachine.dfy`, `Dirs.dfy` |
| the buffer cache and the disk driver | `BioSpec.dfy`, `Bio.dfy`, `IdeSpec.dfy`, `Ide.dfy` |
| physical pages and address spaces | `VmSpec.dfy`, `VmSteps.dfy`, `VmCount.dfy`, `Vm.dfy` |
| processes and the scheduler | `ProcSpec.dfy`, `ProcMachine.dfy`, `ProcRuns.dfy`, `ProcTimes.dfy`, `ProcAgeing.dfy`, `ProcEffects.dfy`, `Proc.dfy` |
| pipes | `PipeSpec.dfy`, `PipeMachine.dfy`, `Pipe.dfy` |
| the user allocator | `UmallocSpec.dfy`, `Umalloc.dfy`, `UmallocTheorems.dfy` |
| the shell's parser and grep's matcher | `ShellSpec.dfy`, `ShellLex.dfy`, `ShellGrammar.dfy`, `ShellRoundTrip.dfy`, `Shell.dfy`, `ShellParser.dfy`, `Grep.dfy` |

Code that updates state in place is a class, or a method with loops, proved against functions on
values. Protocols are machines whose steps are the stretches of code between taking and giving up a
lock; their theorems speak of every run of any number of processes and CPUs. Where a panic is what the
source makes of a broken demand, the demand is a precondition, and where callers rely on the panic
being out of reach, that is proved.

Results that differ from what the source or its comments suggest:

- The log that mkfs lays out is one block too short for what `begin_op` reserves. Operations that have
  quota left never meet the panic of `log_write` when `log.size > LOGSIZE` (`CapacityTestQuiet`), and
  on every shorter log some run of operations with quota left does (`ShortLogPanics`); the stale
  test can even let a run overflow the log (`ShippedLogOverflows`).
- The capacity test of `log_write` comes before absorption, so on a full log it fires for a block that
  is already logged. Within its quota an operation meets the panic exactly if the log is full, and then
  only with a block that it has logged before (`PanicsOnlyOnAbsorption`); on every log that is long
  enough a run gets there (`FullLogPanics`).
- `itrunc` logs one bitmap block for each that its file's blocks lie under. On volumes of up to nine
  bitmap blocks it stays within MAXOPBLOCKS (`TruncFits`), and on every larger one there can be a file
  with which it does not (`TruncTooMuch`).
- A dispatch takes a process of the highest priority, but not always the one of lowest index: the
  first runnable process at the scheduler's cursor wins ties (`PickLowestIff` for exactly when the
  lowest index is taken, `NotLowestRun` for a run where it is not).
- Ageing is described as promotion by waiting time (xv6-public/param.h:16-17). The code counts
  dispatches: `queueTime` is the number of dispatches since a process was allocated or last promoted
  (`CountsDispatches`), and a pass promotes exactly if that has reached the threshold (`PromotedIff`).
  A process that is passed over keeps its priority for ever (`PassedOverForever`), and for every n a run
  passes a ready process over n times (`WaitsForever`).
- `kill` compares pids without looking at the state, and only a reap clears the mark. A slot is marked
  exactly if a kill found it since it was last reaped (`KilledIff`), so a process can be born killed: a
  run does `kill(0)` and then `fork` (`BornKilled`).
- A reader asleep on an empty pipe misses its wakeup exactly when a killed writer gives up in the middle of a
  write of more than 512 bytes (`StrandedIff`, with a run in `StrandedRun`).
- `create` and `link` keep link counts right exactly when the directory they add to is still linked
  (`CountsRightIff`); neither checks that, and a run reaches such a directory (`UnlinkedRun`).
- As long as no request exceeds 0x7FFF_FFF0 bytes, every block that `malloc` returns has room for the
  bytes asked for (`Heap.Session`). From a state where all memory counted is there, a block has room
  exactly if the request was at most that (`Heap.Malloc`). Beyond it the number of units wraps, or `sbrk`
  reads their size as negative, reports success and gives nothing (`SbrkGivesNothing`, with a run in
  `NoRoomRun`); after that a request at the bound can get a block without room (`BoundRun`), and `sbrk`
  can give out memory of a live block (`OverlapRun`).
- The shell opens a file for `>>` as it does for `>`, so a tree does not tell which stood there, and either
  may be printed (`RoundTrip`).

## Model

| member | source | states |
|---|---|---|
| `Log.CrashAtomicity` | xv6-public/log.c:68-202 | commit cut after any number of its block writes, then recovery cut and restarted any number of times, leaves the home blocks all old or all new, and all new exactly when the first header write was done |
| `Log.CommitCut` | xv6-public/log.c:176-202 | the disk in the middle of commit stands for the old image up to the header write and for the new one from it on |
| `Log.CommitWhole` | xv6-public/log.c:192-202 | an uncut commit leaves the whole transaction at home and the log empty |
| `Log.RecoverCut` | xv6-public/log.c:115-122 | recovery cut anywhere changes nothing of the image the disk stands for |
| `Log.RecoverFull` | xv6-public/log.c:115-122 | full recovery leaves exactly that image at home and an empty log |
| `Log.DurableAt` | xv6-public/log.c:68-82 | which block of the disk a crash keeps, block by block, independently of the writes recovery makes |
| `Log.HeaderRoundTrip` | xv6-public/log.c:84-113 | a header that was written reads back as the block list it was made from |
| `LogLayer.LogState.constructor` | xv6-public/log.c:53-66 | a booted machine has nothing cached |
| `LogLayer.LogState.LogWrite` | xv6-public/log.c:213-233 | the block list absorbs a block already there and grows by one otherwise, the buffer is pinned, readers see the new data, and the panics are exactly those of the two tests |
| `LogLayer.LogState.WriteLog` | xv6-public/log.c:176-190 | its loop writes each logged block to its log slot, in order and nothing else |
| `LogLayer.LogState.InstallTrans` | xv6-public/log.c:68-82 | its loop copies each log slot home, in order and nothing else |
| `LogLayer.LogState.ReadHead` | xv6-public/log.c:84-96 | the in-memory list becomes the one on disk |
| `LogLayer.LogState.WriteHead` | xv6-public/log.c:98-113 | one write of the header block with the list in it |
| `LogLayer.LogState.Commit` | xv6-public/log.c:192-202 | the disk writes of commit are exactly the sequence that the crash theorems cut |
| `LogLayer.LogState.RecoverFromLog` | xv6-public/log.c:115-122 | the disk ends as full recovery says |
| `GroupCommit.Step` | xv6-public/log.c:124-233 | every step of every process keeps the invariant: outstanding counts the operations, lh.n plus unused quota fits the log, dirty buffers are exactly the logged blocks, no lost wakeup |
| `GroupCommit.RunInv` | xv6-public/log.c:124-233 | the invariant holds after every run |
| `GroupCommit.BootInv` | xv6-public/log.c:53-66 | and after boot on a recovered disk |
| `GroupCommit.CrashAnywhere` | xv6-public/log.c:124-233 | a crash at any moment of any run, then recovery cut any number of times, leaves the home blocks as a prefix of the logged writes made them, each operation wholly in or wholly out |
| `GroupCommit.QuietIsDurable` | xv6-public/log.c:143-174 | when nothing is in progress every write of every finished operation survives a crash |
| `GroupCommit.CommitAlone` | xv6-public/log.c:143-202 | during commit no operation is outstanding, no log_write happens and exactly one process commits |
| `GroupCommit.CapacityTestQuiet` | xv6-public/log.c:213-221 | with log.size > LOGSIZE the panics of log_write are out of reach of an operation that has quota left |
| `GroupCommit.TestFiresOnlyWhenFull` | xv6-public/log.c:213-221 | if the test fires the log is full and every operation has used its quota |
| `GroupCommit.PanicsOnlyOnAbsorption` | xv6-public/log.c:218-228 | within its quota an operation meets the panic if and only if the log is full and the block is one it has logged already |
| `GroupCommit.StaleTestHarmless` | xv6-public/log.c:218-230 | the slot that log_write fills exists although its test was made before the lock was taken |
| `GroupCommit.SleeperHasWaker` | xv6-public/log.c:125-141 | a process asleep in begin_op has a committer or an operation whose end will wake it |
| `GroupCommit.BeginsIff` | xv6-public/log.c:125-141 | in every run begin_op goes ahead if and only if no process commits and ten blocks for each operation in progress and for this one fit besides those logged; otherwise it sleeps |
| `GroupCommitDrain.BlockedIff` | xv6-public/log.c:124-233 | in every run a process has no step to take if and only if it is asleep in begin_op |
| `GroupCommitDrain.SomeoneEnds` | xv6-public/log.c:143-233 | as long as an operation or a commit is in progress some step brings one nearer to its end |
| `GroupCommitDrain.CanAlwaysFinish` | xv6-public/log.c:124-233 | no run is a dead end: from wherever it is the operations in progress can end without a new one beginning, and then every log_write made is on disk and nobody sleeps |
| `GroupCommitShipped.ShortLogPanics` | xv6-public/log.c:213-221 | on every log of at most LOGSIZE blocks some run within quota reaches the panic |
| `GroupCommitShipped.ShippedLogOverflows` | xv6-public/mkfs.c:25 | on the layout of mkfs two processes past the stale test log more blocks than the log has slots |
| `GroupCommitShipped.FullLogPanics` | xv6-public/log.c:218-228 | on every longer log a run of three operations fills the log, and logging a block again, within quota, fires the test |
| `FileSystem.Volume.constructor` | xv6-public/mkfs.c:94-108 | a file system with only its metadata in use meets the invariant |
| `FileSystem.Volume.Balloc` | xv6-public/fs.c:55-78 | the lowest free block, marked and zeroed, and its two log entries; failure only when every block is in use |
| `FileSystem.Volume.Bfree` | xv6-public/fs.c:80-95 | the bit of the block is cleared, and the panic fires exactly for a block that is free |
| `FileSystem.MarkBit` | xv6-public/fs.c:66-68 | setting or clearing one bit of the bitmap bytes changes the state of one block |
| `FileSystem.Volume.Bmap` | xv6-public/fs.c:370-400 | the block where the inode, or the word of its indirect block, says it is; unchanged state if it was mapped, else a newly owned one, and no other block appears; bounds on what it logs; failure if and only if the block is past the largest file or there are fewer free blocks than it takes |
| `FileSystem.Volume.BmapIndirect` | xv6-public/fs.c:382-397 | the same behind the indirect block, which is made if there is none and then takes a block too |
| `FileSystem.Volume.Itrunc` | xv6-public/fs.c:402-435 | exactly the blocks the inode owned become free, each freed once so that the panic is unreachable, and all other files keep their bytes; it logs exactly the bitmap blocks of those and the inode's block, which covers every change |
| `FsLogged.TruncFits` | xv6-public/fs.c:402-435 | that is at most ten blocks on volumes of up to nine bitmap blocks |
| `FsLogged.TruncTooMuch` | xv6-public/fs.c:402-435 | on every larger volume there can be a file, in a volume in order, for which it is eleven |
| `FileSystem.Volume.Readi` | xv6-public/fs.c:449-476 | the clipped slice of the flat file, error cases as in the source, and no allocation |
| `FileSystem.Volume.Writei` | xv6-public/fs.c:478-511 | the flat file becomes the splice of the data at the offset, every other file is unchanged, ownership and absence of holes stay; it runs out of blocks if and only if the write is not refused and fewer are free than the blocks it lacks and the indirect block on the way, and else takes exactly those; every block that changed is logged, the inode's included although iupdate is called only when the file grows; a write of up to three blocks' worth logs at most MAXOPBLOCKS blocks |
| `FsCount.BlocksSplit` | xv6-public/fs.c:498-504 | what a stretch of blocks takes is what its first part takes and what the rest takes after that, even if the rest starts inside the first part |
| `FsCount.PaidMore` | xv6-public/fs.c:498-504 | so writes one after the other take exactly what one write of all takes |
| `FsCount.NoneFree` | xv6-public/fs.c:62-76 | the count of free blocks is zero if and only if every block is in use |
| `FsSpec.OneOwner` | xv6-public/fs.c:370-400 | two pointers to the same block are the same pointer |
| `FsSpec.WordSetWord` | xv6-public/fs.c:389-394 | storing a word of an indirect block changes that word only |
| `FileLayer.OpenFile.FileWrite` | xv6-public/file.c:115-156 | a write of any length puts a prefix of the data at the offset, and how much: all, or the chunks before the first that reaches beyond the largest file, or nothing if the offset is past the end; it runs out of blocks if and only if fewer are free than that takes; one transaction per chunk tried, each from the volume that the last one left to one in order with its chunk written, which logs every change and at most MAXOPBLOCKS blocks; "short filewrite" is unreachable; other files keep their bytes |
| `FileLayer.OpenFile.WriteChunk` | xv6-public/file.c:140-151 | one transaction of it, recorded with the volume before and after and the blocks it logged |
| `FileLayer.FitChunk` | xv6-public/file.c:135-152 | which chunks of a write lie within the largest file |
| `FileLayer.SpliceSplice` | xv6-public/file.c:135-152 | chunk after chunk is one splice |
| `FileCrash.UnloggedSame` | xv6-public/fs.c:478-511 | a block that the transaction did not log looks the same on disk before and after |
| `FileCrash.TxnShows` | xv6-public/log.c:213-233 | the log_writes of a transaction take a disk that holds the volume before to one that holds the volume after |
| `FileCrash.WholeKept` | xv6-public/log.c:124-233 | what a crash keeps of transactions made one after the other is a number of whole ones |
| `FileCrash.CrashDuringWrite` | xv6-public/file.c:135-152 | a crash at any moment of a write of any length, then recovery cut any number of times, leaves a volume in order with a number of whole chunks written and all other files as they were; all chunks when no transaction is open |
| `FileCrash.ShowsOne` | xv6-public/fs.h:13-48 | the disk determines the volume |
| `DirSpec.NameCmpIff` | xv6-public/fs.c:516-520 | two 14-byte names compare equal exactly when they agree up to their NULs |
| `DirSpec.LinkedIsMap` | xv6-public/fs.c:550-578 | adding a new name keeps a directory a map from names to inodes |
| `DirMachine.Step` | xv6-public/sysfile.c:117-283 | create, link, unlink and the freeing by iput keep the invariant: link counts equal the entries in linked directories, "." aside, and each linked directory lies one below the linked directory that its ".." names, which has its only other name |
| `DirMachine.Runs` | xv6-public/sysfile.c:117-283 | so it holds after every run that adds entries to linked directories only |
| `DirMachine.EmptyInv` | xv6-public/mkfs.c:117-128 | it holds for a root directory with its dots |
| `DirMachine.Tree` | xv6-public/sysfile.c:117-283 | in every such run from mkfs's state the linked directories are a tree: the way over ".." from each ends at the root, and no directory is named twice |
| `DirMachine.CountsRightIff` | xv6-public/sysfile.c:117-283 | a call that adds an entry keeps all link counts right if and only if the directory is linked |
| `DirMachine.UnlinkedMkdir` | xv6-public/sysfile.c:269-278 | a directory made in an unlinked one leaves its parent with a name it has no link for |
| `DirMachine.UnlinkedFile` | xv6-public/sysfile.c:266-278 | a file added to an unlinked directory has a link that nothing accounts for |
| `DirMachine.UnlinkedRun` | xv6-public/sysfile.c:241-283 | a run that does it: make a directory, remove it, make a file in it |
| `DirMachine.FreesUnnamed` | xv6-public/fs.c:331-352 | iput frees only inodes that no linked directory names |
| `DirMachine.UnlinkHasLink` | xv6-public/sysfile.c:203-212 | the panic of unlink is unreachable, for every name it finds, that of a directory with entries included |
| `DirMachine.OneName` | xv6-public/sysfile.c:167-181 | a directory that isdirempty passes has exactly one name, the one in its parent |
| `DirMachine.ParentKeepsLink` | xv6-public/sysfile.c:221-224 | a directory that loses a subdirectory stays linked |
| `DirMachine.UnlinkRemoves` | xv6-public/sysfile.c:183-239 | unlink removes a name if and only if it is no dot and an entry in use has it that does not lead to a directory with entries; then that entry alone is cleared, its inode loses one link, and the parent one if it was a directory, and the name is gone; otherwise nothing changes |
| `DirMachine.CreateAdds` | xv6-public/sysfile.c:241-283 | create adds a name if and only if no entry in use has it: the lowest free inode gets the kind, one link and, as a directory, its dots and the parent one link more; the new entry goes into the first free slot; otherwise nothing changes |
| `DirMachine.LinkAdds` | xv6-public/sysfile.c:117-165 | link adds a name if and only if no entry in use has it: one entry and one link more |
| `DirCode.NameCmp` | xv6-public/fs.c:516-520 | the comparison loop decides equality of names up to their NULs |
| `DirCode.DirLookup` | xv6-public/fs.c:522-548 | the first entry in use with the name |
| `DirCode.DirLink` | xv6-public/fs.c:550-578 | refused if the name is there, else the entry goes into the first free slot or at the end |
| `DirCode.IsDirEmpty` | xv6-public/sysfile.c:167-181 | true exactly if no entry behind the dots is in use |
| `DirCode.Volume.constructor` | xv6-public/mkfs.c:117-128 | the state after mkfs meets the invariant |
| `DirCode.Volume.Create` | xv6-public/sysfile.c:241-283 | returns the file found for a name that is there if a file was wanted and 0 for any other, with nothing changed; for a name that is not there, the new inode with its link, its dots and its entry as spelled out |
| `DirCode.Volume.MakeDots` | xv6-public/sysfile.c:269-275 | the two dots go into the first two slots and the parent gets its link |
| `DirCode.Volume.IAlloc` | xv6-public/fs.c:194-214 | the lowest free inode, cleared |
| `DirCode.Volume.Link` | xv6-public/sysfile.c:117-165 | 0 if and only if the inode is no directory and no entry in use has the name, and then one entry and one link more; otherwise -1 and nothing changed, the count given back |
| `DirCode.Volume.Unlink` | xv6-public/sysfile.c:183-239 | 0 if and only if the name is no dot and an entry in use has it that does not lead to a directory with entries; then that entry is cleared, the links drop and the name is gone; otherwise -1 and nothing changed; the invariant stays |
| `BioSpec.Remove` | xv6-public/bio.c:132-133 | taking a buffer out leaves prev and next inverse to each other over the rest |
| `BioSpec.Push` | xv6-public/bio.c:134-137 | putting a buffer first does too |
| `BioSpec.Listed` | xv6-public/bio.c:29-36 | every buffer is on the list |
| `BioSpec.ValidIsLatest` | xv6-public/bio.c:95-106 | a valid buffer has the latest contents of its block |
| `BufferCache.BCache.constructor` | xv6-public/bio.c:38-56 | binit makes a circular list of all buffers |
| `BufferCache.BCache.FindCached` | xv6-public/bio.c:68-76 | finds the buffer that holds a block if there is one |
| `BufferCache.BCache.FindVictim` | xv6-public/bio.c:78-91 | of the idle clean buffers the least recently released; none only if all are in use or pinned |
| `BufferCache.BCache.Bget` | xv6-public/bio.c:58-93 | at most one buffer per block stays true, a cached block gets one more holder, otherwise the victim is recycled, and no block changes contents |
| `BufferCache.BCache.Bread` | xv6-public/bio.c:95-106 | a held buffer with the latest contents of the block |
| `BufferCache.BCache.LogWrite` | xv6-public/log.c:213-233 | pins the buffer and makes its data the latest contents of that block only |
| `BufferCache.BCache.Bwrite` | xv6-public/bio.c:108-116 | the disk gets the data and the buffer is clean |
| `BufferCache.BCache.Brelse` | xv6-public/bio.c:118-141 | the last holder moves the buffer to the front; the list stays a permutation in order of release, and no block changes |
| `IdeSpec.Step` | xv6-public/ide.c:102-168 | every call, interrupt and return keeps the queue without repeats and the device on the request at its head |
| `IdeSpec.Refines` | xv6-public/ide.c:102-168 | in every run buffers and disk are what memide's one-step driver makes of the same requests in the order of service |
| `IdeSpec.StepRefines` | xv6-public/memide.c:38-60 | one interrupt is one synchronous request, every other step of the driver is none |
| `IdeSpec.ReturnsServed` | xv6-public/ide.c:161-167 | in every run from the idle driver, when iderw returns an earlier interrupt served its request, and the buffer is what memide makes of buffer and disk of that moment; which data that is, `ReadsNewest` says |
| `IdeSpec.DiskNewest` | xv6-public/ide.c:72-131 | after every run each block of the disk holds what the last write request served for it carried, or what it held at the start |
| `IdeSpec.ReadsNewest` | xv6-public/ide.c:133-168 | in every run from the idle driver a read returns the data of the last write to that block served before it, or what the disk had from the start; a write returns its own data; the buffer is valid and clean |
| `IdeSpec.InTurn` | xv6-public/ide.c:102-168 | a request moves up by one at each interrupt and by nothing else |
| `IdeSpec.ReturnsInTurn` | xv6-public/ide.c:133-168 | in every run a call that found p requests before its own can return if and only if there have been more than p interrupts since, whatever others call, return or change |
| `IdeSpec.FirstInFirstOut` | xv6-public/ide.c:151-155 | in every run from the idle driver the calls are the requests served so far, in order, followed by the queue, which repeats none |
| `IdeSpec.IdleInv` | xv6-public/ide.c:50-70 | the idle driver meets the invariant |
| `IdeCode.Driver.constructor` | xv6-public/ide.c:27-35 | an empty queue |
| `IdeCode.Driver.IdeStart` | xv6-public/ide.c:72-100 | a write command with key and data of a dirty buffer, or a read command with the key |
| `IdeCode.Driver.LastRequest` | xv6-public/ide.c:153-154 | the loop over qnext ends at the last request |
| `IdeCode.Driver.Call` | xv6-public/ide.c:133-159 | the request goes last and is started if alone |
| `IdeCode.Driver.Interrupt` | xv6-public/ide.c:102-131 | the head of the queue is served: a dirty buffer's data goes to its block on disk, any other gets the data of its block, and it becomes valid and clean; no other buffer and no other block changes, and the next request is started |
| `VmSpec.StoreEntry` | xv6-public/vm.c:32-55 | a store to one table entry changes the translation of one page of one directory |
| `VmSpec.NewTable` | xv6-public/vm.c:44-53 | a new table page changes no translation |
| `VmSpec.NoTableNothing` | xv6-public/vm.c:266-268 | without a table nothing is mapped in the pages of that directory entry |
| `VmSpec.RowPages` | xv6-public/vm.c:103-115 | the pages of each row of the kernel map in 32-bit arithmetic, the last up to the top |
| `VmSpec.FreePop` | xv6-public/kalloc.c:89-91 | following the link of the first free page leaves a correct list of the rest |
| `VmSpec.FreePush` | xv6-public/kalloc.c:67-74 | pushing a page keeps the list correct |
| `VmSteps.SkipAddress` | xv6-public/vm.c:264-268 | where the loop of deallocuvm goes next, with and without a table, in 32-bit arithmetic |
| `VmSteps.ExtendUndone` | xv6-public/vm.c:235-246 | undoing a partial extension restores every translation and leaves at most tables |
| `VmSteps.ApartFreed` | xv6-public/vm.c:342-344 | freeing a space under construction gives every page back |
| `VmSteps.Isolated` | xv6-public/vm.c:221-345 | a page that a user mapping leads to is no page of any other user mapping, no table, no directory and not free |
| `Vm.Machine.constructor` | xv6-public/kalloc.c:31-37 | before kinit no page is free |
| `Vm.Machine.FreeRange` | xv6-public/kalloc.c:46-53 | every whole page of the range becomes free and no other |
| `Vm.Machine.KAlloc` | xv6-public/kalloc.c:79-95 | the first page of the free list, 0 exactly if it is empty |
| `Vm.Machine.KFree` | xv6-public/kalloc.c:55-77 | the page goes first on the list, its contents become junk, and no other page changes |
| `Vm.Machine.WalkPgdir` | xv6-public/vm.c:32-55 | the table of the page, made if wanted, without a change of any translation; 0 if and only if there is none and it is not wanted or no page is free |
| `Vm.Machine.MapPages` | xv6-public/vm.c:57-80 | exactly the pages of the range translate to the frames, or a prefix of them when tables run out, which is if and only if fewer pages are free than tables are missing; user pages become owned |
| `Vm.Machine.SetupKvm` | xv6-public/vm.c:117-136 | a new directory with the kernel part, which takes 65 pages, or 0 with every page given back, if and only if fewer are free |
| `Vm.Machine.DeallocUvm` | xv6-public/vm.c:251-279 | with its skips over missing tables it does what unmapping page by page does: the mappings of the range are gone, their pages free, all else as before |
| `Vm.Machine.FreeVm` | xv6-public/vm.c:281-298 | exactly the pages the address space owned become free, and other spaces translate as before |
| `Vm.Machine.AllocUvm` | xv6-public/vm.c:219-249 | zeroed pages for exactly the range, or 0 with every translation restored and at most empty tables kept; 0 if and only if fewer pages are free than pages and missing tables are needed |
| `Vm.Machine.CopyUvm` | xv6-public/vm.c:313-345 | equal bytes and flags on pages of its own, or 0 with every page where it was; 0 if and only if fewer pages are free than 65, one for each page and one for each 1024 of them begun |
| `Vm.Machine.CopyPage` | xv6-public/vm.c:325-339 | one page of it |
| `VmCount.NeedStep` | xv6-public/vm.c:234-247 | mapping a page takes it and its table, if missing, off what is still to come |
| `VmCount.RowTakes` | xv6-public/vm.c:128-134 | what each row of the kernel map takes, and that it fails if and only if too few pages are free |
| `VmCount.KernelDone` | xv6-public/vm.c:103-136 | all four rows and the directory take 65 pages |
| `ProcSpec.PickIsMaximal` | xv6-public/proc.c:322-344 | a process is dispatched if and only if one at or after the cursor is runnable; it is runnable and no runnable one has a higher priority; who wins ties |
| `ProcSpec.PickLowestIff` | xv6-public/proc.c:322-344 | it is the one of lowest index exactly if no equal lies below the first runnable one at the cursor |
| `ProcSpec.PickNotLowest` | xv6-public/proc.c:322-344 | a table on which it is not |
| `ProcRuns.NotLowestRun` | xv6-public/proc.c:322-362 | a run from boot to a dispatch where it is not |
| `ProcSpec.AgeThreshold` | xv6-public/proc.c:378-385 | after the pass no process is at or past its threshold, and one below keeps priority and queue time |
| `ProcMachine.Step` | xv6-public/proc.c:171-387 | every step of every CPU and process keeps the invariant |
| `ProcMachine.RunningStep` | xv6-public/proc.c:349-362 | a process is RUNNING exactly if one CPU names it |
| `ProcMachine.TreeStep` | xv6-public/proc.c:171-257 | every started process but init keeps a live parent older than itself |
| `ProcMachine.ExitWaiters` | xv6-public/proc.c:239-254 | an exit leaves no parent asleep in wait with a zombie child |
| `ProcMachine.ReapingStep` | xv6-public/proc.c:259-299 | what exits is a zombie until it is reaped, once |
| `ProcMachine.LeaveTimes` | xv6-public/proc.c:364-377 | the pass after a dispatch keeps the sum of run, sleep and ready time equal to the dispatches completed; which of them it charges, `TimesCount` says |
| `ProcRuns.BootInv` | xv6-public/proc.c:113-147 | the state after userinit meets the invariant |
| `ProcRuns.RunInv` | xv6-public/proc.c:171-387 | so it holds after every run |
| `ProcRuns.LivePidsDistinct` | xv6-public/proc.c:63-87 | slots in use never share a pid |
| `ProcRuns.RunningOnOneCpu` | xv6-public/proc.c:349-362 | in every reachable state a process is RUNNING iff a CPU names it, and only one does |
| `ProcRuns.DescendsFromInit` | xv6-public/proc.c:171-257 | every started process has a chain of live parents up to init |
| `ProcRuns.NoLostExit` | xv6-public/proc.c:259-299 | no process sleeps in a wait call while it has a zombie child |
| `ProcRuns.ReapedOnce` | xv6-public/proc.c:259-299 | each exited process is still a zombie or was reaped, once |
| `ProcRuns.WaitTimesAddUp` | xv6-public/proc.c:608-655 | the three times wait2 returns add up to the dispatches completed on all CPUs since the child was allocated |
| `ProcTimes.AgeCharges` | xv6-public/proc.c:364-377 | the pass charges a process nothing if it ran, else one unit to its sleep if it sleeps and to its ready time if not |
| `ProcTimes.TimesCount` | xv6-public/proc.c:349-377 | in every run from boot rutime is the number of dispatches of the process since it was allocated, stime and retime those of others that ended while it slept and while it did not |
| `ProcTimes.WaitTimesCount` | xv6-public/proc.c:608-655 | so wait2 returns exactly these three numbers of the child it reaps |
| `ProcRuns.DispatchIsMaximal` | xv6-public/proc.c:322-350 | in every run a scheduler with the lock dispatches a process if and only if one at or after its cursor is runnable, and then one of maximal priority, which runs on that CPU and has a priority from 1 to 3; else nothing changes but the lock |
| `ProcRuns.IdleCpuTakesWork` | xv6-public/proc.c:311-388 | in every run the lock, if held, can be given up, and if it is free an idle CPU comes to run a process of maximal priority in two steps if any is runnable |
| `ProcRuns.PassedOverForever` | xv6-public/proc.c:354-386 | a process that no dispatch takes keeps its priority and queue time however long the run |
| `ProcAgeing.CountsDispatches` | xv6-public/proc.c:349-386 | in every run from boot queueTime is the number of dispatches since allocation or the last promotion |
| `ProcAgeing.PromotedIff` | xv6-public/proc.c:378-385 | in every run a pass raises a priority, by one, if and only if that number has reached the threshold of the priority |
| `ProcAgeing.WaitsForever` | xv6-public/proc.c:322-386 | for every n a run from boot that passes a ready process of priority 2 over n times and leaves its priority and queue time as they were |
| `ProcEffects.WakeupWakes` | xv6-public/proc.c:523-536 | a wakeup makes exactly the sleepers on its channel runnable, and no one is left asleep on it |
| `ProcEffects.KillMarks` | xv6-public/proc.c:541-557 | a kill of a started process marks it and leaves it awake, and changes nothing else |
| `ProcEffects.KilledIff` | xv6-public/proc.c:541-557 | in every run from boot a slot is marked if and only if a kill found it since it was last reaped |
| `ProcEffects.BornKilled` | xv6-public/proc.c:541-557 | a run in which fork makes a process that is marked already |
| `ProcEffects.LeaveStates` | xv6-public/proc.c:457-518 | a process that leaves its CPU is runnable, asleep on what it waits for, or a zombie, and the scheduler of that CPU has the lock and stands behind it |
| `ProcEffects.ForkMakes` | xv6-public/proc.c:171-212 | the steps of fork make the first unused slot a runnable child of the caller with the next pid, no time on record and the priority given |
| `ProcTable.PTable.constructor` | xv6-public/proc.c:10-17 | an empty table |
| `ProcTable.PTable.AllocProc` | xv6-public/proc.c:67-87 | the first unused slot becomes an embryo with the next pid, priority 2 and no time on record, and no other slot changes; no slot if and only if none is unused |
| `ProcTable.PTable.Wakeup1` | xv6-public/proc.c:520-529 | exactly the sleepers on the channel become runnable, and nothing else changes |
| `ProcTable.PTable.Abandon` | xv6-public/proc.c:245-251 | one slot of the loop that reparents and wakes init |
| `ProcTable.PTable.Exit` | xv6-public/proc.c:239-254 | the loops of exit, with wakeups in their middle: the caller is a zombie, its children are init's, and exactly those asleep in wait as its parent, or as init when a zombie child is handed over, wake; this is the table that the machine's exit gives |
| `ProcTable.PTable.WaitScan` | xv6-public/proc.c:608-650 | one scan of wait, wait2 or wait3 reaps the first zombie child, clears its slot and returns its times and priority; else nothing changes and it tells whether there are children |
| `ProcTable.PTable.Select` | xv6-public/proc.c:322-344 | the nested loops find a process if and only if one at or after the cursor is runnable, and then one of maximal priority; who wins ties |
| `ProcTable.PTable.Dispatch` | xv6-public/proc.c:349-355 | the state and counters of a dispatched process |
| `ProcTable.PTable.AgePass` | xv6-public/proc.c:364-386 | every slot is charged to sleep or ready time and promoted at its threshold, as spelled out, and none is left past its threshold |
| `ProcTable.PTable.Kill` | xv6-public/proc.c:538-557 | the first slot with the pid is marked and, if asleep, woken, and no other changes; -1 if and only if there is none |
| `ProcTable.PTable.ChangePrio` | xv6-public/proc.c:589-606 | the first slot with the caller's pid gets the priority |
| `ProcTable.ChangePrioFindsCaller` | xv6-public/proc.c:589-606 | that slot is the caller's, stale pids in unused slots included |
| `PipeSpec.Level` | xv6-public/pipe.c:85-106 | full and empty are told by the wrapping counters |
| `PipeSpec.FillHolds` | xv6-public/pipe.c:84-94 | storing appends as many bytes as there is room for |
| `PipeSpec.DrainHolds` | xv6-public/pipe.c:113-117 | reading takes the oldest bytes, as many as there are |
| `PipeMachine.Step` | xv6-public/pipe.c:59-121 | every step, kills between a process's test of its flag and its sleep included, keeps bytes in order and no sleeping writer without cause |
| `PipeMachine.Runs` | xv6-public/pipe.c:59-121 | so it is after every run |
| `PipeMachine.FromStart` | xv6-public/pipe.c:59-121 | bytes read are a prefix of bytes stored, at most PIPESIZE are pending, a sleeping writer has a full ring and an open read end |
| `PipeMachine.StrandedIff` | xv6-public/pipe.c:85-92 | a step makes a reader sleep before bytes exactly if a killed writer gives up in mid-write before a sleeping reader |
| `PipeMachine.CalmRuns` | xv6-public/pipe.c:100-121 | without such a step a sleeping reader has an empty ring and an open write end, after every run |
| `PipeMachine.StrandedRun` | xv6-public/pipe.c:85-92 | a run that strands a reader |
| `PipeMachine.KillWakes` | xv6-public/proc.c:541-557 | a kill does not leave its process asleep in the pipe: it goes on with its call where it was |
| `PipeCode.Pipe.constructor` | xv6-public/pipe.c:33-36 | an empty ring with both ends open |
| `PipeCode.Pipe.Write` | xv6-public/pipe.c:78-98 | one stretch of pipewrite appends to the bytes in the pipe as many as there is room for, in order; how it ends and whom it wakes |
| `PipeCode.Pipe.Read` | xv6-public/pipe.c:100-121 | one stretch of piperead takes the oldest bytes of the pipe, as many as there are or were asked for, and leaves the rest; how it ends and whom it wakes |
| `UmallocSpec.Link` | xv6-public/umalloc.c:33-43 | linking a live block where it belongs keeps the list circular and in address order |
| `UmallocSpec.Merge` | xv6-public/umalloc.c:33-43 | merging touching blocks keeps it so and leaves one touching place fewer |
| `UmallocSpec.FreeAll` | xv6-public/umalloc.c:33-43 | the stores of free, in all four cases of merging, give a list in order where no two blocks touch |
| `UmallocSpec.SearchStops` | xv6-public/umalloc.c:30-32 | the search of free stops at a block exactly if the freed block belongs behind it |
| `UmallocSpec.Unlink` | xv6-public/umalloc.c:76-77 | taking a whole block keeps the list |
| `UmallocSpec.Carve` | xv6-public/umalloc.c:78-82 | taking the tail of a block keeps the list and splits the block |
| `UmallocSpec.Obtain` | xv6-public/umalloc.c:54-58 | fresh memory from sbrk is one new block |
| `Umalloc.Heap.constructor` | xv6-public/umalloc.c:21-22 | before the first malloc there is no list |
| `Umalloc.Heap.Sbrk` | xv6-public/proc.c:151-166 | the size and the pages of the process after sbrk of any signed amount, and when it returns -1: too large, no pages, or nothing left; an amount that reaches below 0 changes nothing and is reported as a success |
| `Umalloc.SignOfProduct` | xv6-public/umalloc.c:54 | how sbrk reads the 32-bit product that morecore passes |
| `Umalloc.AsMeant` | xv6-public/proc.c:156-158 | a product read as positive gets its bytes, or a refusal that changes nothing |
| `Umalloc.SbrkGivesNothing` | xv6-public/proc.c:159-161 | for requests from 0x7FFF_FFF1 bytes up to where the sum wraps, sbrk gives no memory even when it reports success |
| `Umalloc.Heap.Free` | xv6-public/umalloc.c:24-44 | the search ends, the block is free, every other live block stays with its bytes, the invariant stays |
| `Umalloc.Heap.Spot` | xv6-public/umalloc.c:30-32 | the loop of free ends at a place where the block belongs |
| `Umalloc.Heap.MoreCore` | xv6-public/umalloc.c:46-61 | what sbrk reports as given for the 32-bit product joins the free list; 0 if it refused; a trap exactly if the header would lie beyond the pages or all pages are gone |
| `Umalloc.StillProcess` | xv6-public/proc.c:151-166 | after anything but a trap the pages of the process end with its size |
| `Umalloc.Heap.Malloc` | xv6-public/umalloc.c:63-90 | the search ends; a new live block of the wanted units, from a free block if and only if one is large enough, and then the tail of the first such that one meets going round from freep; otherwise from sbrk, or 0 or a trap, each exactly when sbrk refuses or the process traps; live blocks stay with their bytes; if all memory counted was there, the block has room for the bytes asked for if and only if those are at most 0x7FFF_FFF0 |
| `Umalloc.Heap.Session` | xv6-public/umalloc.c:24-90 | any sequence of requests of at most 0x7FFF_FFF0 bytes and of blocks given back: nothing traps, every block has room, the blocks held are live and distinct |
| `Umalloc.RoomIff` | xv6-public/umalloc.c:69 | the same condition on any state of the allocator: the units neither wrap nor run past the pages of the process |
| `Umalloc.AskedAsMeant` | xv6-public/umalloc.c:54-69 | 0x7FFF_FFF0 is where the sum does not wrap and the product does not turn negative |
| `Umalloc.NoRoomRun` | xv6-public/umalloc.c:46-90 | a run, 40000 bytes and then 2^31, that returns a block without room |
| `Umalloc.BoundRun` | xv6-public/umalloc.c:46-90 | the same run, the block given back and 0x7FFF_FFF0 bytes asked for: a block without room |
| `Umalloc.OverlapRun` | xv6-public/umalloc.c:54 | after the same run sbrk returns memory of the live block |
| `UmallocTheorems.BlocksDisjoint` | xv6-public/umalloc.c:24-90 | no two blocks, free or live, overlap |
| `UmallocTheorems.UnitsConserved` | xv6-public/umalloc.c:24-90 | free units plus live units are the units obtained from the system |
| `UmallocTheorems.ProgramStores` | xv6-public/umalloc.c:84 | what a program stores in its blocks leaves the allocator's state in order |
| `ShellSpec.TokensOk` | xv6-public/sh.c:265-308 | every word token is a maximal run of word characters |
| `ShellLex.TokensLex` | xv6-public/sh.c:265-308 | the tokens of a line cover it but for white space: symbols stand for themselves, ">>" is one token and a single ">" another, and all between are words |
| `ShellLex.LexOnly` | xv6-public/sh.c:265-308 | and no other sequence of tokens covers it |
| `ShellGrammar.LineSound` | xv6-public/sh.c:344-359 | what the recursive descent accepts is in the grammar of lines |
| `ShellGrammar.LineFound` | xv6-public/sh.c:344-359 | and it finds every command that the grammar derives, in any context that ends a line |
| `ShellGrammar.ParseIff` | xv6-public/sh.c:327-342 | a line parses to a command if and only if the grammar derives the command from all its tokens |
| `ShellRoundTrip.RoundTrip` | xv6-public/sh.c:265-446 | every command tree with at most 9 words per simple command, printed with parentheses only where precedence needs them and parsed, comes back, whatever white space stands between the tokens, none included where they do not run together, and with ">" or ">>" |
| `ShellRoundTrip.ParsedIsPrintable` | xv6-public/sh.c:327-446 | every line that parses yields such a tree, so these are exactly the trees of the parser, and printing a parsed line keeps its meaning |
| `ShellRoundTrip.LineBack` | xv6-public/sh.c:344-359 | the tokens of a line, with parentheses only where precedence needs them, parse back in any context that ends a line |
| `ShellRoundTrip.BackBack` | xv6-public/sh.c:349-353 | a command behind any number of "&" parses back |
| `ShellRoundTrip.PipeBack` | xv6-public/sh.c:361-372 | pipes parse back, associating to the right |
| `ShellRoundTrip.ExecBack` | xv6-public/sh.c:399-446 | simple commands, blocks and their redirections parse back, the first redirection innermost |
| `ShellRoundTrip.LexRender` | xv6-public/sh.c:265-308 | a line printed in any such look has the tokens printed |
| `ShellCode.ParseGood` | xv6-public/sh.c:327-446 | whatever parses, its words and file names are words of the line, at most 9 to a simple command |
| `ShellCode.Terminated` | xv6-public/sh.c:448-493 | after nulterminate every word and file name is a string of its own equal to its token; no store lands inside a word |
| `ShellCode.NulTerminate` | xv6-public/sh.c:448-493 | stores NULs at exactly the ends of the words of the tree |
| `ShellParser.Parser.constructor` | xv6-public/sh.c:327-334 | the cursor starts at the line |
| `ShellParser.Parser.GetToken` | xv6-public/sh.c:265-308 | the next token of the line, spelled by the characters from q to eq, with only white space between it and where the cursor was and is; NUL if and only if only white space is left |
| `ShellParser.Parser.Peek` | xv6-public/sh.c:310-320 | whether the next character is one of the given, without using up a token |
| `ShellParser.Parser.ParseCmd` | xv6-public/sh.c:327-342 | ends on every line, and returns a command if and only if the grammar derives that command from the line's tokens |
| `ShellParser.Parser.Line` | xv6-public/sh.c:344-359 | the same for a line |
| `ShellParser.Parser.PipeLine` | xv6-public/sh.c:361-372 | the same for a pipe |
| `ShellParser.Parser.RedirList` | xv6-public/sh.c:374-397 | the same for redirections |
| `ShellParser.Parser.Simple` | xv6-public/sh.c:399-446 | the same for a block or simple command |
| `ShellParser.Parser.Args` | xv6-public/sh.c:429-445 | the same for the words of a simple command |
| `Grep.Match` | xv6-public/grep.c:72-82 | true exactly if some suffix of the text, the whole text after ^, has a prefix in the language of the pattern |
| `Grep.MatchHere` | xv6-public/grep.c:84-96 | true exactly if some prefix of the text is in that language |
| `Grep.MatchStar` | xv6-public/grep.c:98-106 | the shortest-first search misses no match, and ends |
| `Grep.StarStops` | xv6-public/grep.c:101-104 | no match lies beyond the run the star can take |
| `Grep.WildMeaning` | xv6-public/grep.c:72-96 | a pattern of literals and dots is found if and only if it fits somewhere in the text, after ^ at its beginning, before $ at its end, between both on the whole |
| `Grep.StarMeaning` | xv6-public/grep.c:98-106 | a star takes any number of its character, or of any if it is a dot, before the rest |

## Left out

- Boot code, assembly, interrupt controllers, the console, `exec`, system call argument fetching, trap dispatch and `string.c`; `swtch` is a scheduling step.
- Spinlocks and sleeplocks are primitives, and memory ordering is not modelled.
- Device inodes in `readi` and `writei`, the inode cache (`iget`, `iput` reference counts), and path walking (`skipelem`, `namex`): calls on directories and files take inode numbers.
- Directories are sequences of entries; that reading and writing an entry is a slice and a splice of the directory's bytes is what `Readi` and `Writei` say.
- The rest of mkfs. It rounds the size of the root directory up to a block (xv6-public/mkfs.c:158-163), so that the image it makes has no holes is an assumption on the initial state.
- Other writers between two chunks of one `filewrite`, which share the file's offset.
- Wrap-around of pids, process counters and link counts.
- Disk errors, and interrupts of the disk before it has finished.
- Programs that call `sbrk` themselves, and a start of the heap that is not a multiple of 8 bytes.
- Umalloc.Heap.Malloc: memory that `sbrk` gives must not be counted yet; where it is, which takes an earlier request of more than 0x7FFF_FFF0 bytes (`OverlapRun`), blocks overlap and nothing is promised. Contents are those of `mem`, not of pages, so on a trap they say nothing about the process.
- Umalloc.Heap.MoreCore: the same demand.
- `clearpteu`, `uva2ka`, `copyout`, `loaduvm` and `inituvm`: simple uses of the walk.
- The nodes of the shell's command tree are values: that `parseexec` fills a node which redirections already point to shows only in the tree it returns.
- `scheduler_original`, unused and simpler than the scheduler.
- Liveness under a fair scheduler: that operations can end is proved (`CanAlwaysFinish`), not that they do; the code does not support the claims of the report about starvation.
- ProcMachine.Step: a process woken from the sleep of `wait` gives up the lock before it scans the table again, so the model has more runs than the source.
- GroupCommit.Step: an operation may log at most MAXOPBLOCKS different blocks; that `filewrite` and, on volumes of up to nine bitmap blocks, `itrunc` do is proved, for other calls it is assumed.
- FileCrash.CrashDuringWrite: operations that log while another is in progress; the transactions of the run come one after the other. The encoding of inodes, bitmap and data in blocks is a parameter.
- BufferCache.BCache.LogWrite: stands for the holder's store and the part of `log_write` that pins the buffer; the log itself is in `LogLayer` and `GroupCommit`.
- BufferCache.BCache.Bwrite: stands for the holder's store and `bwrite` on a disk that answers at once.
