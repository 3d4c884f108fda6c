# A verified model of this xv6

This project models the parts of this RISC-V xv6 that carry its hardest invariants and proves what
they are for. `dafny verify dfyconfig.toml` checks all of it.

**Buddy allocator** (`Arith`, `Bits`, `Lists`, `BuddyTree`, `BuddyTables`, `BuddyInit`, `BuddyFull`,
`BuddySmall`, `BuddyStore`, `Buddy`). The allocator keeps one bit per pair of buddies, the exclusive or of
their "in use" flags, so a single bit says too little to decide a merge. The model ties the bit vectors (as bytes), the split
bits and the doubly linked free lists (all nodes in one memory) to one binary tree of Free, Used and
Split blocks with reserved leaves at both ends. Every step of `bd_malloc` and `bd_free` keeps the tie,
which makes the bit decide rightly. `bd_init` is proved to build the first such state, or to reach its
panic, for exactly the sizes given below.

**Redo log** (`LogModel`, `Log`). A machine whose every step writes at most one disk block, with a
crash possible between any two steps, also inside recovery. The code of `log.c` is a class whose methods
extend a run of that machine.

**Buffer cache** (`Bio`). The ring of buffers in order of last release, in front of a disk; together
they are a plain array of blocks, `View`. `write_log` on top of it says how many buffers a commit needs.

**File blocks** (`FsModel`, `Fs`). Free map, direct and indirect block maps read as 32-bit words out of
blocks of bytes, `readi`, `writei`, `itrunc`, and the chunks of `filewrite`. A ghost map from blocks to
the slots that hold them says that no block has two owners.

**File system on the log** (`FsLogged`, `FsWords`, `FsCrash`). Every change that `writei` and `itrunc` make
lies in a block they give to `log_write`. With the layout of the free map, the inodes and the data in disk
blocks this joins the file model to the log. Any number of calls may be outstanding, and those that have
ended share a commit: wherever the disk writes stop, recovery finds the file system of the last commit,
with every file as it was then.

**Page tables** (`VmModel`, `VmBytes`, `VmHardware`, `Vm`). Three levels of 512-entry tables in physical
frames, read as a partial map from virtual pages to entries, `Lookup`. Page numbers and frame numbers stand
for page-aligned addresses. `VmHardware` says what Sv39 hardware makes of the same tables, bit by bit.

**Processes** (`Proc`, `ProcCalls`, `ProcProgress`). `fork`, `exit`, `wait`, `sleep` and `wakeup` as steps between lock
operations, with a program counter for every process and free interleaving. `ProcCalls` says what each call
comes to when its steps follow one another, `ProcProgress` that none can get stuck.

**User heap** (`UmallocModel`, `Umalloc`).

**Shell** (`ShellGrammar`, `ShellMeaning`, `ShellText`, `Shell`). The parser in place on the line, the grammar
it accepts, how lines are written, and what `runcmd` then starts, against what the text of the line says: the
words of each program, its files and the pipes between them.

A value called `ghost` in a method's signature or class is there for the statement only. A source
function that panics is modelled with the panic ruled out by proof, by a precondition the callers meet,
or as a result (`None`, `false`, an error). Where a method of the source is long, its loop body or exit
path is a method of its own.

Some promises do not hold of the code as it is; for these there is an exact condition:

- `firstk` does not end for requests above 2^63 (`FirstKNeverEnds`).
- `bd_init` reaches its "free mem" panic, among the sizes that hold its tables, exactly for 176 to 191, 224 to
  255 and 320 to 511 bytes and for the block sizes from 4096 bytes on (`BdInit`, `SumWrongExactly`). From 4096
  bytes on the cause is a bit of the next level: the bit vectors lie one behind the other, and the right edge
  of a level is past its end exactly when the size is a block size (`ScanInRangeExactly`, `ReadsNextRow`,
  `StraysExactly`). For 224 to 255 and 320 to 511 bytes both looks at a level push the same block
  (`PushesTwiceExactly`). For 176 to 191 bytes both ends mark one block, so that the bit of its pair comes out
  set and its buddy, which lies past the end of the memory, is pushed.
- The edges at which `bd_init` looks are blocks of their level, both and at all levels, exactly above 256 bytes
  and unless the size is a block size (`EdgesInRangeExactly`).
- A call that may still add a block to the log can meet "too big a transaction" all the same, unless the log
  has more than `LOGSIZE` blocks; `mkfs` makes it `LOGSIZE` long (`NeverTooBigExactly`). With a longer log the
  panic is left for calls that have spent their reservation and log a listed block again while the list is
  full (`FullLogRefusesAbsorption`, `RefusedOnlyWhenSpent`).
- A commit finds a buffer to write the log with, when nothing but its pins is in use, exactly when fewer than
  `NBUF` blocks are listed (`WriteLog` of `Bio`), which is so in all runs exactly when the log has at most `LOGSIZE` blocks
  (`AlwaysABufferExactly`). So no length of the log rules out both panics (`OneOfTwoPanics`).
- Bytes copied out come back by `copyin` exactly when no two of the addresses are the same byte of memory
  (`RoundTripExactly`).
- `morecore` passes the bytes it wants as an int. The units that the headers account for are those obtained
  from `sbrk` exactly when `malloc` did not need `morecore` or the request is below 2^31 bytes (`Malloc`,
  `SbrkArgExactly`). A request for 0xFFFFFFFF bytes claims 0x10000001 units and obtains one
  (`LargestRequest`).

## Model

| member | source | states |
|---|---|---|
| Bits.BitIsSet | kernel/buddy.c:38-42 | the byte-and-mask test reads the one flag at that index of the bit vector |
| Bits.FlagIsBit | kernel/buddy.c:38-42 | the flags of a byte are its bits from the least significant on |
| Bits.BitSet | kernel/buddy.c:45-49 | sets that flag and no other, in the same byte or another |
| Bits.BitClear | kernel/buddy.c:52-56 | clears that flag and no other |
| Bits.BitInvert | kernel/buddy.c:58-62 | inverts that flag and no other |
| Lists.FreeLists.Empty | kernel/list.c:14 | true exactly when the ring of that head has no nodes |
| Lists.FreeLists.Push | kernel/list.c:28-34 | a node that is on no list comes first on its list; all rings in the shared memory stay rings, the others with the same nodes |
| Lists.FreeLists.Remove | kernel/list.c:16-19 | given only a node, exactly the list it is on loses it, order kept, every ring intact |
| Lists.FreeLists.Pop | kernel/list.c:21-26 | returns and removes the first node |
| Buddy.FirstK | kernel/buddy.c:97-106 | the least level whose block size is at least n |
| Buddy.ComputeFirstK | kernel/buddy.c:97-106 | the loop with 64-bit doubling computes that level for every n up to 2^63 |
| Buddy.FirstKNeverEnds | kernel/buddy.c:97-106 | for n above 2^63 the wrapped size stays below n in every round |
| Buddy.ComputeLog2 | kernel/buddy.c:198-205 | the loop computes the floor of the logarithm |
| BuddyTree.AncestorsSplit | kernel/buddy.c:140-147 | all ancestors of a block in the tree are Split, so blocks handed out or free never nest |
| BuddyTree.Canonical | kernel/buddy.c:170-187 | two well-formed trees with the same blocks handed out are the same tree: the free blocks are a function of the live ones |
| BuddyTree.FreeNodeIsFree | kernel/buddy.c:126-147 | every block inside a Free node has no busy leaf |
| BuddyTree.NoFreeNodeMeansBusy | kernel/buddy.c:126-134 | where no Free node lies at or above a block, some leaf of it is live or reserved |
| BuddyTree.FreeBlocksTile | kernel/buddy.c:136-147 | each leaf that is neither live nor reserved lies in exactly one Free node |
| BuddyTree.LiveBlocksApart | kernel/buddy.c:121-151 | no leaf is in two blocks handed out |
| BuddyTree.SplitOk | kernel/buddy.c:140-147 | splitting a used block into a used half and a free half keeps the tree well formed and moves the live block to the half |
| BuddyTree.MergeOk | kernel/buddy.c:170-186 | absorbing a free buddy keeps the tree well formed, with no two free buddies |
| BuddyTree.MergeIsBelowRoot | kernel/buddy.c:170-186 | a merge never reaches the root, which stays split forever |
| BuddyTree.MergeUndoesSplit | kernel/buddy.c:140-187 | merging right after splitting gives the tree back |
| BuddyTables.LeafBytes | kernel/buddy.c:109-118 | the bytes of a block are exactly those whose leaf lies under it |
| BuddyTables.PairBitMeansBuddyFree | kernel/buddy.c:170-179 | after the inversion in bd_free the pair bit is clear exactly when the buddy is a whole free block on list k, so lst_remove gets a member of that list |
| BuddyTables.PopStep | kernel/buddy.c:137-139 | popping a block and inverting its pair bit keeps bits, lists and tree tied |
| BuddyTables.SplitStep | kernel/buddy.c:140-147 | one round of bd_malloc's split loop keeps them tied |
| BuddyTables.GiveStep | kernel/buddy.c:170-188 | leaving bd_free's loop and pushing the block keeps them tied |
| BuddyTables.MergeStep | kernel/buddy.c:178-185 | one merge round keeps them tied |
| BuddyTables.EmptyListsMeanNoSpace | kernel/buddy.c:128-134 | if the lists from level k up are empty, every aligned block of level k has a busy leaf |
| BuddyTables.FirstSplitIsParent | kernel/buddy.c:154-161 | above a live address the first set split bit is that of the block's parent |
| BuddyTables.SameBlocksOnLists | kernel/buddy.c:136-187 | two sets of lists tied to the same tree hold the same addresses |
| BuddyInit.TablesTakeAQuarter | kernel/buddy.c:296-318 | the tables take at most a quarter of the heap |
| BuddyInit.HeightFits | kernel/buddy.c:287-291 | the heap of the height chosen is the memory when its size is a block size, and otherwise larger than the memory and less than twice as large |
| BuddyInit.InitTreeOk | kernel/buddy.c:208-257 | the tree of both marked ends is well formed and has nothing handed out |
| BuddyInit.FreeingAllRestores | kernel/buddy.c:165-189 | whenever nothing is handed out the lists hold exactly the addresses bd_init put there |
| BuddyInit.EdgePairBits | kernel/buddy.c:229-257 | at each level the pair bits that marking leaves at the two edges are set exactly when the edge index is odd, that is, when an edge block is free |
| BuddyInit.FreedAll | kernel/buddy.c:246-257 | the blocks pushed up to the middle level make up all leaves between the reserved ends |
| BuddyInit.ScanInRangeExactly | kernel/buddy.c:246-257 | for every size, the right edge of every level is a block of that level if and only if the size is not a block size |
| BuddyFull.ReadsNextRow | kernel/buddy.c:246-257 | in a full heap the bit read at the right edge is in the level's own vector or one behind it, and is set exactly where it is the first bit of the next level's vector and the second block of that level is free |
| BuddyFull.StraysExactly | kernel/buddy.c:280-337 | for every size above 512 bytes, some bit past the end of a level is set if and only if the size is a block size of 4096 bytes or more |
| BuddyFull.SumRightExactly | kernel/buddy.c:246-257 | in a heap with its ends apart the sum of the blocks pushed is the memory between the ends if and only if no block past the end is pushed |
| BuddySmall.SumWrongExactly | kernel/buddy.c:208-257 | for every size that holds the tables, with the bits as the two markings leave them, the sum of the blocks pushed differs from the free memory if and only if the size is 176 to 191, 224 to 255 or 320 to 511 bytes or a block size of 4096 bytes or more |
| BuddySmall.PushesTwiceExactly | kernel/buddy.c:229-257 | for every size that holds the tables, at some level both looks find a set bit and push the same block if and only if the size is 224 to 255 or 320 to 511 bytes |
| BuddySmall.EdgesInRangeExactly | kernel/buddy.c:246-257 | for every size that holds the tables, both edges are blocks of their level at all levels if and only if there are more than 256 bytes and the size is not a block size |
| Buddy.Allocator.BdMark | kernel/buddy.c:208-225 | every level's split bits in range are set, its pair bits inverted once per block in range, all others kept |
| Buddy.Allocator.BdInitFreePair | kernel/buddy.c:229-241 | pushes the free one of the pair, told by the bit at that distance from the start of the level's vector, and returns its size, or does nothing |
| Buddy.Allocator.BdInitFree | kernel/buddy.c:246-257 | returns the sum of the blocks it pushes; in a heap with its ends apart, unless a block past the end is pushed, the lists hold exactly the free blocks of the first tree, each once |
| Buddy.Allocator.BdInit | kernel/buddy.c:280-337 | for every size that holds the tables, reaches the "free mem" panic if and only if the size is one of those of SumWrongExactly; otherwise, above 512 bytes, the state is tied to the first tree and nothing is handed out |
| Buddy.Allocator.BdMalloc | kernel/buddy.c:121-151 | succeeds exactly when some aligned block of level firstk(n) has no busy leaf anywhere in the heap; the result is such a block, and becomes the one new live block |
| Buddy.Allocator.Size | kernel/buddy.c:154-161 | recovers the level handed out from split bits alone, never looking above the top level |
| Buddy.Allocator.MergeOnce | kernel/buddy.c:170-186 | one round of bd_free: stops with the block in use by itself, or joins it with its buddy one level up |
| Buddy.Allocator.BdFree | kernel/buddy.c:165-189 | exactly that block leaves the live set; bits, lists and tree stay tied |
| LogModel.HeadRoundTrip | kernel/log.c:77-101 | a header written and read back gives the same list of blocks |
| LogModel.StepKeeps | kernel/log.c:62-208 | every step, a crash included, keeps the invariant of disk, cache, header and phase |
| LogModel.CrashAtomicity | kernel/log.c:62-208 | after any run with any crashes, recovery of the disk as it is gives every home block its contents at the last completed header write, and every call is entirely before or after that point |
| LogModel.OnlyHeaderWriteCommits | kernel/log.c:88-101 | only a completed header write moves the commit point, with no call outstanding and everything logged covered |
| LogModel.RecoveryRestores | kernel/log.c:103-108 | recovery interrupted by any number of crashes ends with the home blocks as committed |
| LogModel.RecoveryFinishes | kernel/log.c:103-108 | uninterrupted it ends after one step per listed block and two more |
| LogModel.QuietMeansDurable | kernel/log.c:129-179 | with an empty header list, cache, disk and everything logged agree |
| LogModel.ReadsLatest | kernel/log.c:190-208 | except in recovery a read gives the last contents logged for the block, also while a commit writes the log or installs |
| LogModel.WaitsForSomething | kernel/log.c:111-155 | when begin_op has to wait, a call can end or the commit can go on; and what lets it in is the end of a call or of a commit, where wakeup is called |
| LogModel.LetsIn | kernel/log.c:111-125 | begin_op is let in if and only if nothing is committed or recovered and ten blocks for it and for each outstanding call, on top of those listed, make at most thirty; a second call need not wait for the first |
| LogModel.BeginOpGetsIn | kernel/log.c:111-155 | after any run with any crashes: once only calls end and the commit goes on, in any order, that stops after a fixed number of steps, and then begin_op is let in |
| LogModel.ReservationHolds | kernel/log.c:111-145 | in every run of calls that add at most MAXOPBLOCKS blocks, the list plus all unspent reservations stays within LOGSIZE |
| LogModel.NeverTooBigExactly | kernel/log.c:190-207 | in all runs of calls that add at most MAXOPBLOCKS blocks, a call that may still add one never meets the size panic, whichever block it logs, if and only if the log has more than LOGSIZE blocks |
| LogModel.FullLogRefusesAbsorption | kernel/log.c:194-201 | a run of three promise-keeping calls that fills the log, after which every log_write of a block already listed is refused |
| LogModel.RefusedOnlyWhenSpent | kernel/log.c:190-207 | with a longer log, a log_write is refused if and only if LOGSIZE blocks are listed, and then every outstanding call has spent its whole reservation |
| LogModel.AlwaysABufferExactly | kernel/log.c:171-179 | in all runs of calls that add at most MAXOPBLOCKS blocks, every commit starts with fewer than NBUF blocks listed if and only if the log has at most LOGSIZE blocks |
| LogModel.OneOfTwoPanics | kernel/log.c:190-207 | for no length of the log do such calls avoid both the size panic and a commit without a free buffer |
| Log.Log.InitLog | kernel/log.c:51-59 | after a reboot every home block is as recovery of that disk promises and the log is ready |
| Log.Log.InstallTrans | kernel/log.c:62-74 | in one disk write each, the i-th listed block gets the contents of the i-th log block, and no block off the list changes; what is logged and committed stays |
| Log.Log.ReadHead | kernel/log.c:77-86 | the list in memory becomes the block numbers behind the count in the header block |
| Log.Log.WriteHead | kernel/log.c:91-101 | one disk write, of the count and the block numbers into the header block, after which everything logged so far counts as committed |
| Log.Log.RecoverFromLog | kernel/log.c:103-108 | takes recovery to its end |
| Log.Log.WriteLog | kernel/log.c:158-169 | in one disk write each, the i-th log block gets the cached contents of the i-th listed block, and no other block changes |
| Log.Log.Commit | kernel/log.c:171-179 | goes through all steps of a commit and leaves the list empty |
| Log.Log.BeginOp | kernel/log.c:111-125 | admits a call if and only if nothing commits and the blocks listed and ten for each call, this one included, are at most thirty; the call is then one more outstanding, with nothing logged, and else nothing changes |
| Log.Log.EndOp | kernel/log.c:129-155 | when the last call ends, everything logged is at home on disk and the list is empty; before that nothing moves |
| Log.Log.LogWrite | kernel/log.c:190-208 | lists the block once and caches it, and refuses if and only if thirty blocks or all that the log holds are listed, or no call is outstanding |
| Proc.StepKeeps | kernel/proc.c:250-396 | every step of any process keeps the invariant on locks, parents, scans and wakeups |
| Proc.RunKeeps | kernel/proc.c:250-530 | so does every run from boot, however the processes interleave |
| Proc.NoLostWakeup | kernel/proc.c:353-396 | whenever wait_lock is free, a process asleep in wait and not woken has a child and no zombie child |
| ProcCalls.WaitReturnsExactly | kernel/proc.c:383-394 | in every reachable state, at the end of a scan by a process not killed, wait returns -1 if and only if the process has no child, and else goes to sleep |
| ProcCalls.SomebodySleeps | kernel/proc.c:250-396 | from every boot with room for a child a run leads to a process asleep in wait |
| ProcCalls.ForkAlone | kernel/proc.c:250-294 | the new slot is a runnable child of the caller with the next identifier, all else is as before |
| ProcCalls.WaitAlone | kernel/proc.c:353-396 | frees the first child that has exited and gives its identifier; or sleeps, with children none of which has exited; or returns, without children |
| ProcCalls.WokenAlone | kernel/proc.c:388-394 | a process woken from wait begins the scan again |
| ProcCalls.ExitAlone | kernel/proc.c:298-349 | the children become init's, which is woken if there are any, the parent is woken, the process is a zombie and no other process changes |
| ProcCalls.ExitEndsWait | kernel/proc.c:298-396 | from every reachable state with free locks, the exit of a child brings a parent asleep in wait to return that child's identifier, once and with its slot freed; only init may find another, inherited one first |
| ProcProgress.NobodyStuck | kernel/proc.c:250-530 | after any run from boot, whoever runs or is runnable, wherever in fork, exit, wait or sleep, has a run before it that ends the call or puts it to sleep in wait: no deadlock over wait_lock and the process locks |
| ProcProgress.WaitComesFree | kernel/proc.c:298-396 | from every reachable state, steps of its holder and of those whose locks the holder wants set wait_lock free |
| ProcProgress.LockComesFree | kernel/proc.c:250-530 | and every process lock comes free by the steps of its holder alone |
| Proc.ParentsLive | kernel/proc.c:298-349 | every process past fork other than init has a parent that has not exited, and init never exits |
| Proc.OnlyParentReaps | kernel/proc.c:353-379 | a zombie stays one until its parent at that moment frees it in wait |
| Proc.ReapedOnce | kernel/proc.c:353-379 | no process identifier is reaped twice in a run |
| VmModel.MakePteParts | kernel/constants.h:10-21 | an entry made from a frame and permissions gives both back and is valid |
| VmHardware.UserPte | kernel/constants.h:10-21 | an entry that uvmalloc makes has, by the bits of Sv39, the frame, valid, read and user, write if and only if PTE_W was asked for and execute if and only if PTE_X was; the tests of the kernel agree |
| VmHardware.HardwareAgrees | kernel/vm.c:76-90 | for every address below MAXVA the page-table walk of the hardware, from the bits of the address, comes to the entry that Lookup gives, or to none where it gives none |
| VmModel.LeafWriteLookup | kernel/vm.c:134-141 | writing one leaf entry changes the translation of one page of one page table, even where tables are shared |
| VmModel.AddTableTrans | kernel/vm.c:79-88 | a new zeroed table on the way changes no translation |
| VmModel.UnmapRestores | kernel/vm.c:197-211 | unmapping and freeing what was mapped where nothing was restores every translation, data page and free frame but the new tables |
| VmModel.OthersStand | kernel/vm.c:232-246 | without the tables of one root every other page table is intact and translates as before |
| Vm.Machine.Walk | kernel/vm.c:76-90 | finds the leaf slot of the address; with alloc it adds tables from free frames only, changes no translation, and fails only with no frame free |
| Vm.Machine.WalkAddr | kernel/vm.c:95-107 | the frame of a valid user page below MAXVA, else 0 |
| Vm.Machine.MapPages | kernel/vm.c:121-143 | exactly the pages of the range get entries for consecutive frames; on failure a proper prefix did and no frame is free |
| Vm.Machine.UvmUnmap | kernel/vm.c:148-164 | exactly the pages of the range lose their entries, and with do_free exactly their frames become free, each once |
| Vm.Machine.UvmCreate | kernel/vm.c:168-174 | a new root with no page mapped; other translations kept |
| Vm.Machine.UvmAlloc | kernel/vm.c:191-213 | fresh distinct frames for exactly the new pages, every new address reading 0 for the user and writable if and only if PTE_W was asked for, or 0 with all translations and data pages as before and no more frames free than pages asked for |
| Vm.Machine.UvmDealloc | kernel/vm.c:219-228 | unmaps and frees exactly the pages between the rounded sizes |
| Vm.Machine.FreeWalk | kernel/vm.c:232-246 | frees the table and all tables below it, each once, and touches no other table |
| Vm.Machine.UvmFree | kernel/vm.c:250-253 | returns every data page and every table of the root, each once, and nothing else; other page tables translate as before |
| Vm.Machine.UvmCopy | kernel/vm.c:261-284 | equal contents and flags in fresh distinct frames for every page, so that every address reads and may be used in the copy as in the original, or all translations and data pages as before |
| Vm.Machine.CopyOut | kernel/vm.c:299-320 | page-wise copying equals storing byte after byte up to the first address that is not a writable user address; succeeds exactly when there is none |
| Vm.Machine.CopyIn | kernel/vm.c:325-341 | returns the bytes at the addresses up to the first that is not a user address; succeeds exactly when there is none |
| VmBytes.StoredAt | kernel/vm.c:299-320 | each byte of memory holds the last of the bytes stored there |
| VmBytes.NotStoredAt | kernel/vm.c:299-320 | bytes no address of the range translates to are kept |
| VmBytes.RoundTripExactly | kernel/vm.c:299-341 | copyin returns what copyout stored, for all bytes, if and only if no two addresses of the range share a byte of memory |
| VmBytes.OwnFramesApart | kernel/vm.c:299-341 | pages with frames of their own, as uvmalloc and uvmcopy give them, share no byte |
| Vm.Machine.CopyOutAndIn | kernel/vm.c:299-341 | copyout and then copyin at the same address gives the bytes back, and succeeds exactly when all the addresses are writable, in an address space whose pages have frames of their own |
| FsModel.UintSet | kernel/fs.c:367-376 | writing one 32-bit block number into a block of bytes changes that number and no other |
| FsModel.LeastFirst | kernel/fs.c:367-376 | a block number is read out of its four bytes, the least significant first |
| FsModel.NotASlot | kernel/fs.c:58-79 | a block whose bit is clear is in no slot of any inode |
| FsModel.SlotsApart | kernel/fs.c:348-383 | no two slots of any inodes hold the same block |
| FsModel.GrowsContents | kernel/fs.c:348-383 | allocation by bmap changes the contents of no file |
| FsModel.WroteBytes | kernel/fs.c:464-475 | a write within one block changes those bytes of that file and no byte of any other file |
| FsModel.FreeInv | kernel/fs.c:82-93 | the block of a slot is marked in use, so bfree does not panic, and freeing it keeps the rest owned |
| FsModel.ExactlyFreed | kernel/fs.c:387-412 | once its slots are empty exactly the blocks of the inode have been freed |
| Fs.FileSystem.Balloc | kernel/fs.c:58-79 | marks, zeroes and returns the first block that was free, or 0 exactly when all are in use |
| Fs.FileSystem.Bfree | kernel/fs.c:82-93 | clears the bit of a block in use |
| Fs.FileSystem.Bmap | kernel/fs.c:348-383 | the block of the file, allocated only if missing, at most with its indirect block; 0 only on a full disk; every file keeps its bytes |
| Fs.FileSystem.Itrunc | kernel/fs.c:387-412 | frees exactly the inode's blocks, empties the inode, keeps every other file and logs every block it changes |
| Fs.FileSystem.Readi | kernel/fs.c:428-448 | returns exactly the slice of the file's bytes and changes nothing |
| Fs.FileSystem.Writei | kernel/fs.c:457-485 | the file becomes old[..off] + data[..r] + old[off+r..] with r short only on a full disk, other files are kept, and every block changed is logged, no more of them than counted |
| Fs.OverwriteAt | kernel/fs.c:464-481 | a written file has the data from the offset on, its old bytes elsewhere, and the larger of its old size and the end of the data |
| Fs.ChunkFits | kernel/file.c:112-119 | a chunk of at most three blocks' bytes, at any offset, logs at most MAXOPBLOCKS blocks |
| Fs.FileSystem.FileWrite | kernel/file.c:105-131 | every transaction stays within MAXOPBLOCKS logged blocks, and together they write one contiguous run of bytes |
| Fs.FileSystem.WriteThenRead | kernel/fs.c:428-485 | writei and then readi at the same offset gives back the bytes that writei wrote |
| FsWords.BitOfByte | kernel/fs.c:58-93 | the flag of a block in the free map is, in the words of the disk block, bit n % 8 of byte n / 8, as balloc and bfree address it |
| FsWords.LoggedIsEnough | kernel/log.c:182-208 | if the blocks given to log_write cover the changes to the free map, the inodes and the data, then writing back these blocks alone makes the disk hold the changed file system |
| FsWords.DiskDetermines | kernel/fs.c:348-448 | two file systems that the same disk blocks hold have the same bytes in every file |
| FsCrash.WritesGoThrough | kernel/log.c:190-208 | an outstanding call that logs the blocks of a set, in any order and number, is not refused where the log has room for the set, and for one block more if it logs some again |
| FsCrash.NewCallHasRoom | kernel/log.c:111-125 | where all calls keep their promise and the log has more than LOGSIZE blocks, there is room for the whole reservation of a call that has logged nothing yet |
| FsCrash.CallRuns | kernel/log.c:111-208 | a call that logs at most MAXOPBLOCKS different blocks runs to its end on a log at rest, and its writes are the new contents, not yet committed |
| FsCrash.PerformKeeps | kernel/log.c:62-208 | every begin_op, end_op, change by an outstanding call, step of a commit or recovery, and crash, also in the middle of changes, keeps a well-formed file system in the logged contents and in the committed ones |
| FsCrash.EndedCallsWait | kernel/log.c:129-155 | a call that ends while others are outstanding is not committed; the last to end starts the commit |
| FsCrash.CommitTakesAll | kernel/log.c:158-179 | the commit makes the file system with the changes of all ended calls the committed one, at the header write and not before |
| FsCrash.FilesSurvive | kernel/log.c:62-208 | after any run from boot with any crashes, the disk as recovery makes it holds the well-formed file system of the last commit, and no reading of that disk gives any file other bytes |
| FsCrash.CanBoot | kernel/log.c:51-59 | every well-formed file system can be put on a disk from which such runs start |
| FsCrash.WriteOnLog | kernel/file.c:112-129 | one transaction of filewrite, by the code of fs.c, with any other calls outstanding: in whatever order and however often it logs the blocks it changes, if each ends with its last contents, the change is lawful, is not refused and leaves a sound system |
| Bio.Cache.Binit | kernel/bio.c:32-47 | the ring holds each buffer once, none is in use and nothing is pinned |
| Bio.Cache.FindCached | kernel/bio.c:58-66 | the forward walk finds the block exactly when it is cached |
| Bio.Cache.FindVictim | kernel/bio.c:68-80 | the backward walk finds the unreferenced buffer released longest ago, or none exactly when all are referenced |
| Bio.Cache.Bget | kernel/bio.c:52-81 | never recycles a referenced buffer, caches no block twice and changes no block's contents |
| Bio.Cache.Bread | kernel/bio.c:84-93 | the buffer holds the latest contents of the block in the array that cache and disk stand for |
| Bio.Cache.Bwrite | kernel/bio.c:96-99 | the disk gets the data; the array is as before |
| Bio.Cache.Brelse | kernel/bio.c:103-121 | the last release makes the buffer the most recent in the ring; the array is as before |
| Bio.Cache.Bpin | kernel/bio.c:123-127 | one more reference and nothing else |
| Bio.Cache.Bunpin | kernel/bio.c:129-133 | one reference less, of at least two |
| Bio.FreeBufferExactly | kernel/bio.c:68-80 | with the listed blocks pinned and nothing else in use, a buffer is free if and only if the list is shorter than the cache |
| Bio.Cache.LogBlock | kernel/log.c:190-208 | bread, a change, log_write and brelse: a reader sees the change and the disk does not, the block is listed and pinned once, and this fails if and only if every buffer is pinned for another block |
| Bio.Cache.CopyToLog | kernel/log.c:161-168 | one block goes to the log through the cache, if and only if the log block is cached or a buffer is free; a reader sees no other change |
| Bio.Cache.WriteLog | kernel/log.c:158-169 | succeeds if and only if fewer blocks are listed than there are buffers; the log blocks on disk then hold the listed blocks as the cache had them, and the pins are as before |
| UmallocModel.FreedOrdered | user/umalloc.c:22-39 | the list after free is in address order without overlap |
| UmallocModel.FreedCoalesced | user/umalloc.c:28-37 | and no block ends where the next begins |
| UmallocModel.GapBetween | user/umalloc.c:28-37 | between any two blocks of a coalesced list lies a unit of neither |
| UmallocModel.FreedCovers | user/umalloc.c:22-39 | the units of the list are those before and those of the freed block |
| UmallocModel.CarvedCovers | user/umalloc.c:64-71 | taking a block splits the units of the list in two disjoint parts |
| Umalloc.Heap.FindPlace | user/umalloc.c:26-27 | the search ends, from any start, at the block before the freed one |
| Umalloc.Heap.Free | user/umalloc.c:22-39 | that block is no longer handed out and the circular list is the one joined with both neighbours; every unit is still accounted for |
| Umalloc.UnitsFor | user/umalloc.c:58 | the least number of units that holds a header and the bytes asked for |
| Umalloc.Chunk | user/umalloc.c:45 | the larger of the units asked for and 4096 |
| Umalloc.ToInt | user/umalloc.c:46 | the int that equals the number modulo 2^32 |
| Umalloc.ObtainedUpTo | kernel/sysproc.c:22-30 | the end of memory moves by the argument and what lies below both ends is as before, unless the new end would be below 0 |
| Umalloc.SbrkArgExactly | user/umalloc.c:46-47 | sbrk is asked for the bytes that the header will claim if and only if they are below 2^31 |
| Umalloc.LargestRequest | user/umalloc.c:41-60 | a request for 0xFFFFFFFF bytes claims 0x10000001 units and asks sbrk for 16 bytes |
| Umalloc.ClaimsExactly | user/umalloc.c:41-52 | the units accounted for after morecore are those obtained if and only if the request is below 2^31 bytes |
| Umalloc.Heap.Sbrk | kernel/sysproc.c:22-30 | returns the old end of memory and moves the end by the argument, up or down, or refuses exactly when there is no room above |
| Umalloc.Heap.Morecore | user/umalloc.c:41-52 | the list gains a block large enough, or sbrk has refused; the units claimed and those obtained, after the conversion to int, are stated for every request |
| Umalloc.Heap.Search | user/umalloc.c:63-76 | one way round finds the first block after freep that fits, or none exactly when none fits |
| Umalloc.Heap.Malloc | user/umalloc.c:54-78 | for every uint, hands out the least number of units that holds a header and the bytes asked for, which were nobody's, calls morecore at most once and only if no block fits, and fails exactly when sbrk then refuses; the heap is as it should be afterwards if and only if morecore was not needed or asked for less than 2^31 bytes |
| ShellGrammar.LineSound | user/sh.c:305-390 | what the parser returns is a tree of the grammar that yields the tokens it took |
| ShellGrammar.LineComplete | user/sh.c:305-390 | the parser finds every tree of the grammar |
| ShellGrammar.ParsesTheGrammar | user/sh.c:290-303 | parsecmd accepts exactly the sentences of the grammar and returns the command their tree stands for |
| ShellMeaning.ParsedRuns | user/sh.c:56-118 | for every line that parsecmd accepts, runcmd starts the programs the line says, with their words, files, pipe ends and '&'; their words from left to right are those of the line without the files |
| ShellMeaning.LineMeans | user/sh.c:305-390 | of a line: input from the first file behind '<', output to the first behind '>' (emptied) or '>>' (kept), each pipe from all on its left to all on its right, '&' for all before it, blocks as a whole |
| ShellMeaning.WrapRuns | user/sh.c:77-85 | of several redirections the one written first is opened last and stands |
| ShellMeaning.LineWords | user/sh.c:353-390 | the programs' words from left to right are those of the text |
| ShellMeaning.RefusalMeans | user/sh.c:290-371 | what each panic says of the line: a redirection without a file, a symbol that cannot stand there, ten words or more, an opening parenthesis, or a sentence and something behind it |
| ShellGrammar.Unambiguous | user/sh.c:305-390 | no sentence has two trees |
| ShellText.ReadAsWritten | user/sh.c:235-283 | however a line is written, with blanks between its words and operators or without where they cannot be mistaken, its tokens are those words and operators in order |
| ShellText.EveryLineIsWritten | user/sh.c:235-283 | every line is written in such a way, so that ReadAsWritten tells the tokens of all lines |
| Shell.GetToken | user/sh.c:238-274 | returns the first token from the cursor on and leaves the rest |
| Shell.Peek | user/sh.c:276-283 | tells whether the next token starts with one of the characters, and loses no token |
| Shell.ParseRedirsAt | user/sh.c:331-351 | all redirections at the cursor in order, or the missing-file error |
| Shell.ParseWordsAt | user/sh.c:365-390 | a simple command with at most nine words, redirections wrapped inner to outer |
| Shell.ParseExecAt | user/sh.c:353-371 | a block or a simple command, as the grammar says |
| Shell.ParsePipeAt | user/sh.c:320-329 | pipes nest to the right |
| Shell.ParseLineAt | user/sh.c:305-318 | postfix '&' and lists nesting to the right |
| Shell.ParseCmdAt | user/sh.c:290-303 | ends on every line with what the grammar says of its tokens |
| Shell.EndsOutside | user/sh.c:393-433 | no position that nulterminate writes lies inside a word |
| Shell.NulTerminate | user/sh.c:393-433 | writes NUL exactly at the ends of the command's words |
| Shell.ParseBuffer | user/sh.c:290-303 | after parsing in place every word of the line is unaltered and every word of the command ends in NUL |

## Left out

- Buddy.ComputeFirstK: requires n at most 2^63, beyond which the loop does not end (FirstKNeverEnds).
- Buddy.Allocator.BdMalloc: requires n at most 2^63 for the same reason.
- Buddy.Allocator.BdInit: requires that the tables fit into the memory and, because offsets are ints, at most 2^30 bytes. Up to 512 bytes only the panic is stated, not the state after it: for 192 to 223 bytes both ends mark a level-3 block, and the bit of its pair does not say what the tree says.
- Buddy.Allocator.BdFree: requires an address that bd_malloc returned and that has not been freed.
- Log.Log.ReadHead: requires a header count of at most LOGSIZE, which every header that write_head wrote has; the source does not check it.
- Log.Log.BeginOp: one round of the loop; that a waiter is let in at last is BeginOpGetsIn, and which of several waiters it is, is not modelled.
- Log.Log.LogWrite: block contents are words, and the header occupies the first words of its block.
- Proc.StepKeeps: processes are values in a step machine, not objects; locks are atomic, the killed flag is a free choice at the places it is tested, kill is for live processes only, and process identifiers do not wrap around.
- ProcCalls.ForkAlone: like the other calls of ProcCalls, one process runs while the locks are free; what holds however steps interleave is in Proc.
- Vm.Machine.MapPages: in pages and frames, so the alignment panics cannot be stated; the range must be unmapped (panic "remap") and below MAXVA.
- Vm.Machine.UvmUnmap: the range must be mapped as leaves, and with do_free each page to a data page of its own, as the panics and kfree demand.
- Vm.Machine.UvmCopy: the pages of the source must be mapped as leaves to data pages and those of the destination unmapped.
- Vm.Machine.UvmFree: no page beyond the size may be mapped any more (panic "freewalk: leaf").
- Vm.Machine.CopyOut: every user page must be mapped to a data page.
- Fs.FileSystem.Balloc: the free map is a sequence of flags rather than bytes and masks, which are modelled in Bits.
- Fs.FileSystem.Readi: copying into the kernel only, so the case of a failing copyout is not modelled.
- Fs.FileSystem.Writei: copying from the kernel only, so the case of a failing copyin is not modelled.
- Fs.FileSystem.FileWrite: one process alone; between two transactions another could change the file.
- FsCrash.PerformKeeps: each change that an outstanding call makes is one step, from one well-formed file system to the next; only before a crash may the log_writes of calls alternate. Type and link count of an inode are words that stay as they are.
- Bio.Cache.Bread: the sleep lock of the buffer must be free; device 0 marks unused buffers and is not a device.
- Bio.Cache.Brelse: requires the last holder to have written the data back, as all callers do by bwrite or by pinning.
- Bio.Cache.Bunpin: requires that another reference is held.
- Bio.Cache.WriteLog: requires that nothing but the pins is in use; buffers that other processes hold make it fail for shorter lists.
- Umalloc.Heap.Sbrk: running out of page frames is a fixed upper limit on the end of memory.
- Umalloc.Heap.Malloc: `base` lies below the heap. Where sbrk has taken memory away, or given none, the model lets the store of the header happen that would fault.
- ShellMeaning.ParsedRuns: fork, pipe and open succeed, open gives the descriptor just closed, and waiting for programs is not modelled.
- Shell.ParseCmdAt: the line is given without its NUL.
- Spin locks, sleep locks, memory order, traps, devices and the disk driver: a block write and a lock operation are atomic.
- Inode allocation and reference counts, directories, path lookup, pipes, exec, system-call arguments and mkfs.
- kvmmake, uvmfirst, uvmclear and copyinstr: variations on what is modelled.
- bd_print, lst_print and everything else that only prints.
