# A verified model of xv6 for RISC-V

This project models the parts of xv6 that carry its guarantees, and proves those guarantees for
every input, every run and every interleaving. One module, or a few, per component:

| files | component |
|---|---|
| `LogSpec`, `BcacheSpec`, `Bcache`, `BcacheLru`, `Log`, `LogSystem`, `LogOps` | the write-ahead log over the buffer cache |
| `Ring`, `Bits`, `BuddySpec`, `BuddyTheory`, `BuddyInit`, `Bitmaps`, `Buddy` | circular lists, bit arrays, the buddy allocator |
| `VmSpec`, `Vm`, `VmTheory`, `ProcVm` | the page allocator, the Sv39 page tables, and the memory of fork |
| `FsSpec`, `FileSys`, `Mkfs`, `Holes` | inodes, the block map, file contents, and the image builder |
| `ExitWait`, `ExitRuns`, `InitWait`, `SleepWakeup`, `Pipe`, `PipeRuns`, `Virtio` | fork, exit and wait; sleep and wakeup; pipes; the disk driver's rings |
| `KrSpec`, `Kr`, `ShellGrammar`, `ShellTokens`, `Shell` | the user-level allocator, the shell's tokenizer and parser |

Code that updates memory in place is a class whose methods are proved against functions on values
(`Spec` modules); the theorems are about those functions. Concurrent code is a step relation, one
step per section under a lock, and the theorems are about all its runs.

Main results:

- **Crash safety.** `LogSpec.CrashSafety` for the disk alone, and `LogSystem.CrashAnywhere` for the
  cache and the log together, used by any number of processes: stopped anywhere, recovery yields
  exactly the changes made before the last commit header; the former allows any number of crashes,
  in recovery too. `LogSystem.ReadsAreFlat`: every read sees a flat disk with immediate writes.
- **Buddy allocator.** One invariant over all runs, malloc from the smallest block that fits, free
  undoing malloc down to list order, packed bitmaps in the heap's own first bytes, and the lengths
  for which `bd_init` works, exactly.
- **Page tables.** `VmTheory.TablesRefineMap`: the hardware's walk over the raw tables is a finite
  map. Every page has one use (`VmTheory.OneUseEach`). Each operation succeeds exactly when memory
  suffices and changes exactly the translations and frames it should, on failure too; a whole
  address space returns every page (`VmTheory.LifeReturnsAll`).
- **Files.** One owner per used block; `writei` splices and `readi` slices a byte sequence across
  direct and indirect blocks and holes; images that `mkfs` builds satisfy both.
- **Processes.** No lost and no stray wakeup, no orphan under a dead parent; an exit is reported at
  most once, to its parent, with its status (`ExitRuns`). Over all runs and told from the moves
  alone, pipes are FIFO across counter wrap-around, writes go in in order and reads come out
  contiguous (`PipeRuns`); the disk takes requests in order and as asked, and each thread is told of
  its own (`Virtio`).
- **User programs.** The K&R allocator keeps a coalesced, address-ordered ring that tiles memory and
  is determined by the live blocks; a line of the shell has just one list of tokens and at most one
  tree, which tokenizer and parser find.

Where the code does not meet a claim, the exact condition is proved:

- Recovery unpins buffers nobody pinned, so their counts wrap to 2^32 - 1: counts are right exactly
  when the log was empty, and recovery runs out of buffers exactly when it has no more of them than
  logged blocks (`Log.Log.RecoverFromLog`, `Log.RecoverOne`).
- Commit runs out of buffers exactly when every buffer is pinned by a logged block
  (`Log.Log.Commit`, `Log.CommitOne`).
- `mkfs` makes the log LOGSIZE blocks. The panics of log_write are unreachable exactly from
  LOGSIZE + 1 on (`LogOps.ReservationEnoughIff`); below that the log can also overflow
  (`LogOps.StaysInLogIff`). But from LOGSIZE - 1 on commit can start with NBUF logged
  blocks (`LogOps.FillsBuffersIff`), so no size keeps every run from a panic (`LogOps.NoSizeIsSafe`).
- `bd_init` works exactly on memories of 257 to 319 or more than 512 bytes that are not a full power
  of two of leaves (`BuddyInit.WorksIff`); from 320 to 511 its final check fails
  (`BuddyInit.InitTheorem`, `BuddyInit.DoubledHappens`).
- `uvmcopy` panics exactly when memory fails on the first page, since it then unmaps an empty range
  (`Vm.Memory.UvmCopy`, `Vm.FirstPagePanics`).
- `uvmdealloc` panics exactly when a page above the new size is not mapped, so the old size may not
  be larger than the process, as its comment says it may (`Vm.Memory.UvmDealloc`, `Vm.ShortProcessPanics`).
- A failed fork loses the page tables of the child, since `proc_freepagetable` frees them exactly
  when the size is above 0 (`ProcVm.ProcFreePagetable`, `ProcVm.Fork`, `ProcVm.ForkLoses`).
- A write that gives up on a full pipe strands sleeping readers, until the next wakeup of readers
  (`Pipe.QuitStrandsReaders`, `Pipe.AbandonedIff`, `Pipe.ReaderMayStrand`).
- Init may sleep in wait over a zombie child, by exactly two kinds of step
  (`InitWait.OverlooksIff`, `InitWait.MissHasCause`, `InitWait.InitMayMiss`).
- `mkfs` leaves a hole in a root directory whose entries fill a block exactly (`Mkfs.RoundedIff`,
  `Mkfs.RootWithHole`). Reading a hole takes a block that the inode on disk does not get: ownership
  is lost on disk exactly when a pointer of the inode itself was missing (`FileSys.Volume.ReadI`,
  `Holes.ReadRootHole`).

`dafny verify dfyconfig.toml` checks the whole project.

## Model

| member | source | states |
|---|---|---|
| `Ring.RemoveFromRing` | kernel/list.c:24-28 | unlinking the element at i of a ring leaves exactly the ring of the others, in order; both writes are to nodes of that ring |
| `Ring.PushOnRing` | kernel/list.c:39-47 | pushing a new node gives the ring with that node first; the writes are to it and to nodes of that ring |
| `Ring.Lists.Init` | kernel/list.c:12-17 | a new head becomes an empty ring; every other ring is as it was |
| `Ring.Lists.Empty` | kernel/list.c:19-22 | true exactly when the list of that head is empty |
| `Ring.Lists.Remove` | kernel/list.c:24-28 | the list loses exactly that element; all the other rings stay intact in the same pointer memory |
| `Ring.Lists.Pop` | kernel/list.c:30-37 | returns and unlinks the first element |
| `Ring.Lists.Push` | kernel/list.c:39-47 | the element becomes the first of the list |
| `Bits.SetSeq` | kernel/fs.c:74-78 | OR with the mask of a bit sets that bit of the packed array and no other |
| `Bits.ClearSeq` | kernel/fs.c:96-101 | AND with the complement clears that bit and no other |
| `Bits.BitArray.IsSet` | kernel/buddy.c:38-43 | reads bit i of the packed array |
| `Bits.BitArray.Set` | kernel/buddy.c:45-50 | the packed array stands for the same booleans, with bit i set |
| `Bits.BitArray.Clear` | kernel/buddy.c:52-57 | the packed array stands for the same booleans, with bit i clear |
| `Bitmaps.RowsInOrder` | kernel/buddy.c:312-334 | the rows of the two bitmaps lie one after the other behind the size array, within the tables |
| `Bitmaps.AllocBitsApart` | kernel/buddy.c:317-323 | two blocks have different alloc bits in the tables, and no alloc bit is a split bit |
| `Bitmaps.PutAlloc` | kernel/buddy.c:45-57 | changing the alloc bit of a block in the packed tables changes that bit of that row and no other bit of either bitmap |
| `Bitmaps.PutSplit` | kernel/buddy.c:45-57 | the same for a split bit |
| `BuddySpec.TakeFrontKeeps` | kernel/buddy.c:139-142 | taking the front of a free list keeps the invariant of the bitmaps and lists |
| `BuddySpec.SplitOnceKeeps` | kernel/buddy.c:143-150 | splitting a block into a live and a free half keeps the invariant |
| `BuddySpec.MergeKeeps` | kernel/buddy.c:175-191 | clearing a block and merging it with its free buddy keeps the invariant, with the parent block live |
| `BuddyTheory.TilesApart` | kernel/buddy.c:122-194 | two live or free blocks that overlap are the same block |
| `BuddyTheory.TilesPartition` | kernel/buddy.c:122-194 | every leaf of the heap lies in exactly one live or free block |
| `BuddyTheory.MallocSpec` | kernel/buddy.c:122-154 | a block handed out was not live, overlaps no live block, and becomes the only new live block; the invariant is kept (which block it is: `BuddyTheory.MallocFits`) |
| `BuddyTheory.MallocFits` | kernel/buddy.c:129-154 | a block handed out comes from the first free block of the smallest size that has one and is the leftmost of its size in there; the right halves split off on the way are all their lists hold, and every other list is as it was |
| `BuddyTheory.ReleaseSpec` | kernel/buddy.c:169-194 | freeing removes exactly that live block and keeps the invariant, however far it coalesces |
| `BuddyTheory.ReleaseLists` | kernel/buddy.c:169-194 | freeing takes the buddies off their lists as long as they are free, puts the block they make up at the front of its list, and leaves every other list |
| `BuddyTheory.MallocThenFree` | kernel/buddy.c:122-194 | free right after malloc restores the whole state: both bitmaps and every free list, order included |
| `BuddyTheory.LiveDeterminesState` | kernel/buddy.c:169-194 | full coalescing: the live blocks alone determine both bitmaps and the members of every free list |
| `BuddyTheory.MallocFailsIffNoRoom` | kernel/buddy.c:129-138 | malloc fails exactly when every block of that size overlaps a live one |
| `BuddyTheory.RunKeepsInv` | kernel/buddy.c:122-194 | in every run of malloc and free calls the invariant holds and the live blocks are the initial ones plus those held |
| `BuddyTheory.RunNeverBlocked` | kernel/buddy.c:122-194 | a run can always go on with any malloc and with freeing anything held: the guards of a step follow from the run so far |
| `BuddyTheory.FreeingAllRestores` | kernel/buddy.c:122-194 | a run that frees all it got ends with the initial bitmaps and free-list members |
| `BuddyInit.BlkIndexIsDiv` | kernel/buddy.c:108-113 | index by halving is the quotient by the block size, and the next index its ceiling |
| `BuddyInit.PairCount` | kernel/buddy.c:237-252 | in one row of the bitmap, marked blocks and lone free halves count twice the marked parents |
| `BuddyInit.Conservation` | kernel/buddy.c:122-194 | free plus live units are the whole heap, at any state with the invariant |
| `BuddyInit.RightInRange` | kernel/buddy.c:262-267 | the right index of every size is inside the bitmap exactly when some memory is unavailable |
| `BuddyInit.LayoutIff` | kernel/buddy.c:254-270 | bd_initfree stays inside every bitmap exactly when the tables take at most half of the heap and some of the heap is missing |
| `BuddyInit.InitInv` | kernel/buddy.c:295-353 | with no pair named twice, the state bd_init builds has the allocator's invariant |
| `BuddyInit.InitFreeTotal` | kernel/buddy.c:254-270 | what bd_initfree counts is heap minus metadata minus unavailable, plus what pairs named twice add |
| `BuddyInit.InitAccounting` | kernel/buddy.c:345-352 | the final check of bd_init passes exactly when no size has its left and right index in one pair twice |
| `BuddyInit.DoubledHappens` | kernel/buddy.c:254-270 | 320 bytes, the shortest such memory: 208 of 512 taken and 320 usable put both indices of size 2 in one pair, and the final check fails |
| `BuddyInit.MiddlePairs` | kernel/buddy.c:254-270 | with a heap of 512 bytes no pair is named twice exactly below 320 usable bytes; from there it is that of size 2, from 384 on that of size 3 |
| `BuddyInit.QuarterSuffices` | kernel/buddy.c:262-267 | metadata of at most a quarter of the heap, with at least half of the heap usable, excludes such a pair |
| `BuddyInit.TablesFit` | kernel/buddy.c:312-334 | from six sizes on, the tables bd_init lays out take at most a quarter of the heap |
| `BuddyInit.WorksIff` | kernel/buddy.c:295-353 | bd_init lays out its tables in the memory, stays in its bitmaps and names no pair twice exactly when the length is not a full power of two of leaves and is 257 to 319 or above 512 |
| `BuddyInit.InitTheorem` | kernel/buddy.c:295-353 | on every memory it can be laid out in, the final check of bd_init passes exactly when the length is below 320 or above 512, and then the invariant holds |
| `Buddy.FirstK` | kernel/buddy.c:95-106 | the least size index whose blocks hold n bytes |
| `Buddy.Log2Of` | kernel/buddy.c:205-213 | the integer logarithm |
| `Buddy.MaxSizeFor` | kernel/buddy.c:303-307 | the largest size index needed for the memory |
| `Buddy.EndOfMemory` | kernel/buddy.c:281-292 | the end of usable memory, rounded down to a leaf, as offset from the base |
| `Buddy.LayTables` | kernel/buddy.c:312-334 | where every row starts and where the tables end, as laid out |
| `Buddy.StartsDiffer` | kernel/buddy.c:115-119 | different live or free blocks start at different addresses |
| `Buddy.LiveBytesApart` | kernel/buddy.c:115-154 | the byte ranges of two blocks in use are disjoint, and a block chosen for n bytes holds n |
| `Buddy.Allocator.constructor` | kernel/buddy.c:295-353 | on every memory where bd_init works, builds exactly the initial state of the specification, bits and lists in memory included; what bd_init then checks holds |
| `Buddy.Allocator.SetAlloc` | kernel/buddy.c:45-50 | the packed bytes stand for the old bitmaps with that bit set |
| `Buddy.Allocator.Mark` | kernel/buddy.c:215-235 | marks in every size exactly the blocks that meet the range |
| `Buddy.Allocator.InitFreePair` | kernel/buddy.c:237-252 | lists the free half of a pair when just one half is marked, and returns its size |
| `Buddy.Allocator.InitFree` | kernel/buddy.c:254-270 | fills every list as the specification says and returns the sum |
| `Buddy.Allocator.Malloc` | kernel/buddy.c:121-154 | returns null or the address of the block that the specification chooses, with exactly its state change, in the packed bitmaps and the lists in memory |
| `Buddy.Allocator.Size` | kernel/buddy.c:156-165 | recovers the size index of any live block from the split bits alone |
| `Buddy.Allocator.Free` | kernel/buddy.c:167-194 | exactly the state change of the specification, in the packed bitmaps and the lists in memory, for every live block beyond the allocator's own tables |
| `LogSpec.HeaderReadsBack` | kernel/log.c:84-113 | reading a header gives the block numbers that were written |
| `LogSpec.DurableUnmoved` | kernel/log.c:68-82 | recovery does not depend on blocks it will overwrite |
| `LogSpec.HeaderCommits` | kernel/log.c:99-113 | the header write alone makes the transaction durable |
| `LogSpec.CrashInInstall` | kernel/log.c:68-82 | a crash after any number of home writes loses nothing |
| `LogSpec.CrashInCommit` | kernel/log.c:192-202 | a crash after any write of a commit leaves all of the transaction or none, all exactly from the header on |
| `LogSpec.CrashInRecovery` | kernel/log.c:115-122 | a crash after any write of a recovery changes nothing about what recovery yields |
| `LogSpec.CrashSafety` | kernel/log.c:68-202 | for every sequence of commits, crashes after any single write, and recoveries, the home blocks are the fold of exactly the transactions whose header reached the disk |
| `BcacheSpec.BgetKeeps` | kernel/bio.c:54-87 | bget keeps cache coherence and counts the new reference |
| `BcacheSpec.BgetFails` | kernel/bio.c:74-86 | bget panics exactly when the block is not cached and every buffer is referenced |
| `BcacheSpec.BreadKeeps` | kernel/bio.c:89-101 | bread returns a buffer with the flat disk's contents of the block |
| `BcacheSpec.ModifyKeeps` | kernel/bio.c:7-16 | changing the data of a referenced buffer is changing the flat disk at that block |
| `BcacheSpec.BwriteKeeps` | kernel/bio.c:103-110 | bwrite makes disk and flat disk agree on the block |
| `BcacheSpec.RecountKeeps` | kernel/bio.c:137-149 | pin and unpin keep coherence with the new count, provided the count reaches zero only on a clean block |
| `BcacheSpec.BrelseKeeps` | kernel/bio.c:112-135 | brelse keeps coherence with one reference less, provided the last reference goes only from a clean block; only the order of the list may change besides, and `BcacheLru.OrderIsHistory` says to what |
| `BcacheSpec.UnreferencedIsClean` | kernel/bio.c:73-85 | a block nobody references is the same on the disk as on the flat disk |
| `BcacheSpec.SomeUnused` | kernel/bio.c:74-86 | with fewer referenced blocks than buffers some buffer can be recycled |
| `BcacheSpec.NoneUnused` | kernel/bio.c:74-86 | with as many referenced blocks as buffers none can be recycled |
| `BcacheLru.OrderIsHistory` | kernel/bio.c:112-135 | in every run one buffer is before another in the list exactly when it was the later of the two to lose its last reference, or neither ever did and it was before at the start |
| `BcacheLru.RecyclesOldest` | kernel/bio.c:54-87 | when bget finds the block in no buffer, it recycles the least recently dropped of those nobody references |
| `Bcache.Cache.constructor` | kernel/bio.c:35-52 | the ring of all buffers, each unreferenced |
| `Bcache.Cache.FindCached` | kernel/bio.c:64-72 | the first buffer from the front that holds the block |
| `Bcache.Cache.FindUnused` | kernel/bio.c:73-85 | the first unreferenced buffer from the back |
| `Bcache.Cache.Bget` | kernel/bio.c:54-87 | the pointer version computes Bget of the specification |
| `Bcache.Cache.Bread` | kernel/bio.c:89-101 | computes Bread of the specification |
| `Bcache.Cache.Bwrite` | kernel/bio.c:103-110 | writes the block through and records the disk write |
| `Bcache.Cache.Brelse` | kernel/bio.c:112-135 | computes Brelse: at the last reference the buffer goes to the front, done on the pointers |
| `Bcache.Cache.Bpin` | kernel/bio.c:137-142 | one more reference, modulo 2^32 |
| `Bcache.Cache.Bunpin` | kernel/bio.c:144-149 | one reference less, modulo 2^32 |
| `Log.EncodeHeader` | kernel/log.c:106-110 | the loop of write_head builds the header block |
| `Log.DecodeHeader` | kernel/log.c:91-94 | the loop of read_head reads the block numbers back |
| `Log.LogCopyKeeps` | kernel/log.c:177-190 | copying a cached block to the log keeps coherence and writes exactly that log block |
| `Log.HomeCopyKeeps` | kernel/log.c:68-82 | installing a block keeps coherence and drops one reference, modulo 2^32 |
| `Log.Log.constructor` | kernel/log.c:54-65 | before recovery: an empty in-memory log over an idle cache whose contents are the disk |
| `Log.Log.WriteHead` | kernel/log.c:98-113 | exactly one disk write, of the header; fails only when every buffer is referenced |
| `Log.Log.WriteLog` | kernel/log.c:176-190 | exactly the log writes of the specification, in order; panics, before the first, exactly when every buffer is pinned by a logged block |
| `Log.Log.InstallTrans` | kernel/log.c:68-82 | exactly the home writes of the specification, in order; each logged block loses a reference; in recovery it panics, after a first part of the writes, exactly when there are not more buffers than blocks |
| `Log.Log.ReadHead` | kernel/log.c:84-96 | reads the logged block numbers, writes nothing |
| `Log.Log.Commit` | kernel/log.c:192-202 | completes exactly when nothing is logged or there are more buffers than logged blocks, with exactly the writes of the specification's commit, an empty log and a clean cache; otherwise it panics before the first write |
| `Log.Log.RecoverFromLog` | kernel/log.c:115-122 | completes exactly when there are more buffers than logged blocks, with exactly the writes of recovery, and otherwise stops after a first part of them; reference counts are right afterwards exactly when the log was empty |
| `Log.ReadAfterRecovery` | kernel/log.c:75-80 | after a recovery of a non-empty log, reading such a block takes its count from 2^32 - 1 back to 0 |
| `Log.RecoverOne` | kernel/log.c:68-122 | a log of one block: with one buffer recovery panics, and with any more the next bread of the block returns a buffer with no reference |
| `Log.CommitOne` | kernel/log.c:177-202 | one operation that updates one block: with one buffer its end panics, with any more it does not |
| `Log.Log.LogWrite` | kernel/log.c:204-235 | absorbs a block already logged, else appends and pins it; refuses exactly when the log is full or no operation is open |
| `Log.Log.Update` | kernel/log.c:204-216 | the typical use of log_write: the flat disk changes at that block, which is logged and pinned once; fails exactly for lack of a buffer or of room in the log |
| `Log.Log.BeginOp` | kernel/log.c:124-141 | admits the operation exactly when no commit runs and a full budget still fits |
| `Log.Log.EndOp` | kernel/log.c:143-174 | the last operation commits, and panics exactly when commit does; any other leaves the transaction open |
| `LogSystem.StepKeeps` | kernel/log.c:68-235 | each of the ten kinds of step of cache and log together keeps the system invariant; bget and the fill from disk are separate steps |
| `LogSystem.RunKeepsInv` | kernel/log.c:68-235 | so it holds at every point of every run |
| `LogSystem.RunRefines` | kernel/bio.c:57-149 | the cache and log together refine a flat disk on which every change takes effect at once |
| `LogSystem.ReadsAreFlat` | kernel/bio.c:57-101 | at every point of every run, what any holder of a buffer sees is what that flat disk holds |
| `LogSystem.FillGivesHolder` | kernel/bio.c:89-101 | a finished bread makes its caller such a holder |
| `LogSystem.CommittedIs` | kernel/log.c:192-202 | the committed contents are the flat disk as it was when the last commit header was written |
| `LogSystem.DurableIsCommitted` | kernel/log.c:115-122 | in every state with the invariant, recovery would yield exactly the committed contents |
| `LogSystem.CrashAnywhere` | kernel/log.c:68-202 | stopped at any point of any run, recovery yields exactly the changes made before the last commit header |
| `LogSystem.DirtyIsReferenced` | kernel/bio.c:73-85 | a valid buffer that differs from the disk is referenced, so bget never recycles an update |
| `LogOps.RunKeepsInv` | kernel/log.c:124-235 | in every interleaving the log entries plus unspent budgets stay within LOGSIZE |
| `LogOps.LoggedOnce` | kernel/log.c:224-234 | in every run a block is logged at most once, whoever writes it and however often |
| `LogOps.CommitAlone` | kernel/log.c:143-174 | while one process commits, no operation is outstanding and every other process is outside any operation |
| `LogOps.NoPanic` | kernel/log.c:219-222 | with a log of at least LOGSIZE + 1 blocks no panic of end_op or log_write is reachable |
| `LogOps.SmallLogPanics` | kernel/log.c:219-220 | with any smaller log, as mkfs makes it, a run reaches the panic of log_write |
| `LogOps.ReservationEnoughIff` | kernel/log.c:124-235 | the panics are unreachable exactly when the log has at least LOGSIZE + 1 blocks |
| `LogOps.StaysInLogIff` | kernel/log.c:218-234 | the logged blocks stay within the log in every run exactly when it has one block or at least LOGSIZE + 1: the checks of log_write are made without the lock, and two operations can get past them together |
| `LogOps.FillsBuffersIff` | kernel/log.c:124-202 | some run reaches commit with as many logged blocks as there are buffers, where Log.Commit panics, exactly when the log has at least LOGSIZE - 1 blocks |
| `LogOps.NoSizeIsSafe` | kernel/param.h:9-11 | so with NBUF equal to LOGSIZE every size of the log lets some run panic, in log_write or in commit |
| `ExitWait.StepKeeps` | kernel/proc.c:246-435 | each of the 24 kinds of step of fork, exit, wait, scheduler and wakeups keeps the invariant |
| `ExitWait.RunKeepsInv` | kernel/proc.c:246-488 | so it holds at every point of every run |
| `ExitWait.ParentsAlive` | kernel/proc.c:291-315 | no process in use other than init ever has a ZOMBIE or UNUSED parent |
| `ExitWait.SleeperMissesNothing` | kernel/proc.c:392-434 | a process other than init that is SLEEPING in wait has no zombie child |
| `InitWait.OverlooksIff` | kernel/proc.c:341-381 | init becomes blind to a zombie child, one in a slot it will not look at again before it sleeps, exactly by being given a zombie there or by a process there turning one that was given to init after it had read its parent |
| `InitWait.MissHasCause` | kernel/proc.c:341-434 | whenever init sleeps over a zombie, or has one where it does not look, one of those steps came before and init was blind ever since |
| `InitWait.MissLasts` | kernel/proc.c:341-434 | only a wakeup or a kill of init, as at the start of a later exit, or a child that exits with init recorded as its parent, ends a miss |
| `InitWait.InitMayMiss` | kernel/proc.c:341-381 | some run of four processes does leave init asleep in wait over a zombie child with every lock free |
| `ExitWait.ReapIsSafe` | kernel/proc.c:403-421 | wait frees only a child of the caller that no CPU runs and that holds no lock, and reports the pid it has, which no wait has reported before |
| `ExitWait.ReapedOnce` | kernel/proc.c:403-421 | two waits of one run never report the same pid |
| `ExitWait.ExitDoneKeeps` | kernel/proc.c:363-379 | becoming a zombie under the parent's lock strands no waiting parent and no child; the status is the one exit was given (`ExitRuns.StatusReported`) |
| `ExitWait.ReparentOneKeeps` | kernel/proc.c:291-315 | giving a child to init keeps the invariant while other exits run |
| `ExitRuns.StatusReported` | kernel/proc.c:320-421 | in every run, if a process exits with a status and later a wait reports its pid, it reports that status |
| `ExitRuns.ReportedExited` | kernel/proc.c:320-421 | what a wait reports is the pid of a process that exited before, and the status it exited with |
| `ExitRuns.WaitsForOwn` | kernel/proc.c:246-421 | what a wait of a process other than init reports is a pid that one of its own forks returned |
| `ExitRuns.ForkedOnce` | kernel/proc.c:78-289 | two forks of one run never return the same pid |
| `ExitRuns.ChildlessIff` | kernel/proc.c:392-434 | at the end of its scan, a process other than init that is not killed returns from wait exactly when it has no child, and sleeps exactly when it has some, none of them a zombie |
| `SleepWakeup.StepKeeps` | kernel/proc.c:444-597 | each step of sleep, wakeup, yield, kill and scheduler keeps the invariant |
| `SleepWakeup.RunKeepsInv` | kernel/proc.c:444-597 | so it holds at every point of every run |
| `SleepWakeup.FallsAsleep` | kernel/proc.c:549-582 | a process comes to be asleep only by letting go of lk with its own lock held |
| `SleepWakeup.SleepStarts` | kernel/proc.c:549-582 | a process comes to be in sleep(chan, lk) only by calling it |
| `SleepWakeup.NoneLeftAsleep` | kernel/proc.c:583-597 | when wakeup(chan) returns with lk held, no process that called sleep(chan, lk) is still asleep or on its way there |
| `SleepWakeup.NoLostWakeup` | kernel/proc.c:549-597 | in every run, a process found in sleep(chan, lk) after a wakeup(chan) under lk returned, called sleep after that |
| `SleepWakeup.SleepReturns` | kernel/proc.c:549-582 | sleep(chan, lk) returns with lk held again, and only if a wakeup of chan or a kill has reached the process since it called |
| `Pipe.StepKeeps` | kernel/pipe.c:58-127 | each loop iteration of readers, writers and closers keeps the invariant |
| `Pipe.WriteFifo` | kernel/pipe.c:84-95 | one byte written keeps the ring holding exactly the bytes put in and not yet taken, across index and counter wrap-around |
| `Pipe.ReadFifo` | kernel/pipe.c:117-123 | one byte read keeps it, whether or not the copy to the user faults |
| `Pipe.RunKeepsInv` | kernel/pipe.c:58-127 | the invariant holds at every point of every run |
| `Pipe.RunIsFifo` | kernel/pipe.c:76-127 | at every point of every run the bytes that the state records as taken out, followed by those in the ring, are the bytes it records as put in; `PipeRuns` is about the moves themselves |
| `Pipe.WriterHasReason` | kernel/pipe.c:85-92 | with the lock free, a writer sleeps only on a full pipe whose read end is open |
| `Pipe.ReaderHasReason` | kernel/pipe.c:110-116 | with the lock free, a reader sleeps only on an empty pipe whose write end is open, unless a write that gave up is still unanswered |
| `Pipe.AbandonedIff` | kernel/pipe.c:84-97 | that exception is exactly: a write gave up and no move since has woken the readers |
| `Pipe.QuitStrandsReaders` | kernel/pipe.c:86-89 | a write that gives up leaves the sleeping readers their reason exactly when there are none |
| `Pipe.ReaderMayStrand` | kernel/pipe.c:84-92 | some run leaves a reader asleep on a full pipe with both ends open |
| `Pipe.NoDeadlock` | kernel/pipe.c:76-127 | with the same exception, a reader and a writer never sleep on each other |
| `PipeRuns.PipeIsFifo` | kernel/pipe.c:76-127 | at every point of every run the bytes handed to readers so far, in the order of the moves, followed by those in the ring, are the bytes the writers put in, in the order of the moves; the ring never overfills, across wrap-around of the 32-bit counters |
| `PipeRuns.WritesInOrder` | kernel/pipe.c:76-100 | what a write has put in is the front of the buffer it was called with, in order, whatever the others do; one that ends returns the length it was given, and has put in all of it unless copyin failed; one that gives up has met a full pipe |
| `PipeRuns.ReadsContiguous` | kernel/pipe.c:102-127 | what one read has copied out is a contiguous part of all that was taken out, at most n bytes; one that ends returns their number, and unless copyout failed it stops short only on an empty pipe; one that sleeps or gives up has met an empty pipe |
| `PipeRuns.EndOfFile` | kernel/pipe.c:76-127 | a read that asked for bytes returns 0 only once the write end is closed, unless a copyout failed; a write that is not killed gives up only once the read end is closed; nobody sleeps once the other end is closed |
| `Virtio.AtMostTwo` | kernel/virtio_disk.c:128-175 | three requests are never in flight: nine descriptors do not fit in eight |
| `Virtio.ShortRings` | kernel/virtio_disk.c:246-250 | at most two entries of either ring are not yet seen by the other side |
| `Virtio.InterruptFinds` | kernel/virtio_disk.c:263-278 | the modulo-NUM test is true exactly when a completion is pending, and that completion names the live request waiting for it |
| `Virtio.TakeFinds` | kernel/virtio_disk.c:200-252 | the device always finds the published chain intact in the available ring, and its three descriptors say what the thread asked for |
| `Virtio.TakeKeeps` | kernel/virtio_disk.c:246-252 | taking a chain keeps the invariant, and finds in it exactly that request |
| `Virtio.StepKeeps` | kernel/virtio_disk.c:128-281 | each step of requests, device and interrupt handler keeps the invariant |
| `Virtio.RunKeepsInv` | kernel/virtio_disk.c:128-281 | so it holds at every point of every run |
| `Virtio.FinishKeeps` | kernel/virtio_disk.c:255-260 | a finished request frees three descriptors that were not free, so free_desc does not panic |
| `Virtio.RingSafety` | kernel/virtio_disk.c:128-281 | in every run a descriptor is free exactly when no live request has it, a live request has three and shares none, no three requests are live, and the handler acts exactly when there is a completion, which names the live request waiting for it |
| `Virtio.RequestInOrder` | kernel/virtio_disk.c:180-281 | in every run a request is submitted, taken, completed, told to its own thread and finished, in that order and once each; what the device takes is the direction, sector and address its thread asked for |
| `Virtio.DeviceInOrder` | kernel/virtio_disk.c:180-252 | the device takes the requests in the order they were submitted in |
| `Virtio.RequestIsChain` | kernel/virtio_disk.c:153-164 | the descriptors of a live request form a chain of three |
| `Virtio.First3` | kernel/virtio_disk.c:166-178 | the first three free descriptors, the third being NUM exactly when there are fewer than three |
| `Virtio.Table.AllocDesc` | kernel/virtio_disk.c:127-138 | the first free descriptor, or -1 |
| `Virtio.Table.FreeDesc` | kernel/virtio_disk.c:140-151 | marks exactly that descriptor free |
| `Virtio.Table.Alloc3Desc` | kernel/virtio_disk.c:166-178 | the first three free descriptors, or none at all when there are fewer |
| `Virtio.Table.FreeChain` | kernel/virtio_disk.c:153-164 | frees exactly the descriptors of the chain |
| `FsSpec.StoreEntry` | kernel/fs.c:395-400 | storing a word of an indirect block changes that word and no other |
| `FsSpec.ExactlyOneOwner` | kernel/fs.c:369-406 | a data block is marked used exactly when some pointer of some inode holds it, and then just one does |
| `FsSpec.AssignKeeps` | kernel/fs.c:384-402 | giving a pointer a free block keeps block ownership |
| `FsSpec.DropKeeps` | kernel/fs.c:420-437 | freeing the block of a pointer and clearing it keeps block ownership |
| `FsSpec.NewInodeKeeps` | kernel/fs.c:203-211 | making a free inode an empty file keeps block ownership |
| `FsSpec.AssignWrote` | kernel/fs.c:378-406 | a block newly allocated changes no byte of any file |
| `FsSpec.ExtendsContents` | kernel/fs.c:376-406 | what bmap may allocate, in a hole too, leaves every file as it reads |
| `FsSpec.LagIff` | kernel/fs.c:376-406 | when the inode on disk lacks pointers that the one in memory has, block ownership holds of the disk, for any owners, exactly if it lacks none |
| `FsSpec.SpliceWrote` | kernel/fs.c:497-506 | writing part of a block of a file writes those bytes of that file and no byte of any other |
| `FsSpec.WroteTrans` | kernel/fs.c:497-506 | two adjacent writes are one write of both |
| `FsSpec.WritesContents` | kernel/fs.c:486-518 | bytes written and size updated, the contents are the old ones with the data spliced in |
| `FsSpec.WritesOthers` | kernel/fs.c:486-518 | every other file reads as before |
| `FsSpec.TrimmedOwner` | kernel/fs.c:413-441 | a file without pointers owns nothing: exactly its blocks were given back |
| `FsSpec.SpliceRead` | kernel/fs.c:459-518 | what was written is read back, the rest unchanged, the size extended as needed |
| `FileSys.Volume.BAlloc` | kernel/fs.c:64-87 | the first free block, now used and zeroed; none exactly when all are used |
| `FileSys.Volume.BFree` | kernel/fs.c:89-104 | marks exactly that block unused |
| `FileSys.Volume.BMap` | kernel/fs.c:376-406 | the block of file block bn; allocates exactly when it is missing, and changes no byte of any file |
| `FileSys.Volume.BMapIndirect` | kernel/fs.c:389-403 | the indirect case: allocates the indirect block and the entry as needed, changing no byte of any file |
| `FileSys.Volume.IUpdate` | kernel/fs.c:218-238 | the disk inode becomes the in-memory one |
| `FileSys.Volume.WriteChunk` | kernel/fs.c:497-506 | one iteration extends the written bytes by that chunk |
| `FileSys.Volume.WriteI` | kernel/fs.c:482-518 | fails exactly on its two range checks, else splices the data in, holes or not, writes the inode back so that disk and memory agree, and leaves every other file; false only when every block is used |
| `FileSys.Volume.ReadI` | kernel/fs.c:455-480 | fails exactly on its range checks, else returns exactly that slice of the contents, a hole reading as zeros; no file changes and no inode on disk; block ownership then holds on disk exactly when no pointer of the inode itself towards the range was missing |
| `FileSys.Volume.FreeEntries` | kernel/fs.c:427-434 | frees exactly the blocks the indirect block lists, whose bytes stay as they were |
| `FileSys.Volume.ITrunc` | kernel/fs.c:408-441 | frees exactly the blocks of this file; every other file reads as before |
| `FileSys.Volume.IPut` | kernel/fs.c:326-359 | frees file and inode exactly on the last reference to a valid inode without links, with the blocks only the inode in memory points to, so that ownership holds on disk; every other file is as it was |
| `FileSys.Volume.IAlloc` | kernel/fs.c:193-216 | the first free inode, emptied; ownership is kept |
| `FileSys.Volume.ILock` | kernel/fs.c:287-314 | reads the inode from disk exactly when it is not valid; panics exactly when it then has no type |
| `Mkfs.LayoutFits` | mkfs/mkfs.c:20-116 | in every file system of that layout each inode and each bitmap bit lies in its own region, and no pointer of any inode leads into the metadata |
| `Mkfs.Image.constructor` | mkfs/mkfs.c:94-116 | an empty image satisfies block ownership |
| `Mkfs.Image.IAlloc` | mkfs/mkfs.c:231-243 | the next inode in order, with one link and no blocks |
| `Mkfs.BlocksStep` | mkfs/mkfs.c:263-305 | how many blocks a file of a size takes, indirect block included, grows chunk by chunk as iappend takes them |
| `Mkfs.Image.Locate` | mkfs/mkfs.c:273-294 | the block of file block fbn, taken from the image exactly if it is missing; fails exactly when the blocks it needs are not left |
| `Mkfs.Image.IAppend` | mkfs/mkfs.c:263-305 | the contents gain exactly the bytes given, across direct and indirect blocks, and as many blocks are used as that takes; every other file is as it was; fails exactly when they are not left |
| `Mkfs.Image.AddFile` | mkfs/mkfs.c:131-164 | one file: its entry at the end of the root directory, its bytes in a new inode, and exactly the blocks of both |
| `Mkfs.RoundedIff` | mkfs/mkfs.c:166-171 | rounding the root directory's size up leaves it without a hole exactly when its size is no block multiple |
| `Mkfs.RootWithHole` | mkfs/mkfs.c:166-171 | a whole image built with 64 directory entries of 16 bytes has such a hole, its second block |
| `Holes.ReadRootHole` | kernel/fs.c:455-480 | reading the hole of such a root directory leaves a used block that no inode on disk owns |
| `Mkfs.Image.RoundRoot` | mkfs/mkfs.c:166-171 | the rounding does just that to the root directory and leaves every other file |
| `Mkfs.Image.Bitmap` | mkfs/mkfs.c:245-259 | exactly the blocks handed out are marked used |
| `Mkfs.Image.Build` | mkfs/mkfs.c:67-176 | the whole image: succeeds exactly when the blocks of all files fit the image and one bitmap block; then block ownership holds, every file reads as given, and the root directory is whole exactly when its entries do not fill their last block |
| `VmSpec.PXIsIndex` | kernel/riscv.h:342-345 | the index bits of an address are those of its place in the tree |
| `VmSpec.AllocKeeps` | kernel/kalloc.c:65-82 | taking the first free page keeps every page in one use |
| `VmSpec.ReleaseKeeps` | kernel/kalloc.c:42-63 | freeing a held page keeps it so exactly when no translation leads to the page |
| `VmSpec.WalkDown` | kernel/vm.c:84-94 | a valid entry leads to the next table on the way; an invalid one means there is none |
| `VmSpec.LinkKeeps` | kernel/vm.c:89-92 | adding an empty table keeps the tables a tree and every page in one use |
| `VmSpec.MapKeeps` | kernel/vm.c:166-168 | mapping a page keeps the tables a tree and every translation on a page it may lead to, when the page is held or unmanaged |
| `VmSpec.UnmapKeeps` | kernel/vm.c:195-203 | so does unmapping one, with its frame freed or not |
| `VmSpec.FreeThenUnmap` | kernel/proc.c:133-139 | freeproc frees the trapframe page while it is mapped: the invariant is broken in between and restored by the unmapping, as in the other order |
| `VmSpec.LeafFacts` | kernel/vm.c:98-119 | every user translation leads to a frame of its own |
| `VmSpec.UnlinkKeeps` | kernel/vm.c:286-302 | freeing an empty table leaves only its parent's entry dangling |
| `VmSpec.CloseKeeps` | kernel/vm.c:295-296 | clearing that entry restores the tree |
| `VmSpec.PopulatedUndone` | kernel/vm.c:252-262 | unmapping what was mapped leaves every translation and frame as before |
| `VmSpec.SpentNext` | kernel/vm.c:78-96 | memory adds up: mapping n pages takes exactly the tables missing on the way to them, shared ones once |
| `VmSpec.RangeFails` | kernel/vm.c:241-265 | when the next page does not fit, the whole range never did |
| `VmSpec.FreedAll` | kernel/vm.c:304-311 | after unmapping and freewalk, exactly the pages of that page table are free |
| `Vm.Memory.constructor` | kernel/kalloc.c:26-40 | every whole page between the two addresses is free |
| `Vm.Memory.FreePages` | kernel/kalloc.c:33-40 | frees exactly the whole pages of the range |
| `Vm.Memory.Kalloc` | kernel/kalloc.c:65-82 | pops the free list, filled with junk; null exactly when it is empty |
| `Vm.Memory.Kfree` | kernel/kalloc.c:42-63 | puts the page, filled with junk, first on the free list; from a good state with the page held, the result is good exactly when no translation leads to it |
| `Vm.Memory.Walk` | kernel/vm.c:78-96 | finds the level-0 table or adds the missing ones; succeeds exactly when none is missing or memory suffices; no translation changes |
| `Vm.Memory.MapPages` | kernel/vm.c:151-175 | adds exactly the translations of the range, or on failure those of a first part; succeeds exactly when the free pages suffice for the tables missing on the way |
| `Vm.Memory.UnmapPage` | kernel/vm.c:188-203 | one page: its translation goes, and its frame if asked; panics exactly when it is not mapped |
| `Vm.Memory.UvmUnmap` | kernel/vm.c:177-208 | panics exactly when a page of the range is not mapped, the range for size 0 being all of the address space; else removes exactly the translations of the range and frees exactly their frames |
| `Vm.Memory.UvmAlloc` | kernel/vm.c:238-265 | succeeds exactly when the free pages suffice for the new pages and their missing tables; then adds exactly those pages, zeroed, each in a frame of its own; failure restores every translation and every frame |
| `Vm.Memory.UvmDealloc` | kernel/vm.c:267-282 | frees exactly the pages above the new size; panics exactly when one of them is not mapped, so the old size may not exceed the process as the comment allows |
| `Vm.Memory.FreeWalk` | kernel/vm.c:284-302 | frees exactly the tables below and including this one |
| `Vm.Memory.UvmFree` | kernel/vm.c:304-311 | returns every table and frame of the page table and nothing else; panics exactly for size 0 or an unmapped page below it |
| `Vm.Memory.UvmCreate` | kernel/vm.c:210-220 | a new, empty page table; panics exactly when memory is out |
| `Vm.Memory.UvmCopy` | kernel/vm.c:313-347 | copies exactly when the free pages suffice: equal contents and permissions in fresh frames; otherwise every translation and frame is back as it was; its call of uvmunmap panics exactly when memory fails on the first page |
| `Vm.FirstPagePanics` | kernel/vm.c:313-347 | that happens: with five pages, two page tables and one user page leave no memory for a copy, and uvmcopy panics |
| `Vm.ShortProcessPanics` | kernel/vm.c:267-282 | a process of one page said to have two: uvmdealloc panics |
| `Vm.Memory.WalkAddr` | kernel/vm.c:98-119 | the page of a user address, null exactly when it is unmapped or not the user's |
| `Vm.Memory.CopyOut` | kernel/vm.c:362-385 | writes exactly those bytes of that address space, up to the first page the user may not use |
| `Vm.Memory.CopyIn` | kernel/vm.c:387-410 | reads exactly those bytes; fails exactly when one of them is not the user's |
| `Vm.ReadBack` | kernel/vm.c:362-410 | what copyout wrote is what copyin reads |
| `VmTheory.TablesRefineMap` | kernel/vm.c:78-119 | the three-level walk of the hardware translates every address exactly as the finite map of translations says |
| `VmTheory.OneUseEach` | kernel/kalloc.c:46-82 | every managed page is exactly one of free, a table, a frame, or held by the kernel; no translation leads to a free page or a table, the frame of one is the page of no other, and a held page is never the user's |
| `VmTheory.UserPagesApart` | kernel/vm.c:98-119 | a page the user can reach is managed, not free, and reached by one address of one page table |
| `VmTheory.LifeReturnsAll` | kernel/vm.c:210-347 | an address space created, grown or copied into, and freed leaves every page with the use it had |
| `ProcVm.ProcPagetable` | kernel/proc.c:151-174 | maps both kernel pages exactly when three pages are free, and neither otherwise, without telling its caller |
| `ProcVm.ProcFreePagetable` | kernel/proc.c:176-184 | panics exactly when a kernel page is not mapped; gives back every page of the page table exactly when the size is above 0 |
| `ProcVm.LowTablesCount` | kernel/vm.c:78-96 | how many tables n low pages take in a new page table that has those of the trampoline: one per 512 pages and one per 262144, less the shared ones |
| `ProcVm.Fork` | kernel/proc.c:246-264 | fork's memory: exactly which of the four outcomes it has, by the size and the number of free pages; a failed copy frees the child before it has a size, and exactly its tables stay in use though nothing refers to them |
| `ProcVm.ForkLoses` | kernel/proc.c:246-264 | a process of two pages and seven free pages: fork fails in the copy and loses the child's page table |
| `KrSpec.SplitTiled` | user/umalloc.c:79-81 | splitting a block keeps the blocks a tiling of the memory obtained |
| `KrSpec.JoinTiled` | user/umalloc.c:33-41 | so does joining two that touch |
| `KrSpec.TakeWholeKeeps` | user/umalloc.c:76-77 | unlinking a block that fits exactly keeps every invariant |
| `KrSpec.TakeTailKeeps` | user/umalloc.c:78-82 | so does cutting a block off the end of a larger one |
| `KrSpec.ObtainKeeps` | user/umalloc.c:46-61 | so does obtaining fresh memory as one live block |
| `KrSpec.InsertKeeps` | user/umalloc.c:29-42 | a block put after the last one below it keeps the ring in address order |
| `KrSpec.MergeKeeps` | user/umalloc.c:33-41 | merging with the next block keeps it so and removes that contact |
| `KrSpec.PutBackKeeps` | user/umalloc.c:24-44 | free keeps the ring ordered with one wrap point and no two adjacent free blocks, the tiling, and every other live block |
| `KrSpec.LiveDeterminesList` | user/umalloc.c:24-44 | free memory is always fully merged: the blocks handed out determine every free block and the whole list |
| `Kr.StopsAtSpot` | user/umalloc.c:30-32 | the search loop of free stops exactly at the place of the block, from wherever it starts |
| `Kr.FreeIs` | user/umalloc.c:33-42 | the pointer writes of free compute that result |
| `Kr.Allocator.FindSpot` | user/umalloc.c:29-32 | the loop terminates, at that place |
| `Kr.Allocator.Free` | user/umalloc.c:24-44 | every invariant, exactly that block no longer live; the next search starts after the last free block below it |
| `Kr.Allocator.Search` | user/umalloc.c:74-87 | one turn of the ring finds a block that fits, or there is none |
| `Kr.Allocator.Take` | user/umalloc.c:75-84 | the block found becomes live with exactly n units, every other live block as it was |
| `Kr.Allocator.Initialize` | user/umalloc.c:70-73 | the list of the base header alone |
| `Kr.Allocator.MoreCore` | user/umalloc.c:46-61 | memory from sbrk, at least 4096 units, joins the list as free does it, which then has a block large enough |
| `Kr.Allocator.Malloc` | user/umalloc.c:63-90 | a new live block of exactly the units for a header and the bytes, from the first that is large enough after where the last search stopped, and where this one stops is kept; asks sbrk exactly when there is none, then takes from the list with that memory, and fails exactly when sbrk does; every other block is as it was |
| `Kr.FreeUndoesMalloc` | user/umalloc.c:24-90 | freeing a block right after it was taken restores the free list and every block, whole or cut off |
| `ShellGrammar.LineSound` | user/sh.c:344-359 | what the parser accepts is a derivation of the tokens it consumed |
| `ShellGrammar.LineComplete` | user/sh.c:344-446 | every derivation is found, with what follows it left over |
| `ShellGrammar.ParserIsGrammar` | user/sh.c:344-446 | the parser accepts a line with a tree exactly when the grammar derives it |
| `ShellGrammar.Unambiguous` | user/sh.c:344-446 | a line has at most one derivation |
| `ShellGrammar.Precedence` | user/sh.c:344-372 | pipes bind tighter than background, and background tighter than a list, whatever the parts are |
| `ShellGrammar.LineWords` | user/sh.c:374-446 | every word in the tree is a word of the line |
| `ShellTokens.LexTokens` | user/sh.c:265-308 | the tokens found are in order and do not overlap, all else is white space, a word is a longest run of characters that are no delimiters, "+" is just ">>", a single ">" is not followed by another, and any other token is the one symbol of its kind |
| `ShellTokens.OnlyTokens` | user/sh.c:265-308 | a line has only one such list of tokens |
| `ShellTokens.LexIs` | user/sh.c:265-308 | so a list of tokens is the tokens of the line exactly when gettoken finds it |
| `ShellTokens.LexWords` | user/sh.c:265-308 | a word of the line is a longest run of characters that are no delimiters |
| `Shell.Parser.Peek` | user/sh.c:310-320 | tells whether the next token starts with one of the symbols; no token is consumed |
| `Shell.Parser.GetToken` | user/sh.c:265-308 | the next token of the line with its place; the cursor is at what follows |
| `Shell.Parser.ParseRedirs` | user/sh.c:374-397 | collects the redirections at the cursor; fails exactly on a missing file name |
| `Shell.Parser.ParseSimple` | user/sh.c:426-446 | words and redirections in any order, at most nine words |
| `Shell.Parser.ParseBlock` | user/sh.c:399-413 | a parenthesized line with redirections |
| `Shell.Parser.ParseExec` | user/sh.c:415-446 | a block or a simple command; agrees with the parsing function |
| `Shell.Parser.ParsePipe` | user/sh.c:361-372 | agrees with the parsing function, and the recursion ends |
| `Shell.Parser.ParseLine` | user/sh.c:344-359 | agrees with the parsing function, and the recursion ends |
| `Shell.NulTerminate` | user/sh.c:448-493 | writes NULs exactly after the words of the tree |
| `Shell.OnlyLine` | user/sh.c:327-342 | parsing accepts the whole line exactly when the grammar derives its tokens, and its tree is the only one |
| `Shell.WordsIntact` | user/sh.c:448-493 | NULs land only on delimiters: every word reads as a C string equal to its slice of the line |
| `Shell.ParseCmd` | user/sh.c:327-342 | accepts exactly the lines whose tokens the grammar derives, with their only tree, every word a C string in the buffer |

## Left out

- Device registers, interrupts, traps, assembly and `swtch`: a context switch is a step that moves a process on or off a CPU.
- The memory model and the internals of spin and sleep locks: acquire and release are atomic steps; a sleep lock never blocks in the sequential models of the cache and the log.
- More than one device: a block number stands for the pair of device and block number, and the buffers start out with block 0, which the kernel never reads.
- The virtio device: assumed to take each published chain once and to complete it once with status 0; a block write is atomic.
- Directories and path names in kernel/fs.c, kernel/file.c, kernel/sysfile.c and exec: easier than the block layer below them.
- The inode cache's table (iget, idup): one in-memory inode at a time; its write-through update is modelled.
- Faults in the middle of a copy: readi, writei and the loops of mkfs get their bytes whole, as the claims about file contents presuppose.
- Integer widths: counters that wrap (reference counts, pipe counters, ring indices) and the 32-bit range checks of readi and writei wrap as in C; addresses, sizes and pids are unbounded.
- Buddy.Allocator.Malloc: the allocator's lock is left out.
- Buddy.Allocator.constructor: excludes exactly the memories on which bd_init panics at its final check, reads past a bitmap or lays its tables out past the end (`BuddyInit.WorksIff`); what happens there after the first wrong access is not modelled.
- Buddy.Allocator.Free: the pointer it is given must be one that malloc returned, as the code assumes.
- Log.Log.LogWrite: a panic is a refused call that leaves the state as it was.
- Log.Log.RecoverFromLog: starts from a cache nobody uses, as at boot; a panic is the result false.
- LogSystem.StepKeeps: each copy of commit and of install_trans, two breads with the write between them, is one step, and so are the checks of log_write with its append; the latter loses nothing for logs of at least LOGSIZE + 1 blocks (`LogOps.StaysInLogIff`).
- LogSystem.CrashAnywhere: a run starts with an idle cache and an empty log; the reference counts that a recovery leaves wrong are not carried into it.
- Log.Log.BeginOp: one turn of its loop; sleeping and retrying is the interleaving of module LogOps.
- Vm.Memory.MapPages: an entry is its valid bit, permissions and page number; the packing into 64 bits and the accessed and dirty bits are left out. Mapping an address twice, an empty range, and permissions without read, write or execute are excluded by its precondition.
- Vm.Memory.UvmUnmap: with frames to be freed, the mapped pages of the range are required to be in frames of their own, as user memory is; freeing a shared page is not modelled.
- Vm.Memory.UvmFree: no translation is left above the size, as freewalk asks of its callers.
- ProcVm.Fork: the trapframe page of a dropped child is given back after its page table is; `VmSpec.FreeThenUnmap` shows that the order of the source gives the same memory. File descriptors and registers are left out.
- Vm.Memory.Kalloc: the free list is a sequence; the pointers inside free pages are left out.
- Kernel page tables, uvmclear, copyinstr: they would only repeat the arguments above.
- FileSys.Volume.BAlloc: the free bitmap on disk is a sequence of booleans; `Bits.SetSeq` and `Bits.ClearSeq` are about its packing.
- FileSys.Volume.ReadI: running out of blocks while filling a hole, where the code panics, is the result false; sizes above MAXFILE blocks, which writei refuses, are excluded.
- FileSys.Volume.WriteI: running out of blocks, where the code panics, is the result false; sizes as for ReadI.
- Mkfs.Image.IAppend: running past the end of the image, which the code does not check, is the result false.
- Mkfs.Image.Build: the files are required to fit the inodes and MAXFILE, of which mkfs asserts the latter; the root directory's entries are given as bytes; names and sector input and output are left out.
- ExitWait.SleeperMissesNothing: excludes init, which may miss the wakeup, as the source says itself; module InitWait states exactly when.
- ExitWait.StepKeeps: the unlocked test of a parent pointer and the locked section after it are one step, which is sound because only the parent changes that pointer.
- SleepWakeup.NoLostWakeup: wait's sleep on its own process lock is covered by module ExitWait instead.
- Pipe.StepKeeps: sleep and wakeup are atomic there, as NoLostWakeup justifies; freeing the pipe after both ends close is left out.
- Kr.Allocator.Malloc: sbrk's result is a parameter and is required to be fresh memory above the base header.
- Shell.Parser.ParseSimple: redirections are collected and wrapped around the command at the end, where the code wraps the command first and fills in its words through a pointer.
- runcmd and the rest of the shell, console, printf and string routines: left out as easier than the cores above.
