# Verification of the kernel, file system and shell in `project-cow-page-swapping`

A Dafny model of the parts of this xv6 tree that are hardest to get right.
`dfyconfig.toml` lists the files.

| files | what they model |
|---|---|
| `log_format`, `log_crash`, `log` | the redo log: its header, group commit and recovery as a machine that may crash between any two block writes, and the loops of log.c over a disk |
| `rmap`, `vm_model`, `vm_steps`, `vm` | frames, two-level page tables, the reverse map, and copy-on-write fork |
| `vm_count`, `processes`, `memory_laws` | where all frames are, processes with their memory, kernel stacks and pipe pages, and what their loads are answered |
| `fs_model`, `fs_log`, `fs`, `file` | the block bitmap, inodes with direct and indirect blocks, readi, writei, itrunc and filewrite, with exactly what each logs |
| `fs_worst`, `fs_reach` | runs whose operations log as much as any can, and how high blocks in use can lie |
| `fs_image`, `fs_crash` | a file system as disk blocks and how it is read off them, and file operations over the log |
| `umalloc` | the user-level allocator |
| `sleeplock`, `proc` | the sleep/wakeup protocol, and the process table |
| `bio` | the buffer cache |
| `pageswap` | swap slots |
| `pipe` | pipes, and the calls of any number of readers and writers that sleep midway |
| `grep` | the pattern matcher |
| `sh_grammar`, `sh_lines`, `sh` | the shell's language, character by character and as trees, and its parser |
| `common` | limits and facts that several of them share |

The main results:

- **Crash safety.** Whatever the interleaving of operations and wherever crashes
  fall, recovery's own writes included, the disk always recovers to the effect of
  whole commit groups (`LogCrash.CrashAtomicity`, `LogCrash.WholeGroups`,
  `LogCrash.Durable`); the methods of `Log.Log` make exactly the block writes that
  this machine steps through. With file operations in the log, recovery
  yields the file system after some whole number of them, in every state of every
  run, whatever open operations have logged (`FsCrash.OpsAreAtomic`); operations may
  overlap while they log different blocks (`FsCrash.RunIsAtomic`). Both end with what
  a reader who knows only the layout of fs.h finds on the recovered disk: the inodes,
  the bitmap and the bytes of every file (`FsImage.ReadBack`).
- **Copy-on-write fork is eager fork.** Any script of fork, grow, shrink, reap, load,
  store and opening and closing pipes gets the replies that private, eagerly copied
  memory would give, and is refused memory only when the machine has fewer frames
  than those private copies would need (`Processes.Processes.Run`). So a load is
  answered with the last byte stored there (`MemoryLaws.LastStoreIsRead`), a child
  loads what its parent had at the fork, whatever either has stored since
  (`MemoryLaws.ChildReads`), and new pages are zeros. The reverse map
  stays exact, every frame has one use (`Processes.FramesExact`), and a failed call
  gives back all it took.
- **Files are flat bytes.** writei splices a range into one file and nothing else;
  readi reads it back and takes no block; the bitmap marks exactly the owned blocks.
  What a write logs is known exactly (`FileSystem.WriteCosts`): a chunk of filewrite
  never logs more than MAXOPBLOCKS blocks (`File.OpenFile.Write`), exactly so many
  under a stated condition (`FileSystem.FullChunkCosts`), and a run from mkfs's disk
  reaches that (`FsWorst.Worst`).
- **The allocator** keeps one address-ordered cycle with no two touching free
  blocks, whose units and the live blocks' add up to all that sbrk gave, and takes
  the first block after the last one taken that is large enough.
- **Sleep and wakeup** give mutual exclusion and lose no wakeup in any
  interleaving, and would lose one if sleep took its locks in the other order;
  no process waits for a zombie it already has, and no pid is waited for twice.
- **Pipes.** Over any interleaving of calls that sleep and go on, the bytes accepted
  are an interleaving of the writers' bytes in order, each successful write in full,
  and the reads together get exactly a front of them (`Pipe.Calls.Interleave`).
- **The shell** reads back every command tree it could have been given, and leaves
  each word of it as a C string of its own; which characters make words, and that one
  to nine words are a command of just these, is stated apart from the grammar
  (`ShLines.WordsAreOneCommand`). **grep** matches exactly the language that a pattern
  denotes.

State that the source updates in place is a class whose methods follow the
source's loops; what their contracts promise is stated with functions and
predicates about which the lemmas are proved. Ghost state (the flat address
spaces, block owners, free list, history of the log) is tied to the real fields
by each class's `Valid`.

What the proofs brought out about the code as it is:

- log_write checks the log's size before it takes log.lock, and the log's blocks
  include its header. So three operations that each stay within their reservation
  can reach the panic "too big a transaction" (`LogCrash.FullReservationsPanic`;
  `LogCrash.CheckPassesExactly` says exactly when). If two operations pass the check
  together they can fill the header with 30 entries for 29 slots. Then the last slot
  would lie outside the log; the commit's first bread panics instead, because 30
  pinned blocks fill the buffer cache (`LogCrash.OverfullCommitPanics` is a run that
  ends there, and `LogCrash.NeverStuck` says exactly when a commit can go on).
- A malloc of more than 2^31 - 16 bytes or so asks sbrk for something else than what
  it needs (`Umalloc.SbrkAsked`), and one of the last seven sizes is given a
  block that is too small (`Umalloc.UnitsHold`, `Umalloc.HugeRequests`).
- A writer that is killed on a full pipe returns -1 without waking the readers,
  whatever it has put in, and a reader can then sleep beside a full ring
  (`Pipe.ReaderLeftAsleep`). A run has a reader asleep beside bytes if and only if,
  while one sleeps, a write goes on that does not fit and whose process is killed or
  that nobody can read (`Pipe.LostExactly`; `Pipe.LeftAsleep` says it of one event).
- The comment in file.c counts four blocks of data, four of bitmap, one indirect and
  one inode for a chunk. That is tight only if the blocks taken lie under four bitmap
  blocks, which a disk of FSSIZE blocks does not have (`FileSystem.FullChunkCosts`).
- itrunc is not cut into operations. It stays within a reservation if and only if the
  file's blocks lie under fewer than MAXOPBLOCKS bitmap blocks
  (`FileSystem.TruncCosts`). On mkfs's disk with 300 inodes and 45056 blocks a run
  ends in a truncation that does not (`FsWorst.WorstTruncation`); with mkfs's 200
  inodes none does in any run (`FsReach.TruncFits`).
- kill of pid 0 hits a free slot and marks it, and the next process there begins
  killed (`ProcTable.BornKilled`; by `ProcTable.ProcTable.AllocProc` a process
  begins killed exactly if its slot was marked).

## Model

| member | source | states |
|---|---|---|
| `LogFormat.HeaderRoundTrip` | project-cow-page-swapping/log.c:101-113 | a header that is written is read back, and the words after its last entry stay as they were |
| `LogCrash.CrashAtomicity` | project-cow-page-swapping/log.c:68-202 | in every state of every run with any crashes, recovery would yield exactly the committed prefix of the history, no operation is half in it, and outside recovery every reader sees the whole history |
| `LogCrash.WholeGroups` | project-cow-page-swapping/log.c:145-202 | what recovery would yield is the whole history of an earlier moment of the run at which no operation was open |
| `LogCrash.Durable` | project-cow-page-swapping/log.c:192-202 | what has passed a commit point is never lost or changed, whatever crashes follow |
| `LogCrash.CommitMakesDurable` | project-cow-page-swapping/log.c:192-202 | a finished commit has all that was logged before it in place at home |
| `LogCrash.CommitStaysInPlace` | project-cow-page-swapping/log.c:176-190 | a commit writes inside the log exactly in its logging, header and erasing steps, and never past the log's end |
| `LogCrash.ReservationsFit` | project-cow-page-swapping/log.c:124-141 | in every run entries are distinct, entries and unused reservations never exceed LOGSIZE, and no operation is open during commit or recovery |
| `LogCrash.CheckPassesExactly` | project-cow-page-swapping/log.c:218-219 | log_write lets an operation with reserved blocks go on if and only if the log holds fewer than LOGSIZE - 1 entries |
| `LogCrash.BeginsExactly` | project-cow-page-swapping/log.c:124-141 | an operation is admitted if and only if no commit or recovery is under way and the entries, ten for each open operation and ten more are at most thirty |
| `LogCrash.AppendsExactly` | project-cow-page-swapping/log.c:213-233 | one that has passed the check can log a block if and only if it lies on the disk outside the log and has been logged by it before or is at most its tenth |
| `LogCrash.EndsExactly` | project-cow-page-swapping/log.c:145-174 | an open operation can end if and only if it is not in the middle of a log_write |
| `LogCrash.FullReservationsPanic` | project-cow-page-swapping/log.c:218-219 | a run in which three operations within their reservations reach the panic |
| `LogCrash.OverfullCommitPanics` | project-cow-page-swapping/log.c:176-222 | a run in which three operations within their reservations, two of them past the check together, leave LOGSIZE entries to a commit that has no next step |
| `LogCrash.NeverStuck` | project-cow-page-swapping/log.c:115-122 | a crash can come at any moment, a recovery can always go on, and a commit can if and only if its entries leave a buffer free |
| `LogCrash.NextKeeps` | project-cow-page-swapping/log.c:68-233 | every step, crash or recovery step keeps the invariant |
| `LogCrash.RunKeeps` | project-cow-page-swapping/log.c:68-233 | the invariant holds throughout every run |
| `LogCrash.CommitPoint` | project-cow-page-swapping/log.c:98-113 | writing the header turns a disk that recovers to the old contents into one that recovers to the new |
| `LogCrash.SlotWrite` | project-cow-page-swapping/log.c:176-190 | a write to a log slot before the commit point does not change what recovery yields |
| `LogCrash.Install` | project-cow-page-swapping/log.c:68-82 | installing an entry, at commit or at recovery, does not change what recovery yields |
| `LogCrash.Erase` | project-cow-page-swapping/log.c:198-201 | erasing the header once all entries are installed does not change what recovery yields |
| `LogCrash.CommittedGrows` | project-cow-page-swapping/log.c:145-174 | one step either leaves the committed prefix or extends it to the whole history at a moment when no operation is open |
| `LogCrash.FillTo` | project-cow-page-swapping/log.c:124-141 | three operations within their reservations can have logged any number of blocks short of LOGSIZE |
| `LogCrash.LogsAll` | project-cow-page-swapping/log.c:213-233 | an operation alone on an empty log can log any blocks within its reservation |
| `LogCrash.CommitsAll` | project-cow-page-swapping/log.c:192-202 | a commit with a buffer to spare runs to its end |
| `LogCrash.DoesOne` | project-cow-page-swapping/log.c:124-174 | so an operation that logs alone has a run, with the commit that its end makes |
| `Log.Cache.Bread` | project-cow-page-swapping/bio.c:95-106 | a pinned buffer hides the disk's copy |
| `Log.Cache.Bwrite` | project-cow-page-swapping/bio.c:108-116 | one block of the disk changes and its buffer is no longer pinned |
| `Log.Log.ReadHead` | project-cow-page-swapping/log.c:84-96 | the in-memory header becomes the disk's |
| `Log.Log.WriteHead` | project-cow-page-swapping/log.c:98-113 | one block write: the header on disk becomes the one in memory |
| `Log.Log.WriteLog` | project-cow-page-swapping/log.c:176-190 | the disk goes through exactly the versions of a commit's logging part, in order |
| `Log.Log.InstallTrans` | project-cow-page-swapping/log.c:68-82 | the disk goes through exactly the versions of an installation, in order, and the entries are unpinned |
| `Log.Log.RecoverFromLog` | project-cow-page-swapping/log.c:115-122 | the disk goes through exactly the versions of a recovery, in order |
| `Log.Log.Commit` | project-cow-page-swapping/log.c:192-202 | the disk goes through exactly the versions of a commit, in order; none for an empty log |
| `Log.Log.LogWrite` | project-cow-page-swapping/log.c:213-233 | a block is absorbed if listed, appended if not, and pinned; the panics and nothing else refuse it |
| `Log.Log.BeginOp` | project-cow-page-swapping/log.c:124-141 | an operation is admitted if and only if no commit is under way and all reservations fit |
| `Log.Log.EndOp` | project-cow-page-swapping/log.c:145-174 | the last operation out commits; the others leave disk and entries alone |
| `Log.CommitAsRecovery` | project-cow-page-swapping/log.c:192-202 | from the header write on, a commit is what a recovery would do |
| `Log.SameCommitDisks` | project-cow-page-swapping/log.c:176-202 | the machine's commit steps make exactly the disks that the method makes |
| `Log.RecoveryYields` | project-cow-page-swapping/log.c:115-122 | any number of recovery's writes leave a disk that recovers to the same contents, and all of them put those contents at home and empty the log |
| `Rmap.RemoveIsExact` | project-cow-page-swapping/cow.c:29-41 | removing drops exactly the one directory and keeps the list free of duplicates |
| `Rmap.Rmap.constructor` | project-cow-page-swapping/cow.c:67-75 | every frame starts with no holder |
| `Rmap.Rmap.Add` | project-cow-page-swapping/cow.c:15-27 | a new holder goes to the end of the left-packed list, once; a full list drops it |
| `Rmap.Rmap.Rm` | project-cow-page-swapping/cow.c:29-47 | the holder is taken out and the rest shifted left, still packed |
| `Rmap.Rmap.GetCnt` | project-cow-page-swapping/cow.c:49-57 | the number of holders |
| `VmModel.WritableIsPrivate` | project-cow-page-swapping/cow.c:107-126 | a writable entry is the only entry that maps its frame |
| `VmModel.FramesPartition` | project-cow-page-swapping/kalloc.c:64-111 | every frame is free, the kernel's, a held page, a linked table or a live directory, and the free list is exactly the free ones |
| `VmModel.HoldersExact` | project-cow-page-swapping/cow.c:15-47 | a frame's holders are, without duplicates, exactly the directories that map it |
| `VmModel.PutPteFlat` | project-cow-page-swapping/vm.c:36-81 | writing one table entry changes exactly one page of the flat map that the two levels stand for |
| `VmModel.ClearPteFlat` | project-cow-page-swapping/vm.c:258-283 | clearing one table entry drops exactly one page of the flat map |
| `VmModel.LinkTableKeeps` | project-cow-page-swapping/vm.c:46-54 | linking a new table maps nothing and changes no process's memory |
| `VmModel.MapPageKeeps` | project-cow-page-swapping/vm.c:334-340 | mapping a frame that may be shared adds exactly that page with the frame's bytes |
| `VmModel.UnmapKeeps` | project-cow-page-swapping/vm.c:272-280 | unmapping drops exactly that page, and the frame is left loose exactly when its last holder leaves |
| `VmModel.ProtectKeeps` | project-cow-page-swapping/vm.c:334-335 | changing the write bit, on for a sole holder only, changes no process's memory |
| `VmModel.PokeKeeps` | project-cow-page-swapping/cow.c:107-126 | a store through a writable entry changes one byte of one process's memory and no other's |
| `VmModel.DetachKeeps` | project-cow-page-swapping/vm.c:294-301 | a directory without pages can go; it and its tables, each once, are then to be freed |
| `VmModel.AllocKeeps` | project-cow-page-swapping/kalloc.c:88-111 | taking a frame changes no process's memory |
| `VmModel.ReleaseKeeps` | project-cow-page-swapping/kalloc.c:64-83 | giving an unreachable frame back changes no process's memory |
| `VmModel.KeepKeeps` | project-cow-page-swapping/kalloc.c:88-111 | a frame that the kernel keeps for a stack or a pipe changes no process's memory |
| `VmModel.ReturnKeeps` | project-cow-page-swapping/kalloc.c:64-83 | nor does giving it back |
| `VmModel.SameUseSameFree` | project-cow-page-swapping/kalloc.c:64-111 | when the same frames are in use, the same frames and as many are free |
| `VmCount.FramesCounted` | project-cow-page-swapping/kalloc.c:64-111 | the numbers of free frames, kernel frames, pages, tables and directories add up to all frames |
| `VmCount.TablesAtMost` | project-cow-page-swapping/vm.c:36-56 | a directory has at most NPTENTRIES tables |
| `VmCount.PagesAtMost` | project-cow-page-swapping/cow.c:15-47 | there are no more frames with pages than mapped pages: sharing only saves |
| `VmCount.StackTaken` | project-cow-page-swapping/proc.c:96-99 | a kernel stack taken for a new process leaves the kernel's frames right: one stack for each process, one page for each pipe, no other |
| `VmCount.StackGiven` | project-cow-page-swapping/proc.c:292-293 | so does one given back |
| `VmCount.PipeTaken` | project-cow-page-swapping/pipe.c:31-31 | so does a page taken for a pipe |
| `VmCount.PipeGiven` | project-cow-page-swapping/pipe.c:70-72 | so does one given back |
| `VmCount.KernelCounted` | project-cow-page-swapping/proc.c:96-99 | the kernel has the frames of its image, one for each process and one for each pipe |
| `VmSteps.FreedPageKeeps` | project-cow-page-swapping/vm.c:272-280 | one page of deallocuvm: the page goes and its frame becomes free exactly when no holder is left |
| `VmSteps.NoTableNoPage` | lab4-swap-base/vm.c:267-269 | a missing table means that none of the 1024 pages under it is mapped |
| `VmSteps.DroppedHole` | project-cow-page-swapping/vm.c:269-271 | stepping over a range without pages skips no mapped page |
| `VmSteps.GrownUndone` | lab4-swap-base/vm.c:232-249 | taking back what allocuvm had mapped restores the old mapping and every process's memory |
| `VmSteps.SetupUndone` | project-cow-page-swapping/vm.c:135-138 | a failed setupkvm leaves every frame in the use it had |
| `VmSteps.CopyUndone` | project-cow-page-swapping/vm.c:344-346 | a failed copyuvm leaves every frame and every holder list as it was |
| `VmSteps.ReadOnlyShareable` | project-cow-page-swapping/vm.c:333-340 | an entry without write permission may be given to another directory |
| `VmSteps.CopiedPage` | project-cow-page-swapping/vm.c:328-340 | one round of copyuvm: the child has one more of the parent's pages, and the parent loses none |
| `VmSteps.CowCopied` | project-cow-page-swapping/cow.c:115-124 | giving a sharer a copy of its own changes no process's memory |
| `VmSteps.DroppedAll` | project-cow-page-swapping/vm.c:294-294 | deallocuvm from KERNBASE to 0 leaves no page |
| `Vm.Vm.constructor` | project-cow-page-swapping/kalloc.c:47-54 | all frames past the kernel's are free |
| `Vm.Vm.Kalloc` | project-cow-page-swapping/kalloc.c:88-111 | the head of the free list, and the counter stays its length; none only if there is none |
| `Vm.Vm.Kfree` | project-cow-page-swapping/kalloc.c:64-83 | the frame is pushed on the free list and counted |
| `Vm.Vm.TakeKernel` | project-cow-page-swapping/proc.c:96-99 | a frame for a kernel stack or a pipe, with no process's memory changed; none only if there is none |
| `Vm.Vm.GiveKernel` | project-cow-page-swapping/proc.c:292-293 | that frame becomes free, and nothing else changes |
| `Vm.Vm.WalkPgdir` | project-cow-page-swapping/vm.c:36-56 | the table of a page, made if asked for; without memory nothing changes |
| `Vm.Vm.MapOne` | project-cow-page-swapping/vm.c:61-81 | one entry is written, or nothing changes for want of a table |
| `Vm.Vm.FreePage` | project-cow-page-swapping/vm.c:272-280 | one page of deallocuvm, with its frame if its holder was the last |
| `Vm.Vm.DeallocUvm` | project-cow-page-swapping/vm.c:258-283 | exactly the pages of the range go, whatever tables are missing; other directories keep theirs |
| `Vm.Vm.MapZeros` | project-cow-page-swapping/vm.c:235-250 | one zeroed page is added, or memory ran out with at most one frame in hand |
| `Vm.Vm.TakeBack` | project-cow-page-swapping/vm.c:237-248 | allocuvm's failure path restores mapping and memory |
| `Vm.Vm.AllocUvm` | project-cow-page-swapping/vm.c:223-252 | zeroed pages for exactly the new range, or 0 with the old mapping restored and only if frames were too few |
| `Vm.Vm.InitUvm` | project-cow-page-swapping/vm.c:183-195 | the first process's one page holds the initial program, then zeros |
| `Vm.Vm.FreeVm` | project-cow-page-swapping/vm.c:287-302 | the directory, its tables and every frame it held last are free; nobody else's memory changes |
| `Vm.Vm.SetupKvm` | project-cow-page-swapping/vm.c:119-140 | an empty directory with its kernel tables, or 0 with every frame back in the use it had |
| `Vm.Vm.CopyOne` | project-cow-page-swapping/vm.c:329-339 | one page shared with the child, both sides read-only |
| `Vm.Vm.CopyUvm` | project-cow-page-swapping/vm.c:319-347 | the child has the parent's memory, and no other memory changes; or 0 with every frame back and only if frames were too few |
| `Vm.Vm.PageFault` | project-cow-page-swapping/pageswap.c:217-225 | a write fault leaves all memory as it was and the page writable, unless a shared page finds no frame for its copy |
| `Vm.Vm.CopyPage` | project-cow-page-swapping/cow.c:115-124 | the sharer gets its own copy, or nothing changes |
| `Vm.Vm.Present` | project-cow-page-swapping/vm.c:36-56 | whether the tables map a page |
| `Vm.Vm.Load` | project-cow-page-swapping/vm.c:36-56 | a load through the tables reads the process's byte |
| `Vm.Vm.Store` | project-cow-page-swapping/cow.c:107-126 | a store, with its fault, changes one byte of one process's memory |
| `Processes.FewHolders` | project-cow-page-swapping/cow.c:15-27 | a frame never has more holders than there are page directories, so the reverse map does not overflow |
| `Processes.FramesExact` | project-cow-page-swapping/kalloc.c:64-111 | the free frames, the kernel's image, a stack and a directory for each process, a page for each pipe, the tables and the pages are all the frames there are |
| `Processes.FramesLeft` | project-cow-page-swapping/kalloc.c:64-111 | at least as many frames are free as if every process had private copies of its pages and a full set of tables |
| `Processes.ForkUndone` | project-cow-page-swapping/proc.c:191-196 | a fork that fails for want of memory leaves every frame in the use it had |
| `Processes.Processes.UserInit` | project-cow-page-swapping/proc.c:120-132 | the first process has the initial program in its one page |
| `Processes.Processes.DoFork` | project-cow-page-swapping/proc.c:181-224 | the child has a kernel stack of its own and the parent's memory, or nothing changes and every frame is back in the use it had |
| `Processes.Processes.DoGrow` | project-cow-page-swapping/proc.c:156-176 | growproc answers and resizes as private memory would, 32-bit wrap included |
| `Processes.Processes.DoReap` | project-cow-page-swapping/proc.c:290-302 | one process's kernel stack, directory and memory go, nobody else's changes |
| `Processes.Processes.DoLoad` | project-cow-page-swapping/vm.c:36-56 | the byte of private memory, at its page and offset |
| `Processes.Processes.DoStore` | project-cow-page-swapping/cow.c:107-126 | one byte of one process changes; refused only without a free frame |
| `Processes.Processes.DoOpen` | project-cow-page-swapping/pipe.c:31-52 | a page for the new pipe; refused only without a free frame |
| `Processes.Processes.DoClose` | project-cow-page-swapping/pipe.c:59-75 | the closed pipe's page is given back, and no process's memory changes |
| `Processes.Processes.Step` | lab4-swap-base/vm.c:315-345 | each request is answered as with eager copies, and refused for memory only if the machine has fewer frames than private copies of everything would need |
| `Processes.Processes.Run` | lab4-swap-base/vm.c:315-345 | any script of requests gets the replies and leaves the memory that eager copies would; every refusal for memory comes when the machine has fewer frames than private copies of all that there is then would need |
| `MemoryLaws.StoreIsRead` | project-cow-page-swapping/cow.c:107-126 | a store that is done is read back, one that is not changes nothing, and no store changes another byte of any process |
| `MemoryLaws.ForkCopies` | project-cow-page-swapping/proc.c:182-225 | after a fork the child loads at every address what the parent does, and nobody else's loads change |
| `MemoryLaws.GrowLoads` | project-cow-page-swapping/proc.c:159-176 | when growproc succeeds and when it fails, new pages read as zeros, dropped ones are gone, no other byte changes, and the new size |
| `MemoryLaws.ReapForgets` | project-cow-page-swapping/proc.c:288-303 | a reaped process can load nothing, and nobody else's loads change |
| `MemoryLaws.FirstLoads` | project-cow-page-swapping/vm.c:184-197 | the first process loads its program, then zeros to the end of the page |
| `MemoryLaws.LastStoreIsRead` | project-cow-page-swapping/cow.c:107-126 | in any script a load is answered with the last byte stored there, unless its process has been resized or reaped since |
| `MemoryLaws.ChildReads` | project-cow-page-swapping/vm.c:320-355 | in any script a child loads what its parent had stored before the fork, whatever the parent or others have stored there since |
| `MemoryLaws.RunNothingPast` | project-cow-page-swapping/proc.c:159-176 | in every run no process can load past its size in whole pages |
| `MemoryLaws.NeedsFew` | project-cow-page-swapping/vm.c:224-258 | no free frame is needed for a load, one for a store or a pipe, two for each page to be added, and for a fork one for each page beside the stack, directory and kernel tables |
| `MemoryLaws.DemandFew` | project-cow-page-swapping/vm.c:320-355 | a system takes at most 1026 frames for each process beside the pages that all have and one for each pipe |
| `FsModel.WordAfterPut` | project-cow-page-swapping/fs.c:389-393 | an entry written into an indirect block is read back, and the others stay |
| `FsModel.GainKeeps` | project-cow-page-swapping/fs.c:372-400 | giving a free block to one position of one inode keeps every block owned at most once and the bitmap exact |
| `FsModel.GainData` | project-cow-page-swapping/fs.c:372-400 | a file that gains its next block gains a block of zeros |
| `FsModel.GainOthers` | project-cow-page-swapping/fs.c:372-400 | and no other file changes |
| `FsModel.NewEntryGains` | project-cow-page-swapping/fs.c:391-394 | a new entry of an indirect block is such a gain |
| `FsModel.WriteBlockKeeps` | project-cow-page-swapping/fs.c:498-504 | writing one block of a file changes that block of that file and nothing else |
| `FsModel.TruncateKeeps` | project-cow-page-swapping/fs.c:407-435 | truncation frees blocks of one file and leaves the others' bytes and the bitmap right |
| `FsModel.BitsExact` | project-cow-page-swapping/fs.c:56-95 | a bit is set if and only if its block is metadata or is at some position of some inode |
| `FsModel.FlatAt` | project-cow-page-swapping/fs.c:469-474 | byte k of a file is byte k % BSIZE of its block k / BSIZE |
| `FsModel.FlatPatch` | project-cow-page-swapping/fs.c:498-504 | patching a block patches exactly that range of the flat bytes |
| `FsModel.WrittenMore` | project-cow-page-swapping/fs.c:498-504 | one more round of writei extends the written range by its piece |
| `FsModel.WrittenAll` | project-cow-page-swapping/fs.c:498-510 | when all is written, the file up to its new size is the old one with the source spliced in |
| `FsModel.FreedOne` | project-cow-page-swapping/fs.c:414-430 | each position of an inode names its own block, so itrunc frees none twice |
| `FsModel.FreedAll` | project-cow-page-swapping/fs.c:414-431 | after the last position the bitmap lacks exactly the file's blocks |
| `FileSystem.ChunkFits` | project-cow-page-swapping/file.c:127-138 | a chunk costs at most MAXOPBLOCKS logged blocks at any offset |
| `FileSystem.ChunkNeedsAll` | project-cow-page-swapping/file.c:127-133 | the cost of a full chunk, as a number, is MAXOPBLOCKS if and only if it is not aligned and takes blocks under four bitmap blocks |
| `FileSystem.WriteBound` | project-cow-page-swapping/file.c:127-133 | what a write logs is at most the bound of filewrite's comment |
| `FileSystem.WriteCosts` | project-cow-page-swapping/fs.c:498-511 | the exact number of blocks that a write logs: the data blocks it reaches, the bitmap blocks of those it takes, the indirect block if it names a new one, the inode if the file grows |
| `FileSystem.FullChunkCosts` | project-cow-page-swapping/file.c:127-133 | a full chunk logs exactly MAXOPBLOCKS blocks if and only if it is not aligned and the blocks it takes are under four bitmap blocks |
| `FileSystem.TruncCost` | project-cow-page-swapping/fs.c:407-435 | itrunc logs no more than all bitmap blocks and the inode's: within a reservation on any disk of at most nine bitmap blocks |
| `FileSystem.TruncCosts` | project-cow-page-swapping/fs.c:407-435 | itrunc logs exactly the bitmap blocks that the file's blocks are under, and the inode's: within a reservation if and only if those are fewer than MAXOPBLOCKS |
| `FileSystem.WriteIsOp` | project-cow-page-swapping/fs.c:481-511 | a writei that is an operation of its own changes no block of the disk that it does not log |
| `FsLog.TookCount` | project-cow-page-swapping/fs.c:55-78 | taking the lowest free blocks k times takes k blocks |
| `FsLog.WroteBoth` | project-cow-page-swapping/fs.c:498-504 | what two rounds of writei log together is what one write of both ranges logs |
| `FsLog.DirectAccounted` | project-cow-page-swapping/fs.c:378-382 | taking a direct block takes and logs exactly what the account says |
| `FsLog.EntryAccounted` | project-cow-page-swapping/fs.c:386-396 | so does taking a block that the indirect block names, and that block first if it is missing |
| `FsLog.WriteAccounted` | project-cow-page-swapping/fs.c:499-502 | so does writing a block that is there |
| `FsLog.DataCount` | project-cow-page-swapping/fs.c:499-502 | each data block of a range counts once |
| `FsLog.MapCount` | project-cow-page-swapping/fs.c:62-66 | blocks are under no more bitmap blocks than there are of them |
| `FileSystem.InodeDone` | project-cow-page-swapping/fs.c:506-509 | updating the inode on disk only when the file grows keeps it equal to the cached one |
| `FileSystem.WritingDone` | project-cow-page-swapping/fs.c:498-511 | after writei's loop the file is the old one with the source spliced in, and the inode on disk is right |
| `FileSystem.SliceIs` | project-cow-page-swapping/fs.c:464-467 | what readi is to return, in terms of the file's blocks |
| `FileSystem.Add32Wraps` | project-cow-page-swapping/fs.c:493-493 | off + n < off detects exactly the sums that wrap around |
| `FileSystem.Inode.constructor` | project-cow-page-swapping/fs.c:287-312 | the cached inode is made from the given on-disk inode |
| `FileSystem.FileSystem.constructor` | project-cow-page-swapping/mkfs.c:93-111 | a fresh disk: metadata blocks in use, the rest free, all files empty; the record of operations begins with it |
| `FileSystem.FileSystem.BeginOp` | project-cow-page-swapping/log.c:124-141 | an operation begins with nothing logged |
| `FileSystem.FileSystem.EndOp` | project-cow-page-swapping/log.c:145-174 | what it has logged, and the state it has led to, are recorded as one operation |
| `FileSystem.FileSystem.Balloc` | project-cow-page-swapping/fs.c:55-78 | the lowest free block, marked and zeroed; none only if there is none |
| `FileSystem.FileSystem.Bfree` | project-cow-page-swapping/fs.c:80-95 | one bit is cleared and its bitmap block logged |
| `FileSystem.FileSystem.Iupdate` | project-cow-page-swapping/fs.c:220-236 | the inode on disk becomes the cached one |
| `FileSystem.FileSystem.Bmap` | project-cow-page-swapping/fs.c:372-400 | the block of a position; an existing one without any change, the next one by taking a block |
| `FileSystem.FileSystem.DirectBlock` | project-cow-page-swapping/fs.c:378-382 | the same for the positions an inode names itself |
| `FileSystem.FileSystem.IndirectBlock` | project-cow-page-swapping/fs.c:386-388 | the indirect block, taken if missing, with every file's bytes as they were |
| `FileSystem.FileSystem.BmapEntry` | project-cow-page-swapping/fs.c:389-396 | the entry of the indirect block, filled in if empty |
| `FileSystem.FileSystem.WriteOne` | project-cow-page-swapping/fs.c:499-502 | one round's piece in its block, and what it logs |
| `FileSystem.FileSystem.WriteRound` | project-cow-page-swapping/fs.c:498-504 | one round of writei keeps the written prefix, and exactly the blocks taken and logged so far are accounted for |
| `FileSystem.FileSystem.WriteLoop` | project-cow-page-swapping/fs.c:498-504 | all of the source is written |
| `FileSystem.FileSystem.WriteAll` | project-cow-page-swapping/fs.c:498-511 | writei past its checks |
| `FileSystem.FileSystem.Writei` | project-cow-page-swapping/fs.c:481-511 | -1 exactly past the end, on wrap-around or beyond MAXFILE; a panic exactly if fewer blocks are free than the file lacks; else the source is spliced into one file, no other changes, disk and cached inode agree, just the blocks needed are taken, and exactly the blocks that a write logs are logged |
| `FileSystem.FileSystem.ReadOne` | project-cow-page-swapping/fs.c:469-474 | one round of readi returns the file's bytes and takes no block |
| `FileSystem.FileSystem.ReadLoop` | project-cow-page-swapping/fs.c:469-475 | readi's loop returns the whole range |
| `FileSystem.FileSystem.Readi` | project-cow-page-swapping/fs.c:452-476 | -1 exactly past the end or on wrap-around; else the file's bytes at off; nothing is allocated or logged |
| `FileSystem.FileSystem.FreeIndirect` | project-cow-page-swapping/fs.c:421-431 | the indirect block and all it names are freed, each once |
| `FileSystem.FileSystem.FreeBlocks` | project-cow-page-swapping/fs.c:414-431 | all blocks of the inode are freed, each once |
| `FileSystem.FileSystem.Itrunc` | project-cow-page-swapping/fs.c:407-435 | exactly the file's blocks become free, the file is empty, no other changes, and just the bitmap blocks of what was freed and the inode's are logged |
| `FileSystem.FileSystem.FileSize` | project-cow-page-swapping/fs.c:440-447 | a file's bytes are as many as its inode on disk says |
| `File.SpliceTwice` | project-cow-page-swapping/file.c:135-152 | splicing two pieces one after the other is splicing them together |
| `File.ChunkGood` | project-cow-page-swapping/file.c:127-146 | a chunk that has been written is an operation within its reservation that changed only what it logged |
| `File.OpenFile.WriteChunk` | project-cow-page-swapping/file.c:140-146 | one operation writes the chunk or fails; it logs exactly what such a write logs, at most MAXOPBLOCKS blocks, changes no other block of the disk, and leaves the file system right |
| `File.OpenFile.Write` | project-cow-page-swapping/file.c:117-156 | the source is written at the offset, or whole chunks of it up to the first that does not fit; each chunk is recorded as one operation, which logs at most MAXOPBLOCKS blocks and takes the state before it to the one after it by changing those alone |
| `FsWorst.Worst` | project-cow-page-swapping/file.c:127-152 | a run of writes and truncations, each logging what it must, from mkfs's disk of 20480 blocks to a chunk of filewrite whose operation logs exactly MAXOPBLOCKS blocks |
| `FsWorst.WorstTruncation` | project-cow-page-swapping/fs.c:407-435 | a run, on a larger disk with 300 inodes, to a truncation of a file under ten bitmap blocks that logs more than MAXOPBLOCKS blocks |
| `FsReach.OwnersCount` | project-cow-page-swapping/fs.c:372-400 | no more blocks have owners than all inodes have places for |
| `FsReach.TookLow` | project-cow-page-swapping/fs.c:55-78 | taking the lowest free blocks rises no higher than the number of blocks in use |
| `FsReach.TrailLow` | project-cow-page-swapping/fs.c:55-95 | in every run from mkfs's disk the blocks in use lie below metadata and what all inodes can hold |
| `FsReach.TruncReach` | project-cow-page-swapping/fs.c:407-435 | so no truncation logs more than the bitmap blocks below that, and the inode's |
| `FsReach.TruncFits` | project-cow-page-swapping/mkfs.c:18-24 | with mkfs's 200 inodes every truncation of every run is within its reservation, if metadata take at most 8664 blocks |
| `FsCrash.OnlyLogged` | project-cow-page-swapping/log.c:213-233 | an operation leaves every block of the disk that it has not logged as it was |
| `FsCrash.OpReplays` | project-cow-page-swapping/log.c:204-233 | replaying the blocks that an operation logged takes the disk before it to the disk after it |
| `FsCrash.EventsExist` | project-cow-page-swapping/log.c:213-233 | such a record has one entry for each block logged |
| `FsCrash.HistoryReplays` | project-cow-page-swapping/log.c:204-233 | so does replaying the operations one after the other |
| `FsImage.ReadBack` | project-cow-page-swapping/fs.h:20-49 | off the blocks that a right file system is, the layout of fs.h alone reads every inode, every bit of the bitmap and every byte of every file |
| `FsImage.InodeRead` | project-cow-page-swapping/fs.h:29-43 | an inode's size and addresses are words 2 and 3 to 15 of its sixteen, eight inodes to a block |
| `FsImage.BitRead` | project-cow-page-swapping/fs.c:66-67 | bit m of a bitmap word is the m-th of its 32, the first lowest |
| `FsImage.MapRead` | project-cow-page-swapping/fs.c:64-67 | the bit of a block is bit b % 32 of word b % 4096 / 32 of bitmap block b / 4096 |
| `FsImage.FileRead` | project-cow-page-swapping/fs.c:373-401 | the blocks that an inode names, twelve in itself and the others in its indirect block, hold its file's bytes, the lowest of each word first |
| `FsCrash.RecoveredReads` | project-cow-page-swapping/log.c:68-100 | after recovery's writes on a recoverable disk, the same is read off the disk |
| `FsCrash.WholeOps` | project-cow-page-swapping/log.c:145-174 | a front of the log's history that cuts no operation in two is the record of as many operations as it has room for |
| `FsCrash.OpsAreAtomic` | project-cow-page-swapping/log.c:4-22 | in any state of any run, whatever an operation that has not ended has logged, recovery would yield the right file system after some whole number of the operations that have ended, and the inodes, bitmap and files of just that are read off the disk that recovery's writes leave |
| `FsCrash.DoneIsWhole` | project-cow-page-swapping/log.c:145-174 | what has passed a commit point is whole operations, and nothing of one that is open |
| `FsCrash.HistoryMore` | project-cow-page-swapping/log.c:145-174 | an operation that ends adds its events to the history |
| `FsCrash.MineFirst` | project-cow-page-swapping/log.c:213-233 | when operations have logged different blocks, one's events can be replayed before the others' |
| `FsCrash.EndNoted` | project-cow-page-swapping/log.c:145-174 | an operation that ends while others are open takes the newest state to its own |
| `FsCrash.StepNoted` | project-cow-page-swapping/log.c:124-233 | each step of a run, crashes included, keeps the file system's states: an operation's comes with its end, a commit keeps all, and a crash takes away those not committed |
| `FsCrash.RunNoted` | project-cow-page-swapping/log.c:124-233 | so do all runs, from an empty log on |
| `FsCrash.RunIsAtomic` | project-cow-page-swapping/log.c:4-22 | in every state of every run of operations that may overlap, but log no block that another open one has logged, recovery yields the right file system after some whole number of them, in the order in which they ended, and that is what is read off the recovered disk |
| `FsCrash.RunExists` | project-cow-page-swapping/log.c:124-233 | any operations within their reservations are those of some run |
| `FsCrash.ChunksAreOps` | project-cow-page-swapping/file.c:135-152 | the chunks of a filewrite are such operations |
| `Umalloc.UnitsHold` | project-cow-page-swapping/umalloc.c:69-69 | the rounded-up units hold the request if and only if it is not among the last seven sizes; then they are the fewest that do, and otherwise one |
| `Umalloc.SbrkAsked` | project-cow-page-swapping/umalloc.c:52-54 | sbrk is asked for the units if and only if they are fewer than 2^28 |
| `Umalloc.HugeRequests` | project-cow-page-swapping/umalloc.c:69-69 | two requests for which these fail |
| `Umalloc.MergeUp` | project-cow-page-swapping/umalloc.c:33-35 | joining with the next free block keeps the order and the tiling |
| `Umalloc.Insert` | project-cow-page-swapping/umalloc.c:36-42 | linking a block in keeps the order and the tiling |
| `Umalloc.MergeDown` | project-cow-page-swapping/umalloc.c:38-40 | joining with the block before keeps the order and the tiling |
| `Umalloc.JoinedNextIsHalf` | project-cow-page-swapping/umalloc.c:33-37 | the first half of free leaves the heap as the second half needs it |
| `Umalloc.JoinedBeforeIsWhole` | project-cow-page-swapping/umalloc.c:38-42 | the second half of free restores the invariant: one rising cycle, no two free blocks touching |
| `Umalloc.TakenWholeKeeps` | project-cow-page-swapping/umalloc.c:76-77 | taking a block whole keeps the invariant |
| `Umalloc.TakenTailKeeps` | project-cow-page-swapping/umalloc.c:78-82 | taking a block's tail keeps the invariant |
| `Umalloc.ExtendedKeeps` | project-cow-page-swapping/umalloc.c:54-58 | new memory from sbrk, as a live block, keeps the invariant |
| `Umalloc.Disjoint` | project-cow-page-swapping/umalloc.c:24-90 | no two blocks, free or live, overlap |
| `Umalloc.UnitsConserved` | project-cow-page-swapping/umalloc.c:24-90 | the sizes of all free and live blocks add up to the units obtained from sbrk |
| `Umalloc.ScanStep` | project-cow-page-swapping/umalloc.c:74-74 | each step of malloc's search comes nearer to where it began and keeps what it knows |
| `Umalloc.ScanEnds` | project-cow-page-swapping/umalloc.c:86-86 | back where it began, the search has missed no block that is large enough |
| `Umalloc.Allocator.constructor` | project-cow-page-swapping/umalloc.c:21-22 | before the first call there is no list and no memory |
| `Umalloc.Allocator.FindBefore` | project-cow-page-swapping/umalloc.c:30-32 | the search in free ends, at the one place in the cycle where the block belongs |
| `Umalloc.Allocator.JoinNext` | project-cow-page-swapping/umalloc.c:33-37 | free's first half |
| `Umalloc.Allocator.JoinBefore` | project-cow-page-swapping/umalloc.c:38-42 | free's second half |
| `Umalloc.Allocator.Free` | project-cow-page-swapping/umalloc.c:24-44 | the block is live no more, the others keep their sizes, no unit is lost, and some free block holds its units |
| `Umalloc.Allocator.Morecore` | project-cow-page-swapping/umalloc.c:46-61 | the list has gained exactly what sbrk gave, and some free block is large enough |
| `Umalloc.Allocator.TakeWhole` | project-cow-page-swapping/umalloc.c:76-77 | the block becomes live |
| `Umalloc.Allocator.TakeTail` | project-cow-page-swapping/umalloc.c:78-82 | the block's tail becomes live with the requested size |
| `Umalloc.Allocator.Init` | project-cow-page-swapping/umalloc.c:70-73 | the list begins as base alone |
| `Umalloc.Allocator.Malloc` | project-cow-page-swapping/umalloc.c:63-90 | a new live block of the requested units, the tail of the first block after freep that is large enough, or after at most one morecore, which is called only if none was; the next search begins where this one ended; 0 only if sbrk failed; no other live block changes; nothing is said exactly when sbrk gave memory for another number of units than asked |
| `SleepLock.MutualExclusion` | project-cow-page-swapping/sleeplock.c:22-42 | in every interleaving at most one process has the lock |
| `SleepLock.NoLostWakeup` | project-cow-page-swapping/proc.c:446-455 | in every interleaving a process sleeps on a free lock only while its releaser is between clearing locked and the end of wakeup1 |
| `SleepLock.HoldingIsExact` | project-cow-page-swapping/sleeplock.c:44-53 | holdingsleep says yes if and only if the asking process has the lock |
| `SleepLock.NoDeadlock` | project-cow-page-swapping/sleeplock.c:22-42 | while a process is inside acquiresleep or releasesleep, one such can step, unless all of them sleep and the lock's owner is outside: if and only if |
| `SleepLock.LockFirstLosesWakeups` | project-cow-page-swapping/proc.c:446-455 | with the two locks of sleep in the other order, a run that leaves a process asleep for good |
| `SleepLock.StepKeeps` | project-cow-page-swapping/proc.c:435-492 | each step keeps the invariant about spinlocks, owner and sleepers |
| `SleepLock.KillKeeps` | project-cow-page-swapping/proc.c:497-515 | so does a wakeup by somebody else |
| `SleepLock.RunKeeps` | project-cow-page-swapping/proc.c:435-492 | the invariant holds throughout every run |
| `ProcTable.PassedAt` | project-cow-page-swapping/proc.c:257-264 | slot by slot, what exit's loop over the children leaves |
| `ProcTable.PassedState` | project-cow-page-swapping/proc.c:257-264 | exit's loop wakes init, asleep in wait, exactly if a child passed to it is a zombie |
| `ProcTable.ExitedAt` | project-cow-page-swapping/proc.c:250-267 | what exit does to each slot: its own is a zombie, its children are init's, and just its parent and, given a zombie, init are woken from wait |
| `ProcTable.PassedWakes` | project-cow-page-swapping/proc.c:257-264 | init does not stay asleep when it is given a zombie |
| `ProcTable.ExitKeepsTree` | project-cow-page-swapping/proc.c:252-271 | after exit every live or zombie process still has a parent that has not exited |
| `ProcTable.ExitKeepsWait` | project-cow-page-swapping/proc.c:252-271 | after exit nobody sleeps in wait with a zombie child |
| `ProcTable.CollectKeeps` | project-cow-page-swapping/proc.c:290-302 | collecting a zombie keeps the tree, and its pid was never returned before |
| `ProcTable.LiveChange` | project-cow-page-swapping/proc.c:435-470 | a live process may sleep in wait only if it has no zombie child; then the invariant holds |
| `ProcTable.WokenKeeps` | project-cow-page-swapping/proc.c:475-483 | wakeup1 keeps the invariant |
| `ProcTable.EmbryoKeeps` | project-cow-page-swapping/proc.c:88-92 | a slot taken by allocproc, with a new pid, keeps the invariant |
| `ProcTable.EmbryoBorn` | project-cow-page-swapping/proc.c:202-221 | a child that starts to run has a live parent |
| `ProcTable.KillKeeps` | project-cow-page-swapping/proc.c:503-511 | marking a process killed and waking it keeps the invariant |
| `ProcTable.ProcTable.constructor` | project-cow-page-swapping/proc.c:120-154 | the table after userinit |
| `ProcTable.ProcTable.Wakeup1` | project-cow-page-swapping/proc.c:475-483 | exactly the processes asleep on the channel become runnable |
| `ProcTable.ProcTable.Wakeup` | project-cow-page-swapping/proc.c:486-492 | the same, with the lock |
| `ProcTable.ProcTable.AllocProc` | project-cow-page-swapping/proc.c:73-92 | the first free slot becomes the child's, with a new pid; its killed mark stays as it was |
| `ProcTable.ProcTable.ForkFail` | project-cow-page-swapping/proc.c:194-199 | the slot is free again |
| `ProcTable.ProcTable.ForkParent` | project-cow-page-swapping/proc.c:202-202 | the child is given its parent |
| `ProcTable.ProcTable.ForkDone` | project-cow-page-swapping/proc.c:215-223 | the child runs, and its pid is one that wait has not returned |
| `ProcTable.ProcTable.Exit` | project-cow-page-swapping/proc.c:229-271 | the parent is woken, children go to init, zombies among them wake it, and the invariant holds |
| `ProcTable.ProcTable.Wait` | project-cow-page-swapping/proc.c:275-315 | collects the first zombie child of its own if there is one, with a pid never returned before; else sleeps if it has a child and is not killed; else returns -1, and only then |
| `ProcTable.ProcTable.Sleep` | project-cow-page-swapping/proc.c:435-470 | the caller sleeps on the channel |
| `ProcTable.ProcTable.Schedule` | project-cow-page-swapping/proc.c:353-370 | a runnable process runs, and has left its channel |
| `ProcTable.ProcTable.Yield` | project-cow-page-swapping/proc.c:402-410 | the caller is runnable |
| `ProcTable.ProcTable.Kill` | project-cow-page-swapping/proc.c:494-515 | the first slot with the pid is marked, and woken if asleep; -1 exactly if there is none |
| `ProcTable.ProcTable.Step` | project-cow-page-swapping/proc.c:181-315 | any one critical section keeps the invariant and does what it says it does, and what wait returns is new |
| `ProcTable.ProcTable.StepOn` | project-cow-page-swapping/proc.c:73-272 | what each event but a wait does to the table, to who is in fork and to the next pid |
| `ProcTable.ProcTable.Run` | project-cow-page-swapping/proc.c:181-315 | over any sequence of critical sections wait returns no pid twice and none that is in use, and the tree and the sleepers stay right |
| `ProcTable.BornKilled` | project-cow-page-swapping/proc.c:70-91 | after a kill of pid 0, which hits a free slot, the next process there begins killed |
| `BufCache.Unlink` | project-cow-page-swapping/bio.c:132-133 | taking a node out of the doubly linked cycle leaves a cycle without it |
| `BufCache.Relink` | project-cow-page-swapping/bio.c:134-137 | putting it behind the head leaves a cycle with it |
| `BufCache.Spliced` | project-cow-page-swapping/bio.c:132-137 | brelse's six assignments move one buffer to the front and leave the others in order |
| `BufCache.InFrontInv` | project-cow-page-swapping/bio.c:130-138 | the list stays ordered by last release |
| `BufCache.OrderKept` | project-cow-page-swapping/bio.c:132-137 | when both lists are ordered by release and one buffer alone has been released since, all others keep their order |
| `BufCache.LeastRecent` | project-cow-page-swapping/bio.c:81-91 | the first droppable buffer from the back is the least recently released one |
| `BufCache.Recycled` | project-cow-page-swapping/bio.c:81-91 | dropping a clean unheld buffer loses no pending write and makes no second copy of a block |
| `BufCache.BlockChanged` | project-cow-page-swapping/bio.c:108-116 | changing one block, in the cache or on disk, changes no other |
| `BufCache.Cache.constructor` | project-cow-page-swapping/bio.c:38-56 | all buffers are on the cycle, the last one first, and none holds a block |
| `BufCache.Cache.FindCached` | project-cow-page-swapping/bio.c:68-76 | finds the block's buffer if and only if there is one |
| `BufCache.Cache.FindVictim` | project-cow-page-swapping/bio.c:78-92 | the least recently released droppable buffer; none only if none is droppable |
| `BufCache.Cache.Bget` | project-cow-page-swapping/bio.c:60-93 | the block's own buffer, else the least recently released clean unreferenced one, never a dirty one |
| `BufCache.Cache.Lock` | project-cow-page-swapping/bio.c:73-73 | the caller holds the buffer |
| `BufCache.Cache.Fill` | project-cow-page-swapping/bio.c:95-106 | the buffer holds the disk's block overlaid with pending writes |
| `BufCache.Cache.Modify` | project-cow-page-swapping/log.c:204-212 | a holder's change is pending |
| `BufCache.Cache.Pin` | project-cow-page-swapping/log.c:231-231 | the buffer is dirty, and no block changes |
| `BufCache.Cache.Bwrite` | project-cow-page-swapping/memide.c:38-60 | the block reaches the disk and is pending no more |
| `BufCache.Cache.Brelse` | project-cow-page-swapping/bio.c:118-141 | one reference less; the last moves the buffer to the front and marks it released now, while all others keep their order and their times of release |
| `BufCache.Cache.ToFront` | project-cow-page-swapping/bio.c:130-138 | the buffer is at the front of a list that is still right, and the others are in the order they were |
| `PageSwap.SlotsDisjoint` | project-cow-page-swapping/mkfs.c:93-103 | slot blocks lie between the super block and the log, and slots share none |
| `PageSwap.EighthsAre` | project-cow-page-swapping/pageswap.c:79-88 | a page is its eight blocks |
| `PageSwap.OtherSlot` | project-cow-page-swapping/pageswap.c:79-88 | writing one slot leaves the others' pages |
| `PageSwap.EvictKeeps` | project-cow-page-swapping/pageswap.c:202-215 | evicting a page into a free slot keeps every page's bytes, slots distinct, and a slot free exactly if nobody holds it |
| `PageSwap.FaultKeeps` | project-cow-page-swapping/pageswap.c:217-255 | so does faulting a page in |
| `PageSwap.Swapper.constructor` | project-cow-page-swapping/pageswap.c:52-60 | all slots are free |
| `PageSwap.Swapper.Give` | project-cow-page-swapping/vm.c:235-250 | a new page in a spare frame |
| `PageSwap.Swapper.FindSlot` | project-cow-page-swapping/pageswap.c:90-110 | the first free slot takes the holder; none only if none is free |
| `PageSwap.Swapper.WritePage` | project-cow-page-swapping/pageswap.c:79-88 | the slot holds the page, and no other block changes |
| `PageSwap.Swapper.ReadPage` | project-cow-page-swapping/pageswap.c:227-232 | the frame holds the page that the slot holds |
| `PageSwap.Swapper.Evict` | project-cow-page-swapping/pageswap.c:202-215 | the page is in a slot that was free, its frame is spare, every page has its bytes, and nothing outside the swap blocks is written |
| `PageSwap.Swapper.FaultIn` | project-cow-page-swapping/pageswap.c:217-255 | the page is present with the bytes it had, and its slot is free |
| `PageSwap.Swapper.Store` | project-cow-page-swapping/pageswap.c:217-225 | a store to a present page changes that byte of that page |
| `PageSwap.Swapper.Load` | project-cow-page-swapping/pageswap.c:217-225 | a load from a present page reads its byte |
| `PageSwap.Swapper.Churn` | project-cow-page-swapping/pageswap.c:202-255 | any evictions and faults in any order change no page's bytes, leave each page where its last move has put it, and stop only at a move that cannot be made |
| `Pipe.SlotAfterWrap` | project-cow-page-swapping/pipe.c:93-93 | a 32-bit counter that wraps still points at the right place of the ring |
| `Pipe.RingPut` | project-cow-page-swapping/pipe.c:93-93 | a byte put behind the content of a ring that is not full disturbs none of it |
| `Pipe.RingTake` | project-cow-page-swapping/pipe.c:116-116 | the first byte comes out and the others move up |
| `Pipe.CounterGap` | project-cow-page-swapping/pipe.c:85-85 | the wrapped counters tell full and empty rings exactly |
| `Pipe.Pipe.constructor` | project-cow-page-swapping/pipe.c:22-57 | an empty pipe, both ends open |
| `Pipe.Pipe.Full` | project-cow-page-swapping/pipe.c:85-85 | the tests for full and empty are right |
| `Pipe.Pipe.Put` | project-cow-page-swapping/pipe.c:93-93 | one more byte is accepted |
| `Pipe.Pipe.Take` | project-cow-page-swapping/pipe.c:116-116 | the next byte in order is delivered |
| `Pipe.Pipe.WriteOn` | project-cow-page-swapping/pipe.c:77-98 | bytes are accepted in order until all are in, the reader is gone, the writer is killed, or the ring is full; the readers are woken unless it fails |
| `Pipe.Pipe.ReadOn` | project-cow-page-swapping/pipe.c:100-121 | returns the next bytes in order, n of them or all that there are, and wakes the writers; sleeps or fails only on an empty pipe that has a writer |
| `Pipe.Pipe.Close` | project-cow-page-swapping/pipe.c:59-75 | one end is closed, and the pipe freed when both are |
| `Pipe.PickMore` | project-cow-page-swapping/pipe.c:84-94 | bytes that one call puts in are added to its own and to no other call's |
| `Pipe.WritesAfter` | project-cow-page-swapping/pipe.c:84-94 | each write's bytes are in the pipe in order, as many as it has come to |
| `Pipe.ReadEnds` | project-cow-page-swapping/pipe.c:113-120 | the reads, in the order in which they return, get what comes out |
| `Pipe.SleepAfterWrite` | project-cow-page-swapping/pipe.c:84-95 | a write that goes on leaves nobody asleep without a cause, unless it puts bytes in and fails |
| `Pipe.SleepAfterRead` | project-cow-page-swapping/pipe.c:106-120 | a read that goes on leaves nobody asleep without a cause |
| `Pipe.WriteKeeps` | project-cow-page-swapping/pipe.c:77-98 | a write that goes on keeps all of this |
| `Pipe.ReadKeeps` | project-cow-page-swapping/pipe.c:100-121 | so does a read |
| `Pipe.BeginKeeps` | project-cow-page-swapping/pipe.c:77-121 | so does beginning a call |
| `Pipe.WakeKeeps` | project-cow-page-swapping/pipe.c:59-75 | so does waking processes because one is killed or an end is closed |
| `Pipe.Calls.constructor` | project-cow-page-swapping/pipe.c:22-57 | no calls yet on an empty pipe |
| `Pipe.Calls.WriteStretch` | project-cow-page-swapping/pipe.c:77-98 | a woken writer goes on where it stopped, until it ends or the ring is full |
| `Pipe.Calls.ReadStretch` | project-cow-page-swapping/pipe.c:100-121 | a woken reader takes what there is of what it wants, fails if killed, or sleeps again |
| `Pipe.Calls.GoOn` | project-cow-page-swapping/pipe.c:77-121 | a process goes on with its own call, if it has been woken |
| `Pipe.Calls.Kill` | project-cow-page-swapping/proc.c:497-515 | only the killed process's call is woken |
| `Pipe.Calls.Close` | project-cow-page-swapping/pipe.c:59-75 | one end is closed, and exactly the sleepers at the other are woken |
| `Pipe.Calls.Step` | project-cow-page-swapping/pipe.c:59-121 | what each event does to every call and to the bytes |
| `Pipe.Calls.Interleave` | project-cow-page-swapping/pipe.c:59-121 | any interleaving of calls is a run of the events one after the other; each write that succeeds has all its bytes in the pipe in order, the reads together got exactly a front of them, every sleeper has something to wait for unless a write has failed and none has woken the readers since, and no reader sleeps beside bytes while the read end is open and no writer is killed |
| `Pipe.WhatCallsGot` | project-cow-page-swapping/pipe.c:77-121 | what the calls returned, in every state of every run |
| `Pipe.NoLostWakeup` | project-cow-page-swapping/pipe.c:77-121 | a sleeping writer waits for room and a sleeping reader for bytes, unless a write has put bytes in and failed and none has woken the readers since |
| `Pipe.NobodyKilled` | project-cow-page-swapping/pipe.c:86-92 | while the read end is open and no writer has been killed, no reader sleeps beside bytes |
| `Pipe.WentKeeps` | project-cow-page-swapping/pipe.c:77-121 | a call that goes on as far as it can keeps the invariant |
| `Pipe.HappensKeeps` | project-cow-page-swapping/pipe.c:59-121 | so does every event |
| `Pipe.RunKeeps` | project-cow-page-swapping/pipe.c:59-121 | so do all runs from an empty pipe |
| `Pipe.LeftAsleep` | project-cow-page-swapping/pipe.c:84-95 | an event that makes a write go on leaves a sleeping reader asleep beside bytes if and only if the write does not fit and its process is killed or the read end closed; no other event leaves one so that was not |
| `Pipe.LostExactly` | project-cow-page-swapping/pipe.c:84-95 | a run has a reader asleep beside bytes if and only if some such write goes on while a reader sleeps |
| `Pipe.NotBothAsleep` | project-cow-page-swapping/pipe.c:92-109 | a reader and a writer are never asleep together |
| `Pipe.ReaderLeftAsleep` | project-cow-page-swapping/pipe.c:86-92 | a run of three events from an empty pipe that leaves a reader asleep beside a full ring, since a killed writer returns without waking it |
| `Grep.StartsSplit` | project-cow-page-swapping/grep.c:84-96 | text starts with a word of a pattern exactly if it starts with a word of its first item and goes on with a word of the rest |
| `Grep.StartsOne` | project-cow-page-swapping/grep.c:93-94 | the same for a single character |
| `Grep.NothingLeft` | project-cow-page-swapping/grep.c:87-92 | what an exhausted pattern, with or without $, matches |
| `Grep.MatchHere` | project-cow-page-swapping/grep.c:84-96 | true if and only if text starts with a word of the pattern's language |
| `Grep.MatchStar` | project-cow-page-swapping/grep.c:98-106 | true if and only if text is a run of the character and then starts with a word of the rest |
| `Grep.Match` | project-cow-page-swapping/grep.c:72-82 | true if and only if the text is in the language that the pattern denotes |
| `Grep.PlainPatterns` | project-cow-page-swapping/grep.c:72-97 | a pattern of plain characters matches a text that it is a part of, with ^ a start, with $ an end, with both just itself |
| `Grep.DotAndStar` | project-cow-page-swapping/grep.c:85-107 | a dot is any one character, and a starred character any run of it |
| `ShGrammar.RoundTrip` | project-cow-page-swapping/sh.c:327-446 | parse(print(c)) == c for every tree with legal words and at most nine arguments |
| `ShGrammar.TokensRoundTrip` | project-cow-page-swapping/sh.c:327-446 | the same on tokens, for any words |
| `ShGrammar.LexShows` | project-cow-page-swapping/sh.c:265-308 | tokens written out are read back |
| `ShGrammar.LexShift` | project-cow-page-swapping/sh.c:265-308 | tokens do not depend on what comes before the cursor |
| `ShGrammar.LineReads` | project-cow-page-swapping/sh.c:344-359 | a line's tokens followed by its end mean that line |
| `ShGrammar.AmpReads` | project-cow-page-swapping/sh.c:349-353 | the same for a command with its ampersands |
| `ShGrammar.PipeReads` | project-cow-page-swapping/sh.c:361-372 | the same for a pipeline |
| `ShGrammar.AtomReads` | project-cow-page-swapping/sh.c:399-446 | the same for a simple command or a block, with redirections |
| `ShGrammar.RedirListReads` | project-cow-page-swapping/sh.c:374-397 | the same for redirections |
| `ShGrammar.LegalLine` | project-cow-page-swapping/sh.c:262-263 | a tree of legal words is written with legal tokens |
| `ShLines.LexWord` | project-cow-page-swapping/sh.c:265-310 | a word is any characters but space, tab, CR, newline, vertical tab, NUL and <, >, bar, &, ;, ( and ), up to the next of these |
| `ShLines.LexBlank` | project-cow-page-swapping/sh.c:273-274 | blanks before a token do not matter |
| `ShLines.LexSymbol` | project-cow-page-swapping/sh.c:278-297 | each of the seven symbols is a token, and two > are one |
| `ShLines.LexEnd` | project-cow-page-swapping/sh.c:279-280 | a line ends with its text or at a NUL |
| `ShLines.WordsAreOneCommand` | project-cow-page-swapping/sh.c:415-446 | words, however blanks separate them, are one command of just these words if they are at most nine, and panic otherwise |
| `ShLines.PlainLine` | project-cow-page-swapping/sh.c:415-446 | one to nine words with single spaces between and a newline are a command of just these words |
| `ShLines.TwoCommands` | project-cow-page-swapping/sh.c:344-372 | two words with a bar or a ; between and no blank are a pipe or a list of two commands |
| `ShLines.OneRedirection` | project-cow-page-swapping/sh.c:374-397 | two words with <, > or >> between and no blank are a command with a redirection |
| `ShLines.InParentheses` | project-cow-page-swapping/sh.c:399-413 | a word in parentheses is that command |
| `ShLines.InBackground` | project-cow-page-swapping/sh.c:350-353 | a word and & are that command in the background |
| `Sh.Parser.constructor` | project-cow-page-swapping/sh.c:327-333 | the cursor is at the start |
| `Sh.Parser.SkipSpace` | project-cow-page-swapping/sh.c:271-273 | skipping white space skips no token |
| `Sh.Parser.GetToken` | project-cow-page-swapping/sh.c:265-308 | takes exactly the next token, and the place of a word is exactly the word |
| `Sh.Parser.Peek` | project-cow-page-swapping/sh.c:310-320 | whether the next token begins with one of the characters, without taking it |
| `Sh.Parser.ParseRedirs` | project-cow-page-swapping/sh.c:374-397 | wraps the command in the redirections that the grammar reads, or panics as it does |
| `Sh.Parser.ParseBlock` | project-cow-page-swapping/sh.c:399-413 | the tree and the tokens left are the grammar's |
| `Sh.Parser.ParseExec` | project-cow-page-swapping/sh.c:415-446 | likewise, with its panics |
| `Sh.Parser.ParseWords` | project-cow-page-swapping/sh.c:431-445 | likewise, for the words of a simple command |
| `Sh.Parser.ParsePipe` | project-cow-page-swapping/sh.c:361-372 | likewise |
| `Sh.Parser.ParseLine` | project-cow-page-swapping/sh.c:344-359 | likewise |
| `Sh.Parser.ParseAmps` | project-cow-page-swapping/sh.c:350-353 | likewise, for ampersands |
| `Sh.ParseCmd` | project-cow-page-swapping/sh.c:327-339 | the parser ends on every line, with the tree the grammar gives or its panic |
| `Sh.NulTerminate` | project-cow-page-swapping/sh.c:448-493 | exactly the recorded ends of words become NUL |
| `Sh.WordFinal` | project-cow-page-swapping/sh.c:448-493 | a word whose end is marked reads as that word and no more, whatever other ends are marked |
| `Sh.TreeFinal` | project-cow-page-swapping/sh.c:448-493 | so every word of the tree reads as its token |
| `Sh.EndsAreOk` | project-cow-page-swapping/sh.c:448-493 | no recorded end lies inside a word |
| `Sh.ParseCommand` | project-cow-page-swapping/sh.c:327-342 | the tree in the finished buffer is the tree that the line means; a panic leaves the buffer alone |

## Left out

- Log.Log.EndOp: commits in the same call; that the log lock is dropped meanwhile, and other processes then find `committing` set, is in `LogCrash` instead.
- Log.Log.LogWrite: makes its size check and its append in one step; `LogCrash` has them as two, as the source does.
- LogCrash.CrashAtomicity: a block write is atomic, and the swap blocks, which are written without the log, do not appear in it; waiting in begin_op and its fairness are not modelled.
- Vm.Vm.Kalloc: an empty free list is a failure. The source calls swap_out there; eviction is modelled in `PageSwap`, for pages of a single owner.
- Vm.Vm.SetupKvm: counts and frees the kernel's page tables but leaves out what their entries say, and so do all the others; there is no guard page (clearpteu) and no TLB.
- Vm.Vm.InitUvm: says nothing about the machine when memory runs out, which the source does not notice; a program of a page or more panics there.
- Processes.Processes.DoFork: a process has one page directory; exec, which has two for a while, is not modelled, so that NPROC holders of a frame are always enough.
- Processes.Processes.DoGrow: a shrink to exactly 0 drops the pages but returns -1 and leaves the size, and a shrink below 0 wraps around and does nothing; both are kept as the code has them.
- Processes.Processes.DoStore: a write fault that finds no frame is reported as Starved, where the source would fault again and again; access to an unmapped page stops the run.
- Processes.Processes.Run: requests are atomic. Whether frames were enough for a request is part of the reference's input; that they were not is said only when frames are fewer than private copies and full sets of tables would need. The other frames of the kernel, and the two file structures of a pipe, are not modelled.
- Processes.Processes.UserInit: says nothing about the machine when memory runs out, which the source does not notice or panics on; the trap frame, name and directory are not modelled.
- FileSystem.FileSystem.Writei: files only, not devices; files have no holes to begin with. mkfs can leave one at the end of the root directory when it rounds its size up.
- FileSystem.FileSystem.BeginOp: only starts a new record of what is logged; admission and waiting are `Log.Log.BeginOp` and `LogCrash`.
- FileSystem.FileSystem.EndOp: only keeps that record; the commit is `Log.Log.EndOp` and `LogCrash`.
- FileSystem.FileSystem.Iupdate: type, major, minor and nlink are not modelled.
- FileSystem.FileSystem.constructor: is the disk before mkfs adds the root directory and files; directories, path names, ialloc, link counts and the inode cache are not modelled.
- FileSystem.FileSystem.Balloc: the bitmap's bits and the inodes on disk are fields of their own, packed into blocks only in `FsImage.Image`; indirect blocks alone are read as words. The panic "out of blocks" is the result 0.
- FsImage.ReadBack: on disks whose regions lie as mkfs lays them, with room for all inodes and bits (`FsLog.Layout`); of what mkfs puts elsewhere, and of an inode's type, device numbers and link count, nothing is said.
- FsCrash.OpsAreAtomic: what is read off the recovered disk is said when, besides, the log lies before the inodes, as mkfs lays it.
- FsCrash.RunIsAtomic: operations may overlap, but two that are open have logged different blocks. That two which change words of the same bitmap or inode block meanwhile are as if one followed the other, which the buffer locks are for, is not proved.
- File.OpenFile.Write: a negative count, for which the loop does nothing, is not modelled; no other process writes to the file between two chunks; permission to write and pipes are left to the caller.
- Umalloc.Allocator.Malloc: promises nothing when sbrk has given memory for another number of units than malloc records (`Umalloc.SbrkAsked`), since the heap then claims memory that it does not have; sbrk's answer is a parameter, above all that it gave before.
- SleepLock.MutualExclusion: one lock; taking a spinlock is one step, so its own loop, pushcli and popcli are not modelled, nor is fairness.
- ProcTable.ProcTable.AllocProc: the kernel stack, and its failure, are in `Processes.Processes.DoFork`.
- ProcTable.ProcTable.Wait: giving the kernel stack and the memory back is `Processes.Processes.DoReap`.
- ProcTable.ProcTable.ForkFail: the kernel stack is given back in `Processes.Processes.DoFork`. The slot keeps its pid and killed mark, as in the source (`ProcTable.BornKilled`).
- ProcTable.ProcTable.Exit: from taking the lock on; closing files and freeing memory come before and after. Pids do not run out.
- ProcTable.ProcTable.Run: an event that its process cannot be at is skipped; wait, sleep and wakeup hold the lock for the whole step.
- BufCache.Cache.Bget: stops before acquiresleep, which is `BufCache.Cache.Lock`; one disk, device 1.
- PageSwap.Swapper.Evict: the page is the caller's choice and has one owner. Victim choice, shared pages, page permissions, resident-set counts and the fate of slots when a process exits, shrinks or calls exec are not modelled.
- PageSwap.Swapper.FindSlot: a slot has one holder, and the permissions of its holders are not kept.
- PageSwap.Swapper.FaultIn: the frame is the caller's choice among spare ones; the source does not check kalloc's result.
- Pipe.Pipe.WriteOn: one stretch of a call, with the pipe's lock held; the calls as a whole are in `Pipe.Calls`, and how sleep and wakeup work in `SleepLock`. Not modelled: a kill between the test of `killed` and the sleep, after which the process sleeps on; and a negative count, for which the loops do nothing.
- Pipe.Calls.Close: an end may be closed while calls on it are pending, which file reference counts rule out; that a freed pipe is not used again is therefore not stated.
- Grep.Match: the loop that cuts input into lines is not modelled.
- Sh.ParseCommand: `>` and `>>` make the same node, as the source opens both files alike; runcmd and running out of memory are not modelled.
- Undo logging (lab2), the 90/10 scheduler (lab3), the page counters of lab4 and base, boot, traps, drivers and user utilities: not modelled.
