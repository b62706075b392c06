# Verified model of the BFS scheduler kernel

The repository is xv6, a small Unix kernel in C, with an earliest-virtual-deadline
scheduler (BFS) whose run queue is a skip list in an array.  This project models
the parts of it that have the most state and proves what they are for.  All sizes
(processes, levels, blocks, log entries, pages, pipe size) are parameters, so the
results hold for every configuration.

| files | what they model |
|---|---|
| `SkipList.dfy` | the run queue of `proc.c`: doubly linked chains in one node array, against a sorted list of entries |
| `Scheduler.dfy`, `Fairness.dfy`, `Lifecycle.dfy`, `ProcTable.dfy` | the process state machine of `proc.c` and `trap.c`, its runs, and the table that is updated in place |
| `BufferCache.dfy` | `bio.c`: the buffer ring and what a block reads as |
| `LogFormat.dfy`, `WriteAheadLog.dfy`, `LogProtocol.dfy`, `LogRuns.dfy` | `log.c`: crashes and recovery, commit over the cache, group commit, a run that fills the cache |
| `BlockCodec.dfy`, `Inodes.dfy`, `InodeLayer.dfy`, `FileBytes.dfy`, `FileIo.dfy` | `fs.c` and `file.c`: bitmap, block maps, files as byte sequences, log budget |
| `FileCrash.dfy` | `filewrite` over the log: what a crash leaves of a file |
| `FreeRing.dfy`, `Malloc.dfy` | `umalloc.c`: the heap of Kernighan and Ritchie, section 8.7 |
| `PageOwners.dfy`, `PageTables.dfy` | `vm.c` and `kalloc.c`: page tables over a pool of physical pages |
| `SleepLock.dfy` | `sleeplock.c` over `sleep`, `wakeup` and `kill`, one shared access at a time |
| `Pipe.dfy` | `pipe.c`: the ring with wrapping counters, and who sleeps on it |
| `ShellGrammar.dfy`, `ShellParser.dfy`, `ShellComplete.dfy`, `Shell.dfy` | `sh.c`: tokens, parser, `nulterminate` |
| `Grep.dfy` | the matcher of `grep.c` |
| `Arith.dfy`, `Counting.dfy` | arithmetic and finite sets |

State that the C code changes in place is a class over arrays (`SkipList`, `Machine`,
`Cache`, `Log`, `FileSystem`, `Heap`, `PageMemory`, `KernelPipe`).  Its invariant is a
predicate on snapshots of the arrays, its methods are proved against functions of the
old state, and the laws are lemmas about these functions.  `panic()` is a result, not a
precondition.  Concurrency is a transition system: `Scheduler`, `LogProtocol` and
`SleepLocks` range over all interleavings; in `Pipes` the lock is held from one sleep to
the next, so an interleaving is any sequence of calls.

## Where the code and its promises differ

- `bfs.h:4` is not parenthesised.  A deadline is `ticks + nice + 21*50`, while `proc.h:55-58`
  documents `ticks + (nice+21)*50`.  The scheduler is proved for any offset that is strictly
  increasing in the niceness and positive; `Scheduler.OffsetsOk` shows that both readings are
  such offsets.
- `proc.c:412-414` reads the first node before it tests the index; with an empty list the index is
  -1.  The model tests the index first.
- `log_write` tests the header against the size of the log on disk less one (`log.c:218`), and
  `mkfs.c:25` makes the log exactly LOGSIZE blocks.  An operation within its credit can hit that
  panic if and only if the log has fewer than LOGSIZE + 1 blocks (`LogProtocol.TestFiresIffLogShort`).
- That test is made before the lock is taken, so two operations can pass it for the same free
  entry.  The entries stay within the log on disk if and only if it has at least LOGSIZE + 1 blocks
  (or none for entries); with the log of `mkfs` they can outgrow it (`LogProtocol.OutgrowsIffLogShort`).
- The test also comes before the search for the block, so a full header stops an operation that
  logs again a block that is in it, whatever the length of the log (`LogProtocol.RewriteFires`).
- `param.h:11-12` makes NBUF equal to LOGSIZE.  A commit with no buffer in use succeeds if and only
  if it has logged fewer blocks than there are buffers (`WriteAheadLog.Log.EndOp`); otherwise every
  buffer is dirty and `bget` panics when the commit asks for one for the log.  With a log of
  LOGSIZE + 1 blocks such a commit is reached (`LogRuns.FullTransaction`, `LogRuns.LongerLog`), so
  with NBUF equal to LOGSIZE no length of the log avoids both panics (`LogProtocol.SafeSizes`).
- `recover_from_log` with entries in the log needs two buffers, and otherwise panics
  (`WriteAheadLog.Log.Recover`); the disk is still one from which a recovery gives the same result.
- `malloc` computes its size in 32 bits: the block has room for the request if and only if adding
  7 does not wrap (`Malloc.RoomIff`), and `morecore` asks `sbrk` for what it then claims if and
  only if that is below 2^31 bytes (`Malloc.AsksIff`, outcome `Overrun`).  `Malloc.WrappedRequest` and
  `Malloc.OverrunRequest` are requests where this goes wrong.
- A pipe whose size does not divide 2^32 mixes up bytes when its counters wrap
  (`Pipes.PlacesDifferIff`); 512 divides it.
- A writer that is killed while it waits for room leaves without waking the readers that went to
  sleep before it began (`pipe.c:86-89`).  `Pipes.KernelPipe.Write` says exactly when readers are
  left asleep although there are bytes, and `Pipes.KilledWriter` is such a case.
- A slot that `allocproc` gives back after a failed `kalloc` keeps its pid, and a recycled slot
  keeps `ticks_left`; so the first quantum of a process may be shorter than the others.

## Model

| member | source | states |
|---|---|---|
| SkipLists.SkipList.Init | proc.c:673-700 | the list becomes the sentinel alone: valid and empty |
| SkipLists.SkipList.FindFreeNode | proc.c:719-731 | the lowest-numbered node that is not in use, or -1 if and only if all are in use |
| SkipLists.SkipList.Insert | proc.c:734-826 | every level stays a doubly linked subsequence of the level below; the entry goes before all entries of equal or larger value; the lowest free node takes it on levels 0 to the drawn one, and the other nodes keep their levels; -1 exactly if all NPROC nodes are taken, and then the contents stay |
| SkipLists.SkipList.Search | proc.c:829-872 | finds a node if and only if the entry is in the list, and then the first one that has it |
| SkipLists.SkipList.Delete | proc.c:875-914 | takes out the first occurrence of the entry on all its levels and nothing else; 0 if and only if there is none |
| SkipLists.SkipList.BackNodes | proc.c:743-757 | the descent finds on every level in use the last node whose value is below the new one |
| SkipLists.SkipList.LinkLevels | proc.c:797-819 | after the linking loop every level up to the drawn one has the new node between the nodes below and above it, with backward links inverse to forward links |
| SkipLists.SkipList.UnlinkLevels | proc.c:892-906 | after the unlinking loop no level has the node, and each is still doubly linked |
| SkipLists.InsertedInv | proc.c:734-826 | linking a free node on levels 0 to its own keeps the invariant that ties all links of all levels to one order |
| SkipLists.RemovedInv | proc.c:875-914 | unlinking a node on its levels keeps that invariant |
| SkipLists.NodesInUse | proc.c:719-731 | no node is free exactly if the list holds NPROC entries |
| SkipLists.InsertedSorted | proc.c:734-826 | insertion keeps the list sorted by value |
| SkipLists.InsertedMultiset | proc.c:734-826 | insertion adds exactly the new entry |
| SkipLists.RemoveUndoesInsert | proc.c:734-914 | inserting an entry that was not there and deleting it again gives back the list |
| SkipLists.RemovedMultiset | proc.c:875-914 | deletion takes away exactly one occurrence |
| Scheduler.OffsetsOk | bfs.h:1-4 | both readings of the deadline macro satisfy what the scheduler results assume |
| Scheduler.PopulateOk | proc.c:387-409 | the scan of the table makes the queue hold exactly the RUNNABLE processes, once each and in deadline order; an insert never fails |
| Scheduler.ScheduleDispatches | proc.c:411-433 | a pass of the scheduler dispatches a RUNNABLE process of least deadline and leaves in the queue exactly the other RUNNABLE ones |
| Scheduler.ScheduleIdles | proc.c:387-414 | with nothing RUNNABLE the pass changes nothing and the queue is empty |
| Scheduler.StepInv | proc.c:81-633 | every step of every process and of the clock keeps: distinct pids, queue entries once each and only for RUNNABLE processes under their current deadline, 1 <= ticks_left <= quantum while running |
| Scheduler.RunInv | proc.c:81-633 | that invariant holds in every state of every run |
| Scheduler.EveryDispatch | proc.c:367-433 | on every run from boot each dispatch picks a RUNNABLE process of least deadline, and the scheduler idles only if there is none |
| Fairness.DeadlineChanges | proc.c:514-528 | a deadline changes only at creation or when the quantum expires, and then to the current tick plus the offset of the niceness |
| Fairness.ChargedUntilExpiry | trap.c:103-107 | up to the next expiry exactly the remaining ticks are charged, at most a quantum |
| Fairness.OneQuantumBetweenExpiries | trap.c:103-107 | between consecutive expiries exactly one quantum is charged |
| Fairness.RunnableStep | proc.c:366-610 | only its own dispatch takes a process off the RUNNABLE ones, and its deadline stays meanwhile |
| Fairness.BoundedWaiting | proc.c:366-434 | once every new deadline is later than that of a RUNNABLE process, at most (NPROC-1) quanta are charged to others before it is dispatched, on every run |
| Fairness.WaitingComes | proc.c:514-528 | that premise comes true when the clock has moved by more than the spread of the offsets |
| Fairness.NeverIdle | proc.c:366-434 | with a RUNNABLE process the next pass dispatches one of earliest deadline |
| Lifecycle.EveryChange | proc.c:81-633 | on every run each change of state and of every other field of a process is made by the one step that the life cycle names for it, and by no other |
| Lifecycle.Preempted | proc.c:514-528 | a process that yields or uses up its quantum is RUNNABLE and otherwise who it was, and the CPU is free |
| Lifecycle.LeavesCpu | proc.c:514-588 | the running process leaves the CPU for RUNNABLE exactly by yield or expiry, for SLEEPING exactly by sleep, for ZOMBIE exactly by exit |
| Lifecycle.SleepsUntilWoken | proc.c:553-610 | on every run a process that sleeps on a channel sleeps on it until the first wakeup of that channel, tick, kill of its slot or exit that wakes it, and that step makes it RUNNABLE; a wakeup of another channel does not |
| Lifecycle.ExitLeaves | proc.c:281-297 | after exit the process is a ZOMBIE, no slot has it as parent, its children are init's, and a parent asleep in wait is RUNNABLE, as is init if it is handed a child that has exited |
| Lifecycle.RunsAgain | proc.c:366-434 | a RUNNABLE process that is not dispatched: once the clock has passed the spread of the offsets, at most (NPROC-1) quanta are charged to others |
| Lifecycle.PreemptedRunsAgain | proc.c:366-528 | so a preempted process is dispatched again within that bound |
| Lifecycle.WokenRunsAgain | proc.c:366-610 | and so is a sleeper, from the first step that wakes it |
| Lifecycle.NoOrphans | proc.c:204-299 | on every run from boot every process that has a parent has a live one, or init |
| Lifecycle.WaitMissesNone | proc.c:258-343 | on every run from boot nobody sleeps in wait beside a child that has exited |
| ProcTable.Machine.constructor | proc.c:31-34 | the boot state |
| ProcTable.Machine.SchedulerPass | proc.c:367-433 | the pass over the real table and skip list is the scheduler step of the transition system |
| ProcTable.Machine.ScanTable | proc.c:387-409 | the scan leaves in the skip list what the abstract scan gives |
| ProcTable.Machine.SysYield | proc.c:514-528 | yield is its step: the caller is RUNNABLE, with a new deadline if and only if no ticks are left, and no other slot changes |
| ProcTable.Machine.Sleep | proc.c:553-588 | sleep is its step: the caller is SLEEPING on the channel, and no other slot changes |
| ProcTable.Machine.Wakeup | proc.c:593-610 | wakeup makes RUNNABLE exactly the processes asleep on the channel |
| ProcTable.Machine.Kill | proc.c:615-633 | the first slot with the pid is marked killed and woken; -1 if and only if there is none |
| ProcTable.Machine.Exit | proc.c:258-299 | exit wakes the parent, passes its children to init, wakes init for a zombie among them, and becomes a ZOMBIE that is nobody's parent; init cannot exit |
| ProcTable.Machine.WaitScan | proc.c:303-343 | collects one exited child of the caller, or says that there is none, or no child at all |
| ProcTable.Machine.AllocSlot | proc.c:86-99 | the first UNUSED slot gets the next pid; -1 if and only if there is none |
| ProcTable.Machine.NiceFork | proc.c:204-253 | the first UNUSED slot becomes a RUNNABLE process under its niceness and deadline with the next pid; -1 if and only if the niceness is out of range, there is no slot, or no memory for stack or copy; a slot that is given back is UNUSED with the pid left in it, and no other slot changes |
| ProcTable.Machine.TimerInterrupt | trap.c:49-112 | the clock moves, sleepers on it wake, and the running process is charged a tick and is RUNNABLE with the CPU free if and only if that was its last one |
| BufferCache.Cache.constructor | bio.c:38-56 | an empty cache is consistent and every block reads as on disk |
| BufferCache.Cache.Lookup | bio.c:66-76 | the walk forward finds the buffer of the block if and only if there is one |
| BufferCache.Cache.Victim | bio.c:78-92 | the walk backward finds the least recently used buffer that is neither in use nor dirty, or none if and only if all are |
| BufferCache.Cache.Bget | bio.c:61-93 | the cached buffer, or the least recently used one that can be recycled, with one more reference; panics if and only if the block is not cached and every buffer is busy; a block never gets two buffers; the caller has the lock if and only if nobody else had it, and otherwise waits |
| BufferCache.Cache.Iderw | memide.c:38-60 | a dirty buffer is written, an invalid one read; the disk changes in that one block |
| BufferCache.Cache.Bread | bio.c:96-106 | the buffer has the logical contents of the block; contents, disk and dirty blocks are unchanged; panics if and only if no buffer can be recycled and the block is neither dirty nor in use; waits if and only if somebody else holds the buffer |
| BufferCache.Cache.Resume | bio.c:96-106 | a caller that waited then has the buffer with the logical contents of the block, and nothing else changed |
| BufferCache.Cache.FreeBuffers | bio.c:82-92 | with no buffer in use, all but as many as there are dirty blocks can be recycled |
| BufferCache.Cache.Bwrite | bio.c:109-116 | the block on disk becomes the buffer's data, as one atomic disk write, and the buffer is clean |
| BufferCache.Cache.Brelse | bio.c:120-141 | a last release moves the buffer to the front of the ring and leaves the order of the others; the ring stays a permutation of all buffers and what blocks read as is unchanged |
| BufferCache.Cache.MoveToFront | bio.c:130-138 | the pointer surgery keeps a doubly linked ring of all buffers with this one in front and the others in their order |
| BufferCache.Cache.MarkDirty | log.c:231 | the block now reads as the buffer and cannot be recycled |
| BufferCache.CircleJoins | bio.c:134-137 | linking a buffer in behind the head keeps the ring circular in both directions |
| BufferCache.Cache.AllClean | bio.c:96-106 | with no dirty buffer every block reads as on disk |
| LogFormat.CrashAtomicity | log.c:69-122 | stop after any number of commit's disk writes, then any number of recoveries each cut off anywhere, then one that finishes: the home blocks are the old ones if the header was not yet written, else the old ones with the whole transaction |
| LogFormat.CommitStateRecovers | log.c:177-202 | the same for one recovery |
| LogFormat.RecoverAgain | log.c:69-122 | a recovery cut off anywhere and started again gives what it would have given |
| LogFormat.RecoverChain | log.c:69-122 | so does any chain of recoveries that are cut off |
| LogFormat.CommitInstalls | log.c:177-202 | the disk writes of a commit after its header write are those of install_trans on the committed disk |
| LogFormat.CommitAtomic | log.c:177-202 | every disk that a commit leaves recovers to the old home blocks before the header write and to the new ones from then on |
| LogFormat.HistoryGrows | log.c:177-202 | a commit extends a history in which every disk write of a run recovers to the transaction it belongs to, and transactions are never undone or skipped |
| LogFormat.CrashAnywhere | log.c:69-202 | stop after any disk write of any run of transactions, then any number of recoveries each cut off anywhere, then one that finishes: the home blocks are those of the transaction to which the write belongs |
| WriteAheadLog.Log.WriteLog | log.c:177-190 | the logged blocks are copied from the cache into the log, one disk write each, in order; with all of them dirty it fails if and only if nothing can be recycled, and then at once |
| WriteAheadLog.Log.WriteHead | log.c:101-113 | the header block on disk gets the count and the block numbers; fails if and only if nothing can be recycled |
| WriteAheadLog.Log.InstallTrans | log.c:69-82 | the logged blocks are copied to their homes, one disk write each, and are clean afterwards |
| WriteAheadLog.Log.Commit | log.c:192-202 | the disk goes through exactly the states that crash atomicity is proved for; with the logged blocks dirty it succeeds if and only if nothing is logged or a buffer can be recycled, and otherwise writes nothing |
| WriteAheadLog.Log.ReadHead | log.c:85-96 | the entries in memory become those of the header block |
| WriteAheadLog.Log.Recover | log.c:115-122 | each disk state on the way is one from which recovery can start again; at the end the disk is the recovered one; with no buffer in use it succeeds if and only if the log is empty or there are two buffers |
| WriteAheadLog.Log.Initlog | log.c:53-66 | after recovery the log invariant holds: log on disk empty, dirty blocks exactly those in the header, header entries distinct and outside the log, reservations within LOGSIZE, and every disk write recoverable |
| WriteAheadLog.Log.CrashRecovers | log.c:69-202 | in every state with that invariant, a crash after any disk write since boot recovers to the transaction to which the write belongs |
| WriteAheadLog.Log.QuietRecovers | log.c:69-202 | a crash between transactions recovers to the last one |
| WriteAheadLog.Log.LogWrite | log.c:213-233 | panics if and only if the header is full, the log is full or no operation is in progress; else the block is in the header once and dirty; keeps the log invariant and is the two steps of the protocol; never panics for an operation within its credit on a log of full length |
| WriteAheadLog.Log.TryBegin | log.c:125-141 | keeps the log invariant and is the step of the protocol: entries and all credits, with a whole one for the new operation, fit into the header; it waits only while another operation or a commit is in progress, unless one credit exceeds LOGSIZE |
| WriteAheadLog.Log.EndOp | log.c:145-174 | keeps the log invariant and is the step of the protocol; an operation that is not the last leaves cache and disk alone; the last one commits: it fails if and only if blocks are logged and no buffer can be recycled (with no buffer in use: if and only if all buffers hold logged blocks), writing nothing then; else everything reads the same from disk; every disk on the way recovers to the state before or after, decided by the header write |
| WriteAheadLog.Log.Modify | log.c:204-212 | the documented use of log_write, from bread to brelse, keeps the log invariant; it fails if and only if bread or log_write does |
| LogRuns.FullTransaction | log.c:145-202 | on a log of full length over as many buffers as LOGSIZE, operations that use up their credits end in a commit that panics, with nothing written |
| LogRuns.LongerLog | param.h:10-12 | the same from boot with the sizes of param.h |
| LogProtocol.StepInv | log.c:125-233 | every step of every interleaving keeps: committing implies no operation in progress, no entries between transactions, distinct header entries, entries plus unused credit at most LOGSIZE |
| LogProtocol.RunInv | log.c:125-233 | on every run |
| LogProtocol.CommitIsolated | log.c:145-202 | while a commit runs nothing is in progress and no other step is possible that changes the header |
| LogProtocol.RoomToLog | log.c:213-233 | an operation within its credit always finds room in the header |
| LogProtocol.TestFiresIffLogShort | log.c:218 | log_write's size test can fire on such an operation if and only if the log on disk has fewer than LOGSIZE + 1 blocks |
| LogProtocol.RewriteFires | log.c:218-230 | it can fire on an operation that logs a block of the header again, whatever the length of the log |
| LogProtocol.OutgrowsIffLogShort | log.c:218-230 | on every run the entries stay within the log on disk if and only if it has at least LOGSIZE + 1 blocks, or none for entries |
| LogProtocol.CommitHasBufferIff | log.c:192-202 | with a log of that length, on every run a commit starts with fewer entries than buffers if and only if there are more than LOGSIZE buffers |
| LogProtocol.SafeSizes | param.h:10-12 | neither panic can happen if and only if the log has at least LOGSIZE + 1 blocks and the cache more than LOGSIZE buffers |
| BlockCodec.WordSet | fs.c:391-394 | writing an entry of an indirect block changes that entry only |
| BlockCodec.BitSet | fs.c:66-68 | setting a clear bit changes that bit only |
| BlockCodec.BitCleared | fs.c:88-92 | clearing a set bit changes that bit only |
| Inodes.MarkUsed | fs.c:66-68 | exactly one block of the bitmap becomes used |
| Inodes.MarkFree | fs.c:88-92 | exactly one block of the bitmap becomes free |
| Inodes.TakeBlock | fs.c:55-78 | balloc never hands out a block that belongs to metadata, to a file or to somebody else |
| Inodes.FreeBlock | fs.c:80-95 | bfree of a block that was given up finds its bit set |
| Inodes.WriteBlock | fs.c:499-503 | writing a data block changes no slot of any inode |
| Inodes.ContentsKept | fs.c:452-511 | a file without holes whose slots and data blocks stay keeps its bytes |
| InodeLayer.FileSystem.FindFree | fs.c:62-76 | the lowest free block, or -1 if and only if all are used |
| InodeLayer.FileSystem.Balloc | fs.c:55-78 | the lowest free block, marked and zeroed; panics if and only if none is free; the bitmap, owners and free blocks change by that block |
| InodeLayer.FileSystem.Bfree | fs.c:80-95 | clears the bit; panics if and only if the block is free |
| InodeLayer.FileSystem.Bmap | fs.c:371-400 | the block of the slot, allocated with its indirect block if missing; panics if and only if the slot is out of range or too few blocks are free; every file keeps its bytes, used blocks stay exactly metadata and owned ones, every changed block is logged |
| InodeLayer.FileSystem.Itrunc | fs.c:407-435 | all blocks of the file and no others become free, the inode is empty in memory and on disk, other files are untouched, "freeing free block" cannot happen, every changed block is logged, and at most one block more than the bitmap has |
| InodeLayer.FileSystem.Iupdate | fs.c:220-236 | the inode is in its entry of its block of the inode area, that block is logged, and no other entry of it and no other block of the area changes |
| FileBytes.WroteStep | fs.c:498-504 | copying to one block puts exactly these bytes into the file |
| FileBytes.ProgressWritten | fs.c:498-504 | an iteration of writei keeps ownership, other files, free blocks and slots, and extends what is written |
| FileBytes.ProgressEnd | fs.c:506-509 | at the end the file is the old one with src spliced in at off, without holes |
| FileBytes.NeededStep | fs.c:371-400 | the blocks a write needs are those of its first slot and those of the rest |
| FileIo.Readi | fs.c:452-476 | returns exactly the bytes from off, clipped to the size; -1 for off past the end or a wrapping range; allocates, logs and changes nothing |
| FileIo.Writei | fs.c:481-511 | the result is decided by the arguments and the free blocks; on success the contents are old[..off] + src + old[off+n..], other files keep theirs, no holes, disk inodes equal memory inodes, every changed block is logged and the number of logged blocks is bounded |
| FileIo.ChunkFits | file.c:127-139 | a chunk of filewrite logs at most MAXOPBLOCKS blocks, even with each allocation in another bitmap block |
| FileIo.ChunkLargest | file.c:127-133 | the chunk is the largest number of blocks that leaves four of the transaction |
| FileIo.Filewrite | file.c:117-156 | the chunks write the bytes in order, each as one transaction within the budget, with the states between them; what is written is the whole range or, past the largest file size, the whole chunks that fit; panics if and only if the free blocks do not cover that; -1 if and only if not everything was written |
| FileIo.NeededSplit | file.c:127-152 | what a write needs in all is what its first chunk takes and what the rest then needs |
| FileIo.FitStep | file.c:128-152 | a chunk is written whole if and only if it is among the bytes that fit |
| FileCrash.TransactionCrash | log.c:69-202 | a crash in the commit of a transaction of the file system leaves, after recovery, the disk before or after it, inodes included |
| FileCrash.FilewriteCrash | file.c:117-156 | a crash in the commit of any chunk leaves the old file with the first chunks of the data, whole ones, and every other file as it was |
| Malloc.Heap.Place | umalloc.c:30-32 | the search of free ends, at the free block just below the freed one |
| Malloc.Heap.Free | umalloc.c:24-44 | the units of the block go back to the pool, everything else of the program stays and is not written, total units are unchanged, the ring stays sorted without adjacent blocks; the next search starts at the free block below |
| Malloc.Freed | umalloc.c:33-43 | linking in and joining with both neighbours keeps the ring address-sorted, blocks disjoint, no two free blocks adjacent, and every unit in exactly one block |
| Malloc.Search | umalloc.c:74-88 | the walk from freep ends, and finds a block if and only if some free block is large enough, the first one behind freep |
| Malloc.Heap.Take | umalloc.c:75-85 | the program gets units of the pool, exactly as many as asked for, from the whole block or its end, and the next search starts at the block before |
| Malloc.Heap.Morecore | umalloc.c:46-61 | the new units join the pool, after which a large enough block exists; fails if and only if sbrk refuses |
| Malloc.Heap.Malloc | umalloc.c:63-90 | a block disjoint from all allocated ones, or 0 if and only if nothing fits and sbrk refuses; morecore is called if and only if nothing fits, once; no unit of the program is written; if sbrk is asked for another amount than the header is to say, the heap is as it was |
| Malloc.RoomIff | umalloc.c:69 | the block has room for the request if and only if the size computation does not wrap |
| Malloc.LeastUnits | umalloc.c:69 | where nothing wraps it is the smallest block with room |
| Malloc.AsksIff | umalloc.c:52-58 | sbrk is asked for what the header then says if and only if that is below 2^31 bytes |
| Malloc.WrappedRequest | umalloc.c:69 | a request that wraps to a block without room |
| Malloc.OverrunRequest | umalloc.c:52-58 | a request for which sbrk is asked to give memory back |
| FreeRing.Disjoint | umalloc.c:24-90 | blocks, free or allocated, do not overlap |
| FreeRing.Coalesce | umalloc.c:33-42 | joining adjacent free blocks keeps the heap invariant |
| FreeRing.TakePart | umalloc.c:79-81 | splitting a free block keeps the heap invariant |
| PageTables.PageMemory.constructor | kalloc.c:31-54 | the pool is the pages that freerange gave away, all free and in no page table |
| PageTables.PageMemory.Kalloc | kalloc.c:83-96 | the first page of the free list, or 0 if and only if it is empty |
| PageTables.PageMemory.Kfree | kalloc.c:60-78 | the page goes back to the pool; no page in use changes |
| PageTables.PageMemory.Walk | vm.c:35-55 | the table of the directory entry, made empty if missing, with the entry writable and for the user; 0 if and only if it is missing and not to be made or no page is free; no mapping changes |
| PageTables.PageMemory.MapOne | vm.c:69-73 | one entry is set; "remap" if and only if it was present; fails if and only if a table is missing and no page is free |
| PageTables.PageMemory.MapKernel | vm.c:60-80 | a row of kmap is mapped, with exactly the tables it needs; no remap |
| PageTables.PageMemory.Setupkvm | vm.c:118-136 | a new page table with every row of kmap mapped page by page and nothing else; fails if and only if there are too few pages, and then all are back |
| PageTables.PageMemory.Deallocuvm | vm.c:255-279 | every page between the sizes is unmapped and free, also across skipped directory entries; other mappings, contents and page tables stay |
| PageTables.PageMemory.Freevm | vm.c:283-298 | exactly the pages of the page table go back to the pool |
| PageTables.PageMemory.Allocuvm | vm.c:221-249 | zeroed pages of its own for the new range, which the user can write through both levels, if and only if nothing in it is mapped and there are enough pages for them and their tables; "remap" if and only if a page is mapped and there are pages for those below it and one more; otherwise 0 with the range unmapped, and where it had no mappings, mappings and contents as before |
| PageTables.FirstMappedIs | vm.c:71-72 | the page where "remap" would happen is the end of the range if and only if nothing in it is mapped |
| PageTables.PageMemory.Copyuvm | vm.c:315-345 | the same access through both levels and the same contents in other pages for every page below the size, the parent unchanged; no copy if and only if there are too few pages, and then all are back; panics only if a page is not mapped |
| PageTables.AccessIs | vm.c:48-52 | in every consistent state the user can read or write a page if and only if its table entry says so, as every present directory entry lets the user do both |
| PageTables.ClearedSkip | vm.c:266-268 | an absent directory entry has no mapped page, so skipping it misses none |
| PageTables.RolledBack | vm.c:233-246 | what deallocuvm undoes is what allocuvm had mapped, and whatever else the range had |
| PageTables.GrewShrunk | vm.c:233-246 | after giving up, all old pages are owned as before and keep their contents |
| PageTables.NewTablesStep | vm.c:221-249 | pages that a range still needs, one page at a time |
| PageTables.PtOther | vm.c:315-345 | changes to one page table are not seen through another |
| PageOwners.NewTable | vm.c:44-52 | every page stays in exactly one place: free list, directory, table or user page |
| PageOwners.DropPage | vm.c:269-276 | clearing a user entry gives up exactly that page |
| PageOwners.DropDir | vm.c:283-298 | giving up a directory gives up exactly its pages |
| PageOwners.EntryChanged | vm.c:35-80 | changing an entry of one table changes what is held at no other place of any page table |
| SleepLocks.StepInv | sleeplock.c:22-42 | every step of every process, and kill at any time, keeps who holds which lock, who sleeps and who will be woken |
| SleepLocks.RunInv | sleeplock.c:22-42 | on every run of any number of processes |
| SleepLocks.MutualExclusion | sleeplock.c:22-42 | at most one process has the sleep lock, and lk->pid is its pid |
| SleepLocks.NoLostWakeup | proc.c:553-610 | when the lock is free and no releaser is before the end of its wakeup, no process sleeps on it |
| SleepLocks.NotStuck | sleeplock.c:22-42 | when the lock is free, a process inside acquiresleep or releasesleep is never stuck: some such process can take a step |
| SleepLocks.HoldingIff | sleeplock.c:44-53 | holdingsleep is true exactly for the process that has the lock |
| SleepLocks.CallGivesAndTakesLock | sleeplock.c:22-42 | on every run, between a call of acquiresleep and the next time its process is outside again, the process had the lock with `locked` and its pid set, and after that cleared `locked` itself |
| SleepLocks.AcquireGivesLock | sleeplock.c:22-32 | acquiresleep ends only with the lock |
| SleepLocks.TestedBefore | sleeplock.c:26-29 | a process that slept, or did anything else, has found `locked` clear since, in the step before it takes the lock |
| SleepLocks.FreePid | sleeplock.c:34-42 | a free lock has pid 0 |
| SleepLocks.RunChans | proc.c:575-581 | p->chan is the lock exactly while its process is inside sleep on it |
| SleepLocks.KillWakes | proc.c:615-633 | kill lets a sleeper go on and changes nothing else |
| Pipes.PlacesDifferIff | pipe.c:93 | unread bytes have different places for all counter values if and only if PIPESIZE divides 2^32 |
| Pipes.Tests | pipe.c:85 | the full and empty tests are right although the counters wrap, and nwrite - nread modulo 2^32 is the number of unread bytes, at most PIPESIZE |
| Pipes.KernelPipe.Write | pipe.c:78-98 | accepts the bytes in order until it is done, or the pipe is full and it sleeps or gives up; bytes read are always a prefix of bytes accepted; readers are left asleep beside unread bytes if and only if a killed writer gave up after filling an empty pipe |
| Pipes.KernelPipe.Read | pipe.c:100-121 | returns the next accepted bytes, as many as asked for or all there are; for a positive length none only if the pipe is empty and its write end closed; sleeps only on an empty open pipe and wakes all writers otherwise |
| Pipes.KernelPipe.Close | pipe.c:59-75 | nobody sleeps on an end that was closed |
| Pipes.KilledWriter | pipe.c:85-92 | a reader asleep beside unread bytes |
| Pipes.PutOk | pipe.c:93 | a byte goes to a place that no unread byte has |
| Shell.GetToken | sh.c:265-308 | the first token of the rest of the line, its span for a word, and a cursor behind it; NUL if and only if none is left |
| ShellGrammar.LexSpells | sh.c:265-308 | the tokens spell the line, white space aside |
| ShellGrammar.LongestTokens | sh.c:265-308 | tokens are as long as they can be, and a token is a word if and only if it starts with a word character |
| Shell.Peek | sh.c:310-320 | skips white space and says whether the next character is one of the given |
| Shell.ParseRedirs | sh.c:374-397 | agrees with the token parser, with the cursor behind what it took |
| Shell.ParseExec | sh.c:415-446 | agrees with the token parser; terminates by remaining length and rank |
| Shell.ParseBlock | sh.c:399-413 | agrees with the token parser |
| Shell.ParsePipe | sh.c:361-372 | agrees with the token parser |
| Shell.ParseLine | sh.c:344-359 | agrees with the token parser |
| Shell.NulTerminate | sh.c:448-493 | a NUL at the end of every word of the tree and no other change |
| Shell.ReadsBack | sh.c:448-493 | every argument and file name of the tree then reads back as exactly its token |
| Shell.ParseCmd | sh.c:327-342 | succeeds if and only if the grammar gives the line a tree without too many words in a command; then it returns that tree, whose words are C strings in the buffer; otherwise the buffer is unchanged |
| ShellParser.LineSound | sh.c:344-446 | a tree that the parser finds is one that the grammar gives to the tokens it took |
| ShellComplete.LineComplete | sh.c:344-446 | the parser finds every tree of the grammar within the limit on words |
| ShellComplete.ParsesIff | sh.c:344-446 | so it accepts a line with a tree exactly if the grammar gives it that tree and no command has MAXARGS words |
| ShellComplete.Unambiguous | sh.c:344-446 | a line has at most one tree |
| Grep.MatchHere | grep.c:84-96 | true exactly if the pattern matches at the beginning of the text |
| Grep.MatchStar | grep.c:98-106 | true exactly if c* and the pattern match there |
| Grep.Match | grep.c:72-82 | true exactly if the text has a match under the declarative meaning of literals, ".", c*, leading "^" and final "$" |
| Grep.HereOne | grep.c:93-94 | an ordinary character matches one character that fits and leaves the rest to the rest |
| Grep.HereStar | grep.c:98-106 | a starred character matches if and only if some run of characters that fit leaves the rest to the rest |

## Left out

- Assembly, boot, context switch, segments, device drivers and interrupt routing: `swtch` is a step of the transition system and `iderw` the in-memory disk of `memide.c`.
- Spin locks: `acquire` and `release` are atomic, memory order is not modelled.
- More than one CPU in `Scheduler`: the Makefile runs one by default, and `initSkipList` is called once.
- The random level of a new skip-list node: any level below the maximum, so the results hold for every draw; `maxlevel` copied to the process and all scheduler output are not modelled.
- Overflow of `ticks`, pids and deadlines.
- `p->chan = 0` after a sleep in `Scheduler`: a process that is not SLEEPING keeps its old channel, which nothing reads; `SleepLocks` has that step.
- Lifecycle.NoOrphans: processes are created by `fork`, or without a parent as `userinit` does.
- Lifecycle.WaitMissesNone: only `wait` sleeps on a process, after its scan under the same lock.
- Readers of the cache while a commit runs: `Log` runs one operation at a time, interleavings of operations are in `LogProtocol`.
- The byte layout of the log header and of inodes on disk; that a header block has room for the log is assumed in `Fits`.
- BufferCache.Cache.Bread: the wait for a buffer that somebody else holds is `acquiresleep`, which is in `SleepLocks`; `Resume` is what follows it.
- WriteAheadLog.Log.Commit: nobody uses a buffer of the log, which only `log.c` does, or holds one of a logged block while it runs, as operations have ended and released theirs.
- FileIo.Writei: it starts from a consistent file system without holes, which it keeps; that mkfs makes one is assumed.
- Directories, path names, the inode cache and its reference counts, system calls and `exec`: plumbing around the modelled layers.
- FileCrash.FilewriteCrash: each chunk is a transaction of its own; chunks that share one with other operations are covered by `WriteAheadLog.Log.EndOp`, for the blocks and not for the file.
- FileIo.Filewrite: files only; what a device's write function returns is a parameter of `Writei`, and pipes are in `Pipes`.
- Malloc.Heap.Malloc: `sbrk` gives addresses above `base` and all earlier ones, in whole units, so a program that shrinks its memory or calls `sbrk` with odd amounts is not covered; `Overrun` is where the model stops.
- Malloc.Heap.Free: a pointer that `malloc` did not give is not covered.
- PageTables.PageMemory.Setupkvm: `kmap` is any list of rows in the kernel half that do not overlap; the test of PHYSTOP against DEVSPACE is part of that.
- `inituvm`, `loaduvm`, `clearpteu`, `copyout` and the segment registers: easy members beside the ones above.
- SleepLocks.NotStuck: no fairness; a process may wait for ever if others always take the lock first.
- Running commands (`runcmd`), reading lines, `cd`, and grep's read buffer: input and output.
