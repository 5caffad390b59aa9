# xv6 and the integration assignment, modelled and proved in Dafny

This project models the hardest parts of the xv6 kernel and user programs in `lab10xv6/xv6`, and the threaded
integration of `assignment`, and proves what they promise. `dafny verify dfyconfig.toml` checks everything.

## What is modelled

- **The write-ahead log** (`log.c` over `bio.c` and `memide.c`). `LogMachine` is a machine of atomic steps: one block
  write is one step, clients, the committer, cache eviction and crashes interleave freely, and a crash may come at any
  moment, inside recovery too; the guard of `log_write`, tested without `log.lock`, is a step apart from the append.
  `LogInvariant` proves that each step keeps the invariant, `LogTheorems` what follows for whole runs, `LogSpace` how
  many entries per operation are safe. `LogCode` is the code, over a disk that keeps the image behind every
  single write: each image is the disk of the machine after some of its steps (`LogCode.Log.EveryImageIsAtomic`).
  `CachedLog` joins the machine with the real buffer cache: each call of the cache, made as the log and its clients make
  it, is one step of the machine or shows in nothing.
- **The buffer cache** (`bio.c`, `sleeplock.c`). `Bio` relinks the LRU ring as the code does. Each method is a stretch
  between two lock operations, so sequences of calls are interleavings of processes. The cache and the disk together
  stand for one array of blocks, which only a store by a lock holder changes.
- **Files** (`fs.c`, `file.c`). `FsLayout` has bytes, little-endian words, dinodes and bitmap bits; `FsInvariant` says
  that each data block is free or owned by one place, and that an entry has an address exactly when the size reaches
  it; `FsContents` treats a file as a byte string; `FsFree` counts the free blocks, so that running out of them is exact;
  `FsCode` is `balloc` to `filewrite`. The disk here is the latest
  contents of all blocks, which is what the log gives its clients (`LogTheorems.ViewIsLatest`). Every store
  goes through one method that notes the block, so the bounds on a transaction are about all blocks that change. A
  transaction of at most 7 blocks, as `Filewrite` proves for a disk with one bitmap block, meets the limit of
  MAXOPBLOCKS - 1 under which `LogSpace.TransactionNeverTooBig` shows the log guard silent. `FsCrash` joins the two
  (`FsCrash.FilesAfterAnyCrash`): after a crash at any moment and recovery, all files are as some whole number of
  transactions left them.
- **The user heap** (`umalloc.c`): `UMalloc`, an address-ordered circular free list over memory words.
- **Page tables** (`vm.c`, `kalloc.c`): `VmModel`, `VmSteps`, `VmSpaces`, `VmBytes`, `VmAccess` (what the processor
  allows through both levels), `VmMemory` (how many pages each call takes, so that success and failure are exact) and
  `VmCode`. A map from pages to
  uses, whose domain never changes, says that every page is free, a directory, a table, a user page or held, and only
  one of these.
- **Pipes and processes** (`pipe.c`, `proc.c`): `Pipe` has any number of readers and writers over the wrapping
  counters, with sleep split where another thread can come in; `Proc` has the process table, several CPUs, their scans
  of it, and `ptable.lock` carried across `swtch`.
- **The shell parser** (`sh.c`): `ShellGrammar` (tokens, then commands), `ShellForms` (the same commands by a declarative
  grammar, which the parser meets exactly), `ShellRoundTrip` (lines of text) and `ShellCode`.
- **The regular-expression matcher** (`grep.c`): `Grep`. **The integral** (`thread.c` against `serial.c`): `Integral`,
  over exact reals.

A panic is an outcome (`Outcome.Panic`, or a flag), so that each can be shown unreachable or given its exact condition.

## Where the code does less than it promises

- The guard of `log_write` fires at `log.size - 1` entries and mkfs makes the log LOGSIZE blocks, so three operations
  that use all of their reservation are refused (`LogSpace.FullReservationsReachTheGuard`), although `begin_op` lets
  them in. Worse, `log.c:218-221` tests the guard before `acquire` at line 223: two operations can pass it together with
  28 entries listed, and the second append then has no block of the log (`LogSpace.Race`); `write_log` overwrites the
  block behind the log, before the commit (`LogSpace.OverrunBreaksAtomicity`). All runs are safe exactly if no operation
  adds more than MAXOPBLOCKS - 1 entries (`LogSpace.SafeExactly`), and then crash atomicity has no other condition
  (`LogSpace.CrashAtomicity`).
- `pipewrite` returns without a wakeup when it is killed on a full pipe, so a reader can sleep on beside a full pipe
  (`Pipe.KilledWriterStrandsReader`). `WriteGiveUp` states exactly when; the next wakeup of the readers mends it
  (`WriteEnd`, `WritePark`), and while nobody has been killed no wakeup is lost (`Pipe.SharedPipe.WaitersHaveReason`).
- `malloc` wraps for huge requests (`UMalloc.HugeRequestWraps`), and below those asks sbrk for the wrong amount; it is
  right exactly up to 2^31 - 16 bytes (`UMalloc.RequestFits`).
- `kill` searches UNUSED entries too, and the mark stays when the entry is used again: kill(0), or the pid of a fork that
  failed, kills a process that does not exist yet (`Proc.KilledBeforeBirth`; `Proc.Ptable.Kill` has the condition).
- A slice with no steps divides by 0, exactly when numSteps < THREADS (`Integral.SlicesHaveSteps`).
- `mkfs.c:158-163` makes the size of the root directory the next multiple of BSIZE above it, even if it is one already.
  The directory then has the blocks that its size says exactly if the size was not a multiple
  (`FsCode.RootSizeRounded`; `FsCode.AlignedRootBreaks` is the input). The invariant of `FsCode` is a precondition on
  the image.

## Model

| member | source | states |
|---|---|---|
| LogTheorems.CrashAtomicity | lab10xv6/xv6/log.c:68-202 | after any run of any interleaving, crashes included, in which no append overruns the log, recovering from the disk as it stands leaves every home block exactly as a prefix of the logged updates made it; that prefix has each operation whole or not at all and none that is still running |
| LogSpace.CrashAtomicity | lab10xv6/xv6/log.c:68-233 | the same for every interleaving, the guard of log_write tested outside of log.lock, with no more said of the run than that each operation adds at most MAXOPBLOCKS - 1 entries |
| LogSpace.SafeExactly | lab10xv6/xv6/log.c:213-233 | with mkfs's log of LOGSIZE blocks and more than LOGSIZE blocks behind it, all runs of operations with at most k entries each keep the log within its blocks, and all recover to some prefix of the updates, exactly if k <= MAXOPBLOCKS - 1 |
| LogSpace.OverrunBreaksAtomicity | lab10xv6/xv6/log.c:218-230 | the input: a run of operations with at most MAXOPBLOCKS entries each after which LOGSIZE entries are listed, the block behind the log is overwritten, and recovery from the disk gives no prefix of the updates |
| LogTheorems.RecoveryIsRestartable | lab10xv6/xv6/log.c:115-122 | however often the power fails during recovery, when it completes the home blocks hold the contents of the last commit before the first crash, readers see them, and the log is empty |
| LogTheorems.RecoveredIsCommitted | lab10xv6/xv6/log.c:68-122 | in every reachable state the disk alone determines the committed contents |
| LogTheorems.InstalledMeaning | lab10xv6/xv6/log.c:69-82 | copying the first k log blocks settles just the home blocks of the first k entries |
| LogTheorems.ViewIsLatest | lab10xv6/xv6/log.c:204-233 | outside of recovery a reader of any home block sees all updates logged so far, committed or not |
| LogTheorems.DurableForever | lab10xv6/xv6/log.c:98-113 | committed updates stay a prefix of the history through every later run without an overrun |
| LogTheorems.CommitMakesDurable | lab10xv6/xv6/log.c:146-174 | when the end_op that commits has done so, every update logged so far would survive a crash |
| LogTheorems.CommittingPanicUnreachable | lab10xv6/xv6/log.c:146-156 | over all runs without an overrun no operation is outstanding during a commit or recovery, so the panic "log.committing" cannot happen |
| LogTheorems.WaitingBeginHasWaker | lab10xv6/xv6/log.c:126-141 | begin_op is refused only while an operation is outstanding, or a commit or recovery is under way |
| LogTheorems.JoinsExactly | lab10xv6/xv6/log.c:126-141 | group commit: in every reachable state with operations under way, whatever they have logged, another is let in exactly as long as entries and reservations are within LOGSIZE; with none under way, exactly if no commit or recovery is |
| LogTheorems.SecondJoins | lab10xv6/xv6/log.c:131-135 | an operation alone that has logged all of its MAXOPBLOCKS still lets a second one in |
| LogTheorems.RecoveryKeepsHistory | lab10xv6/xv6/log.c:115-122 | recovery steps and crashes among them neither lose nor add committed updates |
| LogTheorems.RunKeeps | lab10xv6/xv6/log.c:68-233 | the invariant of log, cache and disk holds in every state that a run without an overrun reaches |
| LogInvariant.StepKeeps | lab10xv6/xv6/log.c:68-233 | every atomic step, a crash included, keeps the invariant of disk, cache, header and history, but for an append that has no block of the log |
| LogMachine.HeaderRoundTrip | lab10xv6/xv6/log.c:84-113 | read_head gives back the entries that write_head stored, whatever stale words follow them |
| LogSpace.TransactionNeverTooBig | lab10xv6/xv6/log.c:213-233 | over all interleavings and in every phase, crashes and recovery included, if every operation adds at most MAXOPBLOCKS - 1 entries, neither the list in memory nor the list on disk exceeds LOGSIZE - 2; with a log of LOGSIZE blocks the guard of log_write never fires, and no append overruns the log however long ago its guard was passed |
| LogSpace.FewBlocksAreSafe | lab10xv6/xv6/log.c:213-233 | operations that each log at most MAXOPBLOCKS - 1 different blocks, however often, add no more entries than that and never overrun the log |
| LogSpace.AppendInRoom | lab10xv6/xv6/log.c:218-230 | an operation that may still add one of its MAXOPBLOCKS - 1 entries finds room at the append, whatever others have added since its guard |
| LogSpace.Race | lab10xv6/xv6/log.c:218-223 | with LOGSIZE - 2 entries two operations can both pass the guard and both append, so that LOGSIZE are listed |
| LogSpace.FullReservationsReachTheGuard | lab10xv6/xv6/log.c:218-219 | with MAXOPBLOCKS entries each, three operations get to a state where no log_write gets past the guard: the usable log is one entry short of the reservation |
| LogSpace.SpaceKeeps | lab10xv6/xv6/log.c:126-174 | entries and reservations together stay within the bound at every step, the test of the guard and the append being two |
| LogCode.Log.constructor | lab10xv6/xv6/log.c:53-66 | initlog starts the machine over the given disk, whose first image is that disk |
| LogCode.Log.EveryImageIsAtomic | lab10xv6/xv6/log.c:68-202 | whichever single disk write of the code the power fails behind, recovery from that image leaves the home blocks as whole operations made them, none that was still running, and what is recovered stays part of the history; LogAppend stops where an entry would have no block, and says when that is |
| LogCode.MemDisk.Write | lab10xv6/xv6/memide.c:54-60 | the disk changes one block at a time, and each write leaves an image |
| LogCode.PassedMore | lab10xv6/xv6/log.c:68-202 | each image of the disk is one that the machine has after some prefix of its steps |
| LogCode.Log.PowerFailure | lab10xv6/xv6/memide.c:38-60 | a power failure leaves the disk as it is and is a crash step of the machine |
| LogCode.Log.Bread | lab10xv6/xv6/bio.c:96-106 | bread returns what the machine says a reader sees, and changes what no reader sees |
| LogCode.Log.Bwrite | lab10xv6/xv6/bio.c:109-116 | one bwrite puts the block on disk and leaves its buffer clean |
| LogCode.Log.BeginOp | lab10xv6/xv6/log.c:125-141 | one look of begin_op admits the operation exactly if no commit is under way and the entries and a full reservation for each operation, this one included, are within LOGSIZE; otherwise the process sleeps, and an operation or a commit is there to wake it |
| LogCode.Log.List | lab10xv6/xv6/log.c:224-230 | absorption: a block is listed once; an entry is refused exactly if the block is new and the log has no block for it |
| LogCode.Log.LogWrite | lab10xv6/xv6/log.c:213-233 | log_write with nobody else in between: it panics "too big a transaction" exactly when the guard fires, and "log_write outside of trans" exactly when the guard is silent and no operation is outstanding; otherwise the block is listed and shows the new data |
| LogCode.Log.LogCheck | lab10xv6/xv6/log.c:218-221 | the two tests, without log.lock: a step of the machine that others may follow before the append; each panic has its exact condition |
| LogCode.Log.LogAppend | lab10xv6/xv6/log.c:223-232 | the part under log.lock, whatever others have appended since the test: it lists and pins the block, or overruns the log exactly if the block is new and there is no room for it; operations with fewer than MAXOPBLOCKS entries each never overrun |
| LogCode.Log.WriteLog | lab10xv6/xv6/log.c:176-190 | the copying loop takes the machine through all its log writes; every image on the way recovers to what was committed before |
| LogCode.Log.WriteHead | lab10xv6/xv6/log.c:98-113 | write_head is the commit step, or the step that clears the log: one disk write, whose image recovers to what is committed then |
| LogCode.Log.CopyBlock | lab10xv6/xv6/log.c:73-80 | one turn of either copying loop is one disk write and one step of the machine |
| LogCode.Log.InstallTrans | lab10xv6/xv6/log.c:68-82 | the installing loop takes the machine through all its home writes, at commit or at boot; every image on the way recovers to what is committed |
| LogCode.Log.Commit | lab10xv6/xv6/log.c:192-202 | after commit all updates so far are durable and on their home blocks, and the log is empty; every image on the way recovers to the old committed contents or to all updates |
| LogCode.Log.MakeDurable | lab10xv6/xv6/log.c:195-197 | up to the header write every image recovers to the old contents, and that write makes all updates durable |
| LogCode.Log.InstallAndClear | lab10xv6/xv6/log.c:198-200 | installing and clearing change nothing about what recovery gives |
| LogCode.Log.EndOp | lab10xv6/xv6/log.c:143-174 | end_op of the last operation commits; of another one it writes nothing. Whichever of its disk writes the power fails behind, all updates so far are recovered or just those that were durable before; and no process is left asleep in begin_op |
| LogCode.Log.EndOpBegin | lab10xv6/xv6/log.c:152-165 | the part under log.lock: the last one out sets committing, another one wakes the sleepers; the panic "log.committing" is not met |
| LogCode.Log.EndOpFinish | lab10xv6/xv6/log.c:170-174 | after the commit the log takes operations again and the sleepers are woken |
| LogCode.Log.ReadHead | lab10xv6/xv6/log.c:84-96 | read_head loads the entries that the disk lists |
| LogCode.Log.RecoverFromLog | lab10xv6/xv6/log.c:115-122 | recovery ends with the committed updates on the home blocks and an empty log; after any of its writes, recovering again gives the same |
| CachedLog.CachedLog.DiskIsAtomic | lab10xv6/xv6/log.c:68-202 | after every call of the cache under the log, the disk recovers to whole operations; the run so far has no overrun, which LogSpace.TransactionNeverTooBig derives |
| CachedLog.CachedLog.ReaderSeesLatest | lab10xv6/xv6/bio.c:96-106 | whoever gets a home block from bread, outside of recovery, has what all updates so far made of it, committed or not |
| CachedLog.CachedLog.constructor | lab10xv6/xv6/bio.c:38-56 | with empty buffers the machine is at power-on |
| CachedLog.CachedLog.Bget | lab10xv6/xv6/bio.c:58-93 | bget is an eviction of a clean block by the machine, or changes nothing that it sees; it panics exactly if the block is not cached and pinned and held buffers number NBUF |
| CachedLog.CachedLog.IdleExactly | lab10xv6/xv6/bio.c:78-92 | pinned buffers are never more than the entries of the log, and an idle buffer exists exactly while pinned and held ones are fewer than NBUF: so log.c finds its buffers as long as entries and held buffers are |
| CachedLog.CachedLog.AcquireSleep | lab10xv6/xv6/sleeplock.c:22-32 | under the log the lock is got exactly if it is free, and otherwise the process is one more sleeper |
| CachedLog.CachedLog.ReleaseSleep | lab10xv6/xv6/sleeplock.c:34-42 | under the log the panic is exact, and otherwise the lock is free and nobody sleeps on it |
| CachedLog.CachedLog.Unref | lab10xv6/xv6/bio.c:126-140 | under the log one reference goes, and with the last one the buffer goes to the front |
| CachedLog.CachedLog.BreadRest | lab10xv6/xv6/bio.c:96-106 | bread is the machine's Bread, and an unchanged buffer holds what a reader sees |
| CachedLog.CachedLog.Change | lab10xv6/xv6/bio.c:95-106 | a store into a locked buffer shows in nothing until it is logged or written |
| CachedLog.CachedLog.LogWrite | lab10xv6/xv6/log.c:213-233 | the append of log_write, of a buffer, is the machine's step wherever the log has room for it |
| CachedLog.CachedLog.Bwrite | lab10xv6/xv6/bio.c:108-116 | bwrite is a step of the machine wherever that step stores the same block |
| CachedLog.CachedLog.CopyBlock | lab10xv6/xv6/log.c:73-80 | the body of the copying loops, on real buffers, is the machine's step |
| CachedLog.CachedLog.WriteHead | lab10xv6/xv6/log.c:98-113 | write_head on the header's buffer is the machine's step |
| CachedLog.CachedLog.PowerFailure | lab10xv6/xv6/memide.c:38-60 | losing the buffers and keeping the disk is the machine's crash |
| CachedLog.ShownMoved | lab10xv6/xv6/bio.c:78-91 | a recycled buffer takes its own block, and no other, out of the machine's cache |
| CachedLog.ShownOne | lab10xv6/xv6/bio.c:96-116 | reading, logging or writing a buffer changes the machine's cache at its block alone |
| Bio.BufferCache.constructor | lab10xv6/xv6/bio.c:38-56 | after binit the cache stands for the disk as it is and no buffer is in use |
| Bio.BufferCache.Binit | lab10xv6/xv6/bio.c:45-55 | the loop links all buffers into one ring through head, most recent first |
| Bio.BufferCache.Cached | lab10xv6/xv6/bio.c:68-76 | the first loop finds the buffer of the block if there is one, and misses none |
| Bio.BufferCache.LeastRecent | lab10xv6/xv6/bio.c:78-91 | the second loop finds the idle buffer released longest ago, and fails only if none is idle |
| Bio.BufferCache.Bget | lab10xv6/xv6/bio.c:58-93 | whichever way bget goes the latest contents of all blocks are unchanged; it recycles the idle buffer released longest ago, and panics exactly when the block is not cached and every buffer is in use or dirty |
| Bio.BufferCache.Recycle | lab10xv6/xv6/bio.c:82-87 | giving a buffer that is unreferenced and clean to another block loses nothing |
| Bio.BufferCache.AcquireSleep | lab10xv6/xv6/sleeplock.c:22-32 | a process gets a buffer's lock only if nobody has it, and nobody is pushed out; otherwise it sleeps, and in every valid state a process that sleeps for a lock has a holder to wake it |
| Bio.BufferCache.ReleaseSleep | lab10xv6/xv6/sleeplock.c:34-53 | only the holder releases, and that wakes all who sleep for the lock; a buffer let go of is as the disk is, or pinned |
| Bio.BufferCache.Iderw | lab10xv6/xv6/memide.c:38-60 | exact effect and exact panics of one disk request; the latest contents stay |
| Bio.BufferCache.Transfer | lab10xv6/xv6/memide.c:54-60 | the block goes to the disk if dirty and comes from it if not; the latest contents stay |
| Bio.BufferCache.WriteOut | lab10xv6/xv6/memide.c:54-58 | a dirty block goes to the disk, which keeps the latest contents of all blocks |
| Bio.BufferCache.ReadInto | lab10xv6/xv6/memide.c:58-59 | a block that was not read comes from the disk, which keeps the latest contents of all blocks |
| Bio.BufferCache.BreadRest | lab10xv6/xv6/bio.c:96-106 | bread returns the latest contents of the block, and meets only the panics about a foreign device or block |
| Bio.BufferCache.Change | lab10xv6/xv6/bio.c:95-106 | a store by the lock holder changes the contents of its block and of no other |
| Bio.BufferCache.Pin | lab10xv6/xv6/log.c:231 | the dirty mark of log_write changes no contents |
| Bio.BufferCache.Bwrite | lab10xv6/xv6/bio.c:108-116 | bwrite puts the buffer on disk; it panics exactly if the caller does not hold the lock |
| Bio.ShowsWritten | lab10xv6/xv6/memide.c:55-58 | a written buffer shows its data, and every other clean buffer still shows what is on disk |
| Bio.BufferCache.Unref | lab10xv6/xv6/bio.c:126-140 | dropping the last reference moves the buffer to the front; all contents stay |
| Bio.BufferCache.MoveToFront | lab10xv6/xv6/bio.c:130-137 | the six link assignments keep the ring of all buffers and put this one first |
| Bio.LinksInverse | lab10xv6/xv6/bio.c:45-55 | next and prev undo each other at every buffer and at head |
| Bio.OneBufferPerBlock | lab10xv6/xv6/bio.c:68-91 | two buffers never stand for the same block of a device other than 0 |
| Bio.RecycleKeepsLatest | lab10xv6/xv6/bio.c:78-91 | recycling a clean buffer changes no block of the array that cache and disk stand for |
| Bio.Unlinked | lab10xv6/xv6/bio.c:132-133 | the two unlinking assignments take just that buffer out of the ring |
| Bio.Pushed | lab10xv6/xv6/bio.c:134-137 | the four linking assignments put a buffer behind head |
| FsLayout.InodeRoundTrip | lab10xv6/xv6/fs.h:28-36 | a dinode is read back as it was encoded |
| FsLayout.InodeFields | lab10xv6/xv6/fs.h:28-36 | the fields of a dinode are the little-endian numbers, shorts in two's complement, at bytes 0, 2, 4, 6, 8 and 12 + 4k of its 64 |
| FsLayout.InodePlace | lab10xv6/xv6/fs.h:38-42 | dinode i lies 64 i bytes behind the beginning of block inodestart |
| FsLayout.MapPlace | lab10xv6/xv6/fs.h:44-48 | block b is in use exactly if bit b of the bit array that begins with block bmapstart is set, low bit first |
| FsLayout.PutInodeInodes | lab10xv6/xv6/fs.c:226-233 | storing a dinode in its place leaves the other dinodes of the block |
| FsLayout.PutWordWords | lab10xv6/xv6/fs.c:390-392 | storing an address in an indirect block leaves the other addresses |
| FsLayout.MarkedBits | lab10xv6/xv6/fs.c:66-68 | setting or clearing a block's bit changes the map for that block alone |
| FsLayout.OrBitBits | lab10xv6/xv6/fs.c:68 | or with a one-bit mask sets that bit and keeps the others |
| FsLayout.ClearBitBits | lab10xv6/xv6/fs.c:92 | and with the complement of a one-bit mask clears that bit and keeps the others |
| FsInvariant.OneOwner | lab10xv6/xv6/fs.c:362-400 | a data block in use belongs to one place: a direct slot, an indirect slot or an indirect block; and it is marked in the map |
| FsInvariant.FreeIsUnreferenced | lab10xv6/xv6/fs.c:55-95 | a data block is free in the map exactly when no place refers to it |
| FsContents.WroteBlock | lab10xv6/xv6/fs.c:498-504 | one turn of the loop of writei splices its bytes into the byte string of the file, across block boundaries and growth |
| FsContents.ReadBlock | lab10xv6/xv6/fs.c:469-474 | one turn of the loop of readi gives the bytes of the file at its offset |
| FsContents.SpliceTwice | lab10xv6/xv6/fs.c:498-504 | writing two adjacent pieces is writing once |
| FsContents.ReadBack | lab10xv6/xv6/fs.c:452-511 | after a write the range written reads as what was written and the rest as before |
| FsCode.EmptyDisk | lab10xv6/xv6/fs.h:15-23 | an example image: zeroed dinodes and only the metadata marked satisfy the invariant |
| FsCode.RootImage | lab10xv6/xv6/mkfs.c:111-166 | the image that mkfs makes of no files, a root directory of one block with its size rounded up, satisfies the invariant |
| FsCode.RootSizeRounded | lab10xv6/xv6/mkfs.c:158-163 | rounding up the size of the root directory keeps the invariant exactly if the size is not a multiple of BSIZE already |
| FsCode.AlignedRootBreaks | lab10xv6/xv6/mkfs.c:158-163 | a root directory of exactly one block is given a size that it has not the blocks for |
| FsCode.Refusals | lab10xv6/xv6/fs.c:493-496 | the two tests of writei, with the wrapping sum, refuse just the writes that start past the end or end past MAXFILE blocks |
| FsCode.WriteCount | lab10xv6/xv6/file.c:127-133 | a write of at most 1536 bytes at any offset logs at most 10 distinct blocks, and at most 7 when one block holds the map |
| FsFree.FreeGone | lab10xv6/xv6/fs.c:55-95 | from one state of the invariant to another in which a file has grown, the blocks free in the map are fewer by exactly the blocks that it has gained, its indirect block included |
| FsCode.SoFarStops | lab10xv6/xv6/fs.c:498-504 | a write that runs out of blocks in some turn had too few for the whole of it from the start |
| FsCode.ReachAfter | lab10xv6/xv6/file.c:134-152 | a chunk is within what filewrite gets to exactly if it fits below MAXFILE blocks |
| FsCode.FileSystem.LogWrite | lab10xv6/xv6/log.c:213-233 | the one place where a block changes notes it in the transaction |
| FsCode.FileSystem.Balloc | lab10xv6/xv6/fs.c:55-78 | balloc takes the lowest free block, zeroes it and changes no other bit; it panics exactly if no block is free |
| FsCode.FileSystem.BmapDirect | lab10xv6/xv6/fs.c:378-382 | bmap for a direct entry: the address that is there, or a new block owned by this entry alone; the panic comes exactly if it lacks a block and none is free |
| FsCode.FileSystem.LoadIndirect | lab10xv6/xv6/fs.c:386-388 | the indirect block, made empty if missing; the panic comes exactly if it is missing and no block is free |
| FsCode.FileSystem.BmapIndirect | lab10xv6/xv6/fs.c:385-397 | bmap for an indirect entry; the panic comes exactly if fewer blocks are free than are missing, the indirect block included |
| FsCode.FileSystem.IndirectEntry | lab10xv6/xv6/fs.c:389-397 | the entry in the indirect block, or a new block stored there; the panic comes exactly if it is missing and no block is free |
| FsCode.FileSystem.Bmap | lab10xv6/xv6/fs.c:370-400 | bmap gives the block of the entry; it allocates only the next missing entry, and then keeps every block and byte in use; within MAXFILE it panics exactly if fewer blocks are free than are missing |
| FsCode.FileSystem.Iupdate | lab10xv6/xv6/fs.c:216-236 | the dinode on disk becomes the in-memory inode, and no other dinode changes |
| FsCode.FileSystem.Ilock | lab10xv6/xv6/fs.c:285-312 | an inode that is not valid is read from disk, and is then as its last holder left it; a valid one stays as it is; panic exactly when what was read has no type |
| FsCode.FileSystem.WriteTurn | lab10xv6/xv6/fs.c:498-504 | one turn of the loop of writei; it panics exactly if fewer blocks are free than the file lacks for this turn, never where it has the block already |
| FsCode.FileSystem.WriteLoop | lab10xv6/xv6/fs.c:498-504 | the loop of writei: the file's byte string with src spliced in, and how many blocks were logged; the panic comes exactly if fewer blocks are free than the file lacks for all of src |
| FsCode.FileSystem.WriteInside | lab10xv6/xv6/fs.c:498-511 | a write that is not refused: src is spliced in, no other file changes, the dinode is stored, and the blocks logged cover every change and are at most 10, or 7 with one map block; the map loses exactly the blocks that the file gains, and the panic is exact |
| FsCode.FileSystem.Writei | lab10xv6/xv6/fs.c:478-511 | a write is refused exactly if it starts past the end or ends past MAXFILE blocks; it panics exactly if it is not refused and the map has fewer free blocks than the longer file needs more of; otherwise src is spliced into the contents, no other file changes and the stored dinode agrees with memory; the blocks that it logs include every block that changed and are at most 10 (or 7) for up to 1536 bytes |
| FsCode.FileSystem.ReadTurn | lab10xv6/xv6/fs.c:469-474 | one turn of the loop of readi |
| FsCode.FileSystem.Readi | lab10xv6/xv6/fs.c:449-476 | a read returns the bytes of the range clipped to the size, and changes, allocates and logs nothing |
| FsCode.FileSystem.Bfree | lab10xv6/xv6/fs.c:80-95 | bfree clears that block's bit and no other, for any block; it panics exactly if the bit is clear; and an owned block loses its owner |
| FsCode.FileSystem.TruncDirect | lab10xv6/xv6/fs.c:414-419 | the direct blocks, and no others, are freed |
| FsCode.FileSystem.TruncIndirect | lab10xv6/xv6/fs.c:422-427 | the blocks that the indirect block lists, and no others, are freed |
| FsCode.FileSystem.Itrunc | lab10xv6/xv6/fs.c:402-435 | itrunc frees exactly the inode's blocks, leaves it empty on disk and in memory, changes no other file, and never meets "freeing free block" |
| FsCode.FileSystem.WriteChunk | lab10xv6/xv6/file.c:140-145 | one transaction of filewrite: the chunk is in the file and the offset behind it, or nothing has changed; the panic is exact; the blocks logged between begin_op and end_op include every block that changed, and fit; its log_write calls replayed on the old disk give the new one, which is at rest |
| FsCode.FileSystem.Filewrite | lab10xv6/xv6/file.c:117-156 | the chunks put src at consecutive offsets; all of it exactly when it fits, otherwise the whole chunks before the first that does not; it panics exactly if the map has fewer free blocks than the file lacks for as much of src; the disk goes from its old to its new contents through transactions of which none changes a block that it has not logged, or logs more than MAXOPBLOCKS blocks, nor 7 with one map block; after each of them the file system is at rest and the file has a beginning of src written into it |
| FsCode.FileSystem.ChunkTurn | lab10xv6/xv6/file.c:136-152 | one turn of the chunk loop carries the file from the splice of the first i bytes to that of i + n1, as one more transaction; the panic is exact |
| FsCrash.FilesAfterCrash | lab10xv6/xv6/log.c:68-122 | files and log together: whatever was on the disk when the power failed, recovery gives a file system at rest whose dinodes and file contents are all as they were after one of the transactions that have ended, or before the first; none is there in part |
| FsCrash.FilesAfterAnyCrash | lab10xv6/xv6/log.c:68-233 | on a disk with one map block, as mkfs makes it, and a log of LOGSIZE blocks the same holds of every interleaving in the log of operations that each log blocks of a transaction that fits, with nothing more said of the run |
| FsCrash.FitsTheLog | lab10xv6/xv6/file.c:127-133 | a transaction that fits calls log_write for at most 7 different blocks |
| FsCrash.FilewriteAfterCrash | lab10xv6/xv6/file.c:117-156 | if these are the transactions of one filewrite, its file has after the recovery a beginning of src written into it at the old offset |
| FsCrash.HistorySame | lab10xv6/xv6/log.c:204-233 | replaying the updates of the log is replaying the log_write calls of the transactions |
| FsCrash.WholeTransactions | lab10xv6/xv6/log.c:192-202 | what a log commits ends at the end of a transaction, because it has no operation in part |
| FsCrash.SameFilesRest | lab10xv6/xv6/fs.c:216-400 | the contents of blocks before the inode blocks, the log among them, matter to no file |
| FsCrash.WordsRoundTrip | lab10xv6/xv6/log.c:98-113 | a block taken as words, as the log has it, and as bytes, as the files have it, is the same block |
| FsCode.Chained | lab10xv6/xv6/file.c:134-152 | one more transaction that fits continues the chain of disks |
| UMalloc.RequestFits | lab10xv6/xv6/umalloc.c:54-69 | of all 32-bit requests, the units hold exactly those of at most 2^32 - 8 bytes, and sbrk is asked for all of the units exactly for those of at most 2^31 - 16 bytes and those that wrap |
| UMalloc.HugeRequestWraps | lab10xv6/xv6/umalloc.c:69 | the largest request wraps to a block of one unit |
| UMalloc.HeapMeaning | lab10xv6/xv6/umalloc.c:24-90 | in every valid heap live blocks are disjoint from each other and from free ones, the free list is in address order with no two free blocks touching, and the units that calls of sbrk have given are exactly those of the blocks, each in one |
| UMalloc.Heap.constructor | lab10xv6/xv6/umalloc.c:21-22 | the heap before its first use |
| UMalloc.Heap.FindPlace | lab10xv6/xv6/umalloc.c:30-32 | the search of free ends within one turn at the block after which the new one belongs |
| UMalloc.Heap.Join | lab10xv6/xv6/umalloc.c:33-42 | the six assignments give the links and sizes of which Freed speaks |
| UMalloc.Freed | lab10xv6/xv6/umalloc.c:30-42 | with these links and sizes the list holds the block in address order, merged with each neighbour that it touches, and all units stay with the blocks |
| UMalloc.LastBelowAt | lab10xv6/xv6/umalloc.c:30-32 | the place that the search of free finds is the last listed block below the freed one |
| UMalloc.GrownFits | lab10xv6/xv6/umalloc.c:57-60 | of the list after morecore only the block with the new memory fits, and it ends at the break |
| UMalloc.Heap.Free | lab10xv6/xv6/umalloc.c:24-44 | free gives back exactly that block, keeps all other live blocks and their contents, and all units; the list is the old one with the block in its place, merged where it touches; and freep is the last listed block below it |
| UMalloc.Heap.Sbrk | lab10xv6/xv6/sysproc.c:45-57 | sbrk gives fresh units above the break or fails; each call is recorded |
| UMalloc.Heap.Enlist | lab10xv6/xv6/umalloc.c:57-59 | all the units that sbrk gave, and no others, become one block, which is freed: the last of the list, or part of the last one if they touch; freep is the block that was last |
| UMalloc.Heap.MoreCore | lab10xv6/xv6/umalloc.c:46-61 | morecore adds what one call of sbrk gave as one free block at the end of the list, and returns freep, the block that was last, or changes nothing when that call fails; 32 bits are too few for its request exactly outside of SbrkFits |
| UMalloc.Heap.Refill | lab10xv6/xv6/umalloc.c:86-88 | after morecore exactly one listed block is large enough, the one that has the new memory, and the search that goes on from freep gets to it |
| UMalloc.Heap.Take | lab10xv6/xv6/umalloc.c:74-84 | unlinking an exact fit, or splitting off the tail, gives the upper end of that block to the caller, and nobody else uses it |
| UMalloc.Heap.Search | lab10xv6/xv6/umalloc.c:73-89 | next fit: the block is cut from the first that is large enough behind freep, and freep moves to the block before it; sbrk is called exactly if none is, and then once; the block is then the upper end of the new memory and freep the listed block before that memory; 0 is returned exactly when that call fails, and freep stays |
| UMalloc.Heap.Malloc | lab10xv6/xv6/umalloc.c:63-90 | for every 32-bit request: a fresh block by next fit, or the upper end of new memory after one call of sbrk if no block fits, or 0 with no block changed when that call fails; freep afterwards is exact in each case; the arithmetic asks sbrk for the wrong amount exactly between 2^31 - 16 and 2^32 - 8 bytes with no block that fits; the block holds the request exactly up to 2^32 - 8 bytes |
| UMalloc.Heap.ClientWrites | lab10xv6/xv6/umalloc.c:10-17 | whatever clients write into their blocks, the heap stays valid |
| VmCode.Vm.constructor | lab10xv6/xv6/kalloc.c:31-44 | at boot all pages from end to PHYSTOP are free |
| VmCode.Vm.Freerange | lab10xv6/xv6/kalloc.c:46-53 | every whole page of the range is freed, and no other |
| VmCode.Vm.Kalloc | lab10xv6/xv6/kalloc.c:79-95 | kalloc takes one free page, or fails exactly when there is none |
| VmCode.Vm.Kfree | lab10xv6/xv6/kalloc.c:55-77 | kfree returns the page; it panics exactly for pages outside of end to PHYSTOP |
| VmCode.Vm.Walkpgdir | lab10xv6/xv6/vm.c:32-55 | walkpgdir finds or makes the table for an address and changes no translation; what the processor allows on the page, through both levels, is what the table entry allows; it takes a page only for a table that is missing, and fails only if one is missing and none may be made or no page is free |
| VmCode.Vm.MapOne | lab10xv6/xv6/vm.c:68-78 | one turn of mappages changes one translation; remap exactly if it is present |
| VmCode.Vm.Mappages | lab10xv6/xv6/vm.c:57-80 | mappages maps exactly its pages in order, or as many as memory allows, also when the range ends at 2^32; what it takes from the free list are exactly the tables that were missing |
| VmCode.Vm.Setupkvm | lab10xv6/xv6/vm.c:117-136 | setupkvm gives the kernel's map and nothing else: through both levels the kernel may read all of it and write low memory, its data, free memory and the devices but not its text, and the user nothing; it succeeds exactly if 65 pages are free, takes just those, never panics, and on failure leaves every page used as before |
| VmCode.Vm.FreeUser | lab10xv6/xv6/vm.c:269-276 | freeing one user page clears its translation and frees its page |
| VmCode.Vm.Deallocuvm | lab10xv6/xv6/vm.c:251-279 | of the translations just those of the whole pages in the range are gone although missing tables are jumped over, exactly their pages are freed, and it terminates without a panic |
| VmCode.Vm.Freevm | lab10xv6/xv6/vm.c:281-298 | freevm frees the directory, its tables and its user pages, and nothing else |
| VmCode.Vm.AllocTurn | lab10xv6/xv6/vm.c:233-247 | one turn of allocuvm takes a page, and another if the table is missing; it fails only when these are not to be had |
| VmCode.Vm.GiveUp | lab10xv6/xv6/vm.c:236-238 | the pages mapped so far are taken back |
| VmCode.Vm.GiveUpHolding | lab10xv6/xv6/vm.c:241-246 | so is the page that could not be mapped |
| VmCode.Vm.Allocuvm | lab10xv6/xv6/vm.c:219-249 | allocuvm maps zeroed fresh pages for the whole range, which the user may read and write through both levels, exactly if the free list has the pages and the tables that are missing, and takes just those; or restores the translation and keeps at most new page tables |
| VmCode.Vm.CopyTurn | lab10xv6/xv6/vm.c:330-338 | one turn of copyuvm copies a page; it fails only when the page or its table is not to be had |
| VmCode.Vm.Copyuvm | lab10xv6/xv6/vm.c:313-345 | the child has the same flags and bytes below sz on pages that were free, each open to just the accesses that the parent's is, and the kernel's map above; on failure every page is used as before; the parent is unchanged. For n pages all mapped it succeeds exactly if 65 + n + ceil(n / 1024) pages are free; with page c the first that is missing it panics exactly if 65 + c + ceil(c / 1024) are |
| VmCode.Vm.Uva2ka | lab10xv6/xv6/vm.c:347-360 | uva2ka finds the page exactly if it is present and the user's, given that its table exists |
| VmCode.Vm.Copyout | lab10xv6/xv6/vm.c:362-386 | copyout succeeds exactly when all pages touched are the user's; then src is there and no other byte of the address space differs; tables are needed up to the first page that is not the user's |
| VmModel.TableAdded | lab10xv6/xv6/vm.c:45-52 | a new zeroed table changes no translation |
| VmAccess.EntryDecides | lab10xv6/xv6/vm.c:45-55 | under every directory an access, by user or kernel, a load or a store, is allowed by directory entry and table entry together exactly if the table entry allows it |
| VmAccess.KernelAccess | lab10xv6/xv6/vm.c:105-115 | where the kernel's map is, the kernel may write exactly low memory, its data and free memory and the devices, may read its text besides, and the user may do nothing |
| VmModel.PteSet | lab10xv6/xv6/vm.c:73 | storing an entry changes the translation of its page alone |
| VmModel.OtherTree | lab10xv6/xv6/vm.c:35-80 | what happens under one directory changes no translation of another |
| VmSteps.PageFreed | lab10xv6/xv6/vm.c:269-276 | kfree and clearing the entry, in the code's order, keep every page in exactly one use |
| VmSteps.DirectoryGone | lab10xv6/xv6/vm.c:283-298 | after freevm nothing of the directory is in use and all else is as before |
| VmSpaces.KmapRange | lab10xv6/xv6/vm.c:105-115 | the lines of kmap do not meet, and the last, whose size wraps, ends at the top of the address space |
| VmSpaces.GrewThenGone | lab10xv6/xv6/vm.c:129-134 | what a failing setupkvm or copyuvm has taken is all free again |
| VmSpaces.GrewThenReturned | lab10xv6/xv6/vm.c:235-246 | after a failing allocuvm only tables remain of what it took |
| VmBytes.SeparatePages | lab10xv6/xv6/vm.c:313-345 | user pages of two address spaces, and two user pages of one, are different pages |
| VmBytes.KernelNotUser | lab10xv6/xv6/vm.c:356-358 | no page of the kernel's map has the user bit |
| VmMemory.KernelTablesAre | lab10xv6/xv6/vm.c:105-115 | the kernel's map takes exactly 64 tables, wherever its writable part begins |
| VmMemory.SpentTwice | lab10xv6/xv6/vm.c:32-80 | what two calls take from the free list is what one call for both would take |
| VmMemory.TooLittle | lab10xv6/xv6/vm.c:219-249 | when memory runs out inside a range, the free list was too short for the whole of it |
| VmMemory.CostFromZero | lab10xv6/xv6/vm.c:313-345 | a copy of n pages takes 65 + n + ceil(n / 1024) pages, as the kernel's tables are no help to the user's half |
| VmMemory.ForkPanics | lab10xv6/xv6/vm.c:322-325 | the first page that is missing decides the panic |
| Pipe.CountersMean | lab10xv6/xv6/pipe.c:85-118 | the tests on the wrapping counters mean full and empty, and the index is right across the wrap |
| Pipe.NothingLost | lab10xv6/xv6/pipe.c:77-121 | bytes returned, then the ring from nread on, are the bytes accepted, in order |
| Pipe.SharedPipe.WaitersHaveReason | lab10xv6/xv6/pipe.c:77-121 | while the pipe lock is free and nobody has been killed, a waiting reader implies empty with a writer end open and readers and writers never wait together; a waiting writer implies full with a reader end open whoever has been killed |
| Pipe.KilledWriterStrandsReader | lab10xv6/xv6/pipe.c:85-89 | the exception is real: a killed writer leaves a reader asleep beside a full pipe |
| Pipe.SharedPipe.constructor | lab10xv6/xv6/pipe.c:33-37 | a new pipe is empty with both ends open |
| Pipe.SharedPipe.Wakeup | lab10xv6/xv6/proc.c:457-474 | wakeup makes ready all sleepers on the channel and no one else |
| Pipe.SharedPipe.SleepBegin | lab10xv6/xv6/proc.c:434-440 | sleep takes ptable.lock before it gives up the pipe lock |
| Pipe.SharedPipe.SleepEnd | lab10xv6/xv6/proc.c:438-442 | the thread is asleep before ptable.lock is free again |
| Pipe.SharedPipe.SleepReturn | lab10xv6/xv6/proc.c:444-451 | a woken thread goes on with the pipe lock |
| Pipe.SharedPipe.Kill | lab10xv6/xv6/proc.c:479-497 | kill marks the thread and wakes it |
| Pipe.SharedPipe.WriteBegin | lab10xv6/xv6/pipe.c:83 | a writer enters with the pipe lock |
| Pipe.SharedPipe.WriteFill | lab10xv6/xv6/pipe.c:84-94 | bytes are accepted in order until all are in or the ring is full |
| Pipe.SharedPipe.WriteGiveUp | lab10xv6/xv6/pipe.c:86-89 | pipewrite returns -1 without a wakeup: beside the full pipe a reader waits afterwards exactly if one waited before, and then the writer was killed and had put in bytes since its last wakeup, or a killed writer had left the reader behind already |
| Pipe.SharedPipe.WritePark | lab10xv6/xv6/pipe.c:90-91 | before a writer sleeps it wakes the readers, also those that were left behind |
| Pipe.SharedPipe.WriteEnd | lab10xv6/xv6/pipe.c:95-97 | a finished write wakes the readers, also those that were left behind |
| Pipe.SharedPipe.ReadBegin | lab10xv6/xv6/pipe.c:105 | a reader enters with the pipe lock |
| Pipe.SharedPipe.ReadPark | lab10xv6/xv6/pipe.c:106-112 | a reader sleeps, or gives up if killed, only on an empty pipe with a writer end |
| Pipe.SharedPipe.ReadCopy | lab10xv6/xv6/pipe.c:113-117 | a read takes the oldest bytes, as many as asked for or there are |
| Pipe.SharedPipe.ReadEnd | lab10xv6/xv6/pipe.c:118-120 | a read wakes the writers and returns its bytes |
| Pipe.SharedPipe.CloseBegin | lab10xv6/xv6/pipe.c:62-69 | closing an end |
| Pipe.SharedPipe.CloseEnd | lab10xv6/xv6/pipe.c:65-74 | closing wakes the other side; the pipe goes when both ends are closed |
| Proc.Ptable.AlwaysSafe | lab10xv6/xv6/proc.c:227-392 | in every reachable state: no process sleeps in wait with a ZOMBIE child, none runs on two CPUs, an exited process has no children left, and a process that is leaving its CPU has ptable.lock with it |
| Proc.Ptable.constructor | lab10xv6/xv6/proc.c:120-154 | the table after userinit |
| Proc.Ptable.Wakeup1 | lab10xv6/xv6/proc.c:454-465 | wakeup1 makes runnable just the sleepers on the channel |
| Proc.Ptable.Wakeup | lab10xv6/xv6/proc.c:467-474 | wakeup under ptable.lock keeps the invariant |
| Proc.Ptable.Kill | lab10xv6/xv6/proc.c:479-497 | kill marks the first entry with the pid and ends its sleep, or returns -1 exactly if there is none; the entry is an UNUSED one exactly if no process has that pid |
| Proc.KilledBeforeBirth | lab10xv6/xv6/proc.c:484-492 | after kill(0) the next process is killed from the start |
| Proc.Ptable.Sleep | lab10xv6/xv6/proc.c:425-442 | sleep up to sched: the process is SLEEPING on the channel and ptable.lock is held |
| Proc.Ptable.Yield | lab10xv6/xv6/proc.c:384-392 | yield up to sched |
| Proc.Ptable.Sched | lab10xv6/xv6/proc.c:365-382 | swtch leaves the kernel stack of a process while the lock stays with the CPU |
| Proc.Ptable.Schedule | lab10xv6/xv6/proc.c:334-346 | the scheduler runs the first RUNNABLE process from its place on, which is on no CPU; or comes to the end of the table with nobody run |
| Proc.Ptable.SwitchTo | lab10xv6/xv6/proc.c:342-346 | the process switched to is on no other CPU, and waits for no scan any more |
| Proc.Ptable.SchedulerBack | lab10xv6/xv6/proc.c:349-351 | the CPU forgets the process that has switched away, and goes on to the next entry |
| Proc.Ptable.SchedulerLock | lab10xv6/xv6/proc.c:334 | the scheduler takes ptable.lock and begins a scan at the first entry |
| Proc.Ptable.SchedulerUnlock | lab10xv6/xv6/proc.c:353 | the scheduler gives up the lock with no process on the CPU, and nobody has been passed over: all that were RUNNABLE when the scan began have been run since, by this or another CPU |
| Proc.FairRun | lab10xv6/xv6/proc.c:335-352 | running the first RUNNABLE process keeps those that wait for a scan ahead of it, on every CPU |
| Proc.Ptable.Resumed | lab10xv6/xv6/proc.c:397-401 | a process that comes back releases the lock that came across swtch |
| Proc.Ptable.Allocproc | lab10xv6/xv6/proc.c:73-92 | the first UNUSED entry, if any, becomes EMBRYO with a pid that no entry has had |
| Proc.Ptable.ForkStack | lab10xv6/xv6/proc.c:94-98 | the new process gets a kernel stack, without the lock |
| Proc.Ptable.ForkFail | lab10xv6/xv6/proc.c:193-198 | a failed fork gives its entry back |
| Proc.Ptable.ForkParent | lab10xv6/xv6/proc.c:200 | the parent is set without the lock, which is safe |
| Proc.Ptable.ForkRun | lab10xv6/xv6/proc.c:215-219 | the new process may run |
| Proc.Ptable.Exit | lab10xv6/xv6/proc.c:227-268 | after exit the process is a ZOMBIE, every child of it is init's, and neither parent nor init sleeps on in wait beside a ZOMBIE child; it panics exactly for init |
| Proc.Ptable.Reparent | lab10xv6/xv6/proc.c:255-262 | the loop passes exactly the children of the process to init and wakes init if one is a ZOMBIE |
| Proc.Ptable.WaitTurn | lab10xv6/xv6/proc.c:270-312 | wait reaps the first ZOMBIE child, whose stack is on no CPU, and returns its pid; or returns -1 if it has no child or is killed; or sleeps, and then no child is a ZOMBIE |
| Proc.Ptable.Reap | lab10xv6/xv6/proc.c:287-299 | the stack and entry of a ZOMBIE child are freed while no CPU executes on that stack |
| Proc.ZombieOffCpu | lab10xv6/xv6/proc.c:264-266 | while another process has the lock a ZOMBIE is on no CPU |
| Proc.Exited | lab10xv6/xv6/proc.c:250-266 | the wakeups and the reparenting of exit keep families whole and lose no exit |
| ShellRoundTrip.RoundTrip | lab10xv6/xv6/sh.c:327-446 | every command tree with at most MAXARGS - 1 words per command, printed with parentheses only around what is no simple command and with any blanks that keep its tokens apart, is given back |
| ShellForms.FormsExactly | lab10xv6/xv6/sh.c:344-446 | the grammar, read by recursive descent, takes a list of tokens for a command exactly if the tokens are a form of it, as a declarative grammar of lines, pipes, blocks and simple commands says |
| ShellForms.Unambiguous | lab10xv6/xv6/sh.c:344-446 | no list of tokens is a form of two commands |
| ShellForms.ParsedWords | lab10xv6/xv6/sh.c:344-446 | the words of the command of an accepted line, redirection files included, are exactly the word tokens of the line, each as often as it is there |
| ShellForms.LineWords | lab10xv6/xv6/sh.c:344-446 | the same of every form of a command |
| ShellForms.LineParsed | lab10xv6/xv6/sh.c:344-446 | every form of a line is parsed to its command, up to the end or a closing parenthesis |
| ShellForms.LineTaken | lab10xv6/xv6/sh.c:344-446 | what the parser consumes is a form of the command that it gives |
| ShellRoundTrip.ParsedExactly | lab10xv6/xv6/sh.c:327-446 | for every line of text and every tree: the line is accepted with that tree exactly if its tokens, words as text, are a form of it |
| ShellRoundTrip.Accepted | lab10xv6/xv6/sh.c:327-446 | a line is accepted exactly if its tokens are a form of some tree |
| ShellRoundTrip.AnyOrder | lab10xv6/xv6/sh.c:374-446 | redirections may stand before, between and behind the arguments: the command has the arguments in order and all redirections around it, the last one outermost |
| ShellRoundTrip.LexWritten | lab10xv6/xv6/sh.c:265-308 | tokens written with blanks only where two would run together are scanned back as they are |
| ShellRoundTrip.WrittenParsed | lab10xv6/xv6/sh.c:327-446 | whatever form of a tree is written, with or without needless parentheses, the line is accepted with that tree |
| ShellCode.Parsecmd | lab10xv6/xv6/sh.c:327-342 | parsecmd returns exactly if the tokens of the line are a form of some tree, and then the command in the buffer, its words read as C strings, is that tree; otherwise it panics as the grammar says; afterwards the string at the start of every argument and file is exactly its token |
| ShellCode.ParsePrinted | lab10xv6/xv6/sh.c:327-493 | whatever command tree is printed into the buffer, with any blanks that keep its tokens apart, parsecmd finds that tree, its words read as C strings from the buffer it has terminated |
| ShellCode.WordsRead | lab10xv6/xv6/sh.c:448-493 | the NULs fall on delimiters only, so every word reads as its token |
| ShellCode.Nulterminate | lab10xv6/xv6/sh.c:448-493 | exactly the places where words end become NUL |
| ShellGrammar.LexWords | lab10xv6/xv6/sh.c:295-300 | a word token is a run of word characters up to a delimiter or the end |
| ShellCode.Parser.Peek | lab10xv6/xv6/sh.c:310-320 | peek skips blanks only and tells whether the next character is one of those asked for |
| ShellCode.Parser.GetToken | lab10xv6/xv6/sh.c:265-308 | gettoken consumes exactly the next token and tells its kind and place |
| ShellCode.Parser.ParseLine | lab10xv6/xv6/sh.c:344-359 | parseline, scanning as it goes, agrees with the grammar on the tokens, and terminates |
| ShellCode.Parser.ParsePipe | lab10xv6/xv6/sh.c:361-372 | the same for parsepipe |
| ShellCode.Parser.ParseRedirs | lab10xv6/xv6/sh.c:374-397 | the same for parseredirs |
| ShellCode.Parser.ParseBlock | lab10xv6/xv6/sh.c:399-413 | the same for parseblock |
| ShellCode.Parser.ParseExec | lab10xv6/xv6/sh.c:415-424 | the same for parseexec |
| ShellCode.Parser.ParseWords | lab10xv6/xv6/sh.c:426-446 | the same for the loop over arguments, with its limit |
| Grep.Match | lab10xv6/xv6/grep.c:72-82 | match finds the pattern exactly when some part of the text is in its language |
| Grep.MatchHere | lab10xv6/xv6/grep.c:84-96 | matchhere matches exactly when a prefix of the text is in the language of the pattern, and terminates |
| Grep.MatchStar | lab10xv6/xv6/grep.c:98-106 | matchstar matches exactly when the rest matches behind some run of standing characters |
| Grep.PlainIsSubstring | lab10xv6/xv6/grep.c:72-96 | a pattern without operators matches exactly the texts that contain it |
| Grep.Anchors | lab10xv6/xv6/grep.c:72-96 | for patterns of characters and dots: alone they match the texts that have such a stretch, behind ^ those that begin with one, before $ those that end with one, and between both just such texts |
| Grep.StarredHere | lab10xv6/xv6/grep.c:98-106 | c* takes any run of c, the empty one included, before what follows |
| Grep.StarAlone | lab10xv6/xv6/grep.c:72-106 | c* is found in every text, and ^c*$ matches exactly the texts of nothing but c |
| Integral.Shared.Integrate | assignment/thread.c:107-132 | for numSteps >= THREADS and any order in which the threads reach the mutex the total equals the serial integral |
| Integral.Shared.IntegrateTrap | assignment/thread.c:48-71 | a thread adds the trapezoid area of its slice to the total |
| Integral.MakeSlices | assignment/thread.c:109-128 | the slices tile the range from its start to its end |
| Integral.StepsAddUp | assignment/thread.c:110-116 | the step counts of the slices sum to numSteps |
| Integral.SlicesHaveSteps | assignment/thread.c:110-116 | every slice has a step, so that no thread divides by 0, exactly when numSteps >= THREADS |
| Integral.SliceArea | assignment/thread.c:48-71 | a slice's area is its share of the serial cells |
| Integral.AreasAddUp | assignment/thread.c:115-132 | the slices together have the serial area |
| Integral.IntegrateTrap | assignment/serial.c:34-50 | the serial loop computes the trapezoid rule |
| Integral.TrapezoidPoints | assignment/serial.c:34-50 | the rule counts each inner edge once and each end half, times the width of a cell |
| Integral.LinearIsExact | assignment/serial.c:34-50 | the rule is exact for every linear function, with any number of steps |

## Left out

- Log and cache as one program: `LogCode` keeps its own map for the cache, with eviction of clean blocks at any moment; that the buffers of `Bio` do the same steps is `CachedLog`. A client's change and the append of its log_write are one step of the machine, because the buffer lock is held between them and no commit can begin; the guard is a step of its own.
- LogCode.Log.LogCheck: the reads of the count in the guard are one read, that of the tighter of the two bounds.
- LogCode.Log.LogAppend: stops at an overrun, as LogCode.Log.List does; what the code would do from there is in the machine alone (`LogSpace.OverrunBreaksAtomicity`).
- CachedLog.CachedLog.LogWrite: requires room for the entry, because the lists of log.c are in `LogCode`.
- LogCode.Log.BeginOp: one look of its loop; a process that has been woken calls it again.
- LogCode.Log.PowerFailure: in the middle of a method the code loses only memory, so a failure there is its disk image, of which `EveryImageIsAtomic` speaks; the machine has crashes between any two disk writes.
- Concurrency inside fs.c: `FsCode` runs one operation at a time, with the log's own limit left to `LogSpace`, and `FsCrash` takes the transactions in the order in which they were made, the last ones possibly unfinished. Operations on other inodes that interleave at buffer locks, and the icache (`iget`, `iput`, reference counts, NINODE), are not part of the model; nor are `ialloc`, directories and path names.
- FsCode.FileSystem.Writei: for a device inode the driver's own function is a parameter, because console.c is not part of this model; FsCode.FileSystem.Filewrite is stated for files that are not devices.
- FsCode.FileSystem.Ilock: the sleep lock of the inode and its reference count are left out.
- FsCode.FileSystem.Bfree: a block number past the end of the disk is not modelled.
- FsCode.FileSystem.Filewrite: the inode lock is released between chunks, so another process may write in between; the model has no such process.
- UMalloc.Heap.Malloc: stops where 32 bits cannot hold the bytes to ask for, because what sbrk does with that number belongs to the kernel; addresses count units of 8 bytes, sbrk returns aligned memory above the static header, and other users of sbrk may move the break.
- VmCode.Vm.Kalloc: the list of free pages is a sequence; that its links live inside the free pages is not modelled, so the first word of a freed page reads as junk.
- VmCode: one call at a time. With another CPU inside `kalloc` or `kfree` during the call, the exact counts of free pages (65 for setupkvm, the costs of allocuvm and copyuvm) do not hold.
- VmCode.Vm.Allocuvm: requires that none of the new pages is mapped, which the size kept by the process guarantees.
- VmCode.Vm.Deallocuvm: requires oldsz <= KERNBASE, which its callers keep to.
- VmCode.Vm.Copyout: requires a table for each page up to the first that is not the user's; without one uva2ka reads through a null pointer.
- VmCode.Vm.Copyuvm: PTE flags other than present and user are copied and compared but have no effect in the model; TLB, segment registers and `inituvm`, `loaduvm`, `clearpteu` are left out.
- Proc.Ptable.Sleep: the lock that sleep releases is not part of `Proc`; that no wakeup falls between its release and the sleep is proved for pipes in `Pipe`, where both locks are there.
- Proc.Ptable.Allocproc: pids do not wrap.
- Proc.Ptable.Exit: closing files and the log operation before the lock is taken are left out, as are trap frames, the contexts that swtch saves, and freeing the page table (`VmCode.Vm.Freevm`).
- Pipe.SharedPipe.CloseBegin: requires that no call through the closing end is in progress, which the reference count of struct file guarantees.
- Spinlocks: `acquire` and `release` are atomic; `xchg`, memory ordering and interrupts are left out.
- ShellCode.Parser.ParseRedirs: keeps the redirections as a list and builds the tree at the end, where the code builds it around an exec node that it goes on filling; the tree is the same. The depth of the C stack is unbounded here.
- Hardware and boot code, `console.c`, `exec.c`, `trap.c`, `syscall.c`, argument fetching, `runcmd` of the shell and the read loop of grep: device behaviour and plumbing.
- Floating-point rounding, the mathematical functions, `scanf` and real threads of the assignment; for numSteps = 0 the program computes with infinities, which reals do not have.
- The other labs: exercises whose core is missing or whose properties would be easy members.
