# xv6 with messages and a parallel Jacobi solver: a verified model

This project models the parts of the operating system, and of its user programs, whose behaviour is hard to
read off the code, and proves what they promise.  Each module follows one source file.

| modules | what they model |
|---|---|
| Disk, RedoLog, LogReserve, RoundRobin, TxnSystem, LogProgress, LogOverflow, LogDevice | the write-ahead log: crash atomicity, reservation of log space, how log and cache together refine a plain block store, that commits and recoveries complete, and what a commit too large for its area does |
| BufferCache | the buffer cache as a doubly linked ring of objects |
| JacobiSpec, JacobiProtocol, JacobiProof, JacobiRuns | the parallel solver refines the sequential one, in every interleaving |
| JacobiBarrier, JacobiProgress, JacobiLoss, JacobiHang, JacobiTorn | progress and termination, how many words the reads of a result can lose, exactly when the program can hang, and when results stay whole |
| JacobiStream, JacobiExact, JacobiWrong, JacobiMachine | exactly when every run computes the right grid, and what that means on this kernel |
| JacobiLoops, JacobiBounds, JacobiLaplace | the solver's loops on arrays, bounds over the reals, and the solutions that the sweeps leave alone |
| PipeStream (Pipe.dfy) | pipes on a ring with wrapping counters |
| SetSizes, HeapSpec, Heap | malloc and free on the circular free list, over an sbrk with a 32-bit signed argument |
| BlockOwnership, FileContent, FileSystem | block allocation, files as byte sequences, truncation, transaction sizes |
| PageOwnership, PageTables | page tables as a flat map, conservation of frames |
| SleepLock, ReceiveQueue, ProcSpec, ProcTable | sleep and wakeup, message queues, the process table |
| ShellGrammar, ShellLexer, ShellParser | the shell's grammar, and its parser on its buffer |
| Grep | the backtracking matcher against the language of its pattern |

Code that updates state is modelled by classes, arrays and loops that are proved against functions on values.
Concurrent code is a step system: one step is one critical section or one pipe operation, and the theorems
speak of every run.  `panic` is a result (`false`, `null`, an error outcome) or a step after which the run stops.

Some properties one might expect turned out to hold only under a condition, which is then proved exactly where
the table says "if and only if".

- The check in `log_write` can stop a run, and a commit can overflow the log area and lose crash atomicity, unless
  the area is larger than LOGSIZE; mkfs makes them equal (`LogReserve`, `LogOverflow`).
- A child of the solver can have a result row cut in two unless its result fits a pipe or rows divide a pipe
  (`JacobiTorn`).  The reads of the parent then lose words: more than one can make the grid wrong, unless T is 0
  (`JacobiWrong`), more than a pipe for the last child can make the program hang (`JacobiHang`).  A run on this
  kernel can reach neither a cut row, nor a wrong grid, nor a hang: its pipes hold 2048 bytes, and its one-page
  stack holds grids of at most 22 by 22 floats, whose results all fit (`JacobiMachine`).
- `pipewrite` leaves readers asleep when a killed writer returns early (`PipeStream`).
- `kill(0)`, and the kill of a process whose fork then fails, mark a free slot, and the next process in it is born
  killed though nobody asked for it (`ProcTable`).
- A receive queue with NUM_MSG messages looks empty (`ReceiveQueue`).
- A `malloc` request above 2^31 - 16 bytes that the free list cannot serve gets a block outside the memory obtained
  or one that is too small, or all memory is freed, since the argument of `sbrk` is a signed `int` (`Heap`).

Where comment and code disagree the model follows the code: the shell opens `>` and `>>` in the same mode, and
the parser accepts what the code accepts.

`dafny verify dfyconfig.toml` checks the project.

## Model

| member | source | states |
|---|---|---|
| `RedoLog.CrashAtomicity` | log.c:69-202 | A crash after any k block writes of a commit, then any number of recoveries each cut short anywhere, then one completed recovery: every home block is old if the header write had not landed and new if it had, and the log is empty |
| `RedoLog.CrashInCommit` | log.c:177-202 | After any k writes of commit the disk still means all the old home blocks or all the new ones, and which of the two turns exactly at the header write |
| `RedoLog.CrashInRecovery` | log.c:69-122 | A recovery cut short after any k writes leaves a disk with the same meaning; a completed one has the home blocks in place and an empty header |
| `RedoLog.InterruptedKeepsMeaning` | log.c:115-122 | Any sequence of interrupted recoveries keeps what the disk means |
| `RedoLog.CommitPrefix` | log.c:177-202 | The disk after k writes of commit, block by block: which log slots, which home blocks and which header have landed |
| `RedoLog.RecoveryPrefix` | log.c:69-122 | The same for k writes of recovery |
| `LogReserve.InvStep` | log.c:125-174 | begin_op, the check and the insertion of log_write, end_op and the commit all keep: logged blocks plus unspent reservations fit LOGSIZE, and a commit has no operation beside it |
| `LogReserve.ReservationHolds` | log.c:125-233 | In every interleaving, logged blocks plus unspent reservations never exceed LOGSIZE, a commit runs with no operation in progress, end_op never meets a commit, and the insertion at line 228 stays in bounds although the check at 218 is outside the lock |
| `LogReserve.CheckNeverPanicsIff` | log.c:213-219 | The check never stops a run whose operations call log_write at most MAXOPBLOCKS times each if and only if the log area is larger than LOGSIZE |
| `LogReserve.LogAreaSufficesIff` | mkfs.c:20-25 | The logged blocks always fit behind the header of the log area if and only if the area is larger than LOGSIZE (or holds the header alone); mkfs makes the two equal |
| `LogReserve.TwoPastTheCheck` | log.c:213-233 | The failing run, for every area of 2..LOGSIZE blocks: two operations pass the check with one slot left, both insert, and the log then holds as many blocks as the area, one more than fit behind its header |
| `TxnSystem.StepRefines` | log.c:125-233 | Every step of operations, buffers, commit, recovery and crash keeps the invariant that joins cache, log and disk, and does to a store with a volatile and a durable copy exactly what it means: only the change of a locked buffer by an operation changes the volatile copy, only the header write of a commit makes it durable and then with no operation in progress, a crash falls back to the durable copy; the one step for which this fails is the end_op that commits more blocks than the log area holds, which LogOverflow is about |
| `TxnSystem.LogWriteRefines` | log.c:213-233 | log_write keeps the invariant (the block is pinned and recorded) and changes neither copy |
| `TxnSystem.EndRefines` | log.c:145-174 | end_op, with the start of a commit when it is the last, keeps the invariant and changes neither copy, unless the blocks to commit overflow the log area |
| `TxnSystem.CommitCanStart` | log.c:145-174 | An operation that holds no buffer can end whenever the reservation scheme lets it, and in a log area larger than LOGSIZE its commit never overflows |
| `TxnSystem.NeverOverflows` | log.c:145-174 | No run in a log area larger than LOGSIZE has a commit that overflows it |
| `LogOverflow.WholeOperationsIff` | mkfs.c:20-25 | Every completed recovery of every run shows the effects of whole operations only if and only if the log area is larger than LOGSIZE |
| `LogOverflow.OverflowBreaksAtomicity` | log.c:177-202 | Otherwise a run: a commit of one block too many copies its last block onto the block after the log area, a crash comes before the header write, and the recovered disk is not the one of the last commit |
| `TxnSystem.LogStepRefines` | log.c:69-122 | Of all the writes of commits and recoveries exactly the header write of a commit makes the volatile copy durable; the others change neither copy |
| `LogProgress.LogNeverStuck` | log.c:177-202 | In every run with a commit or a recovery under way, the next disk write or the end of the job can happen, or a process that holds one of the logged blocks can let go of it |
| `LogProgress.LogGoesOn` | log.c:192-202 | With the buffers of the logged blocks free it is the log itself that goes on: it ends exactly when all its writes are done |
| `LogProgress.JobCompletes` | log.c:115-202 | With nothing locked, exactly the writes that are left and one end of the job lead to a system at rest with the contents it had, all of them durable |
| `LogProgress.EndIsDurable` | log.c:145-174 | The end of the last operation in progress, with n blocks logged: 2n + 2 disk writes later (none if n is 0) the commit is over, committing is false again, and the contents at that end_op are durable |
| `LogProgress.QuietIsDurable` | log.c:165-171 | Whenever no operation is in progress and the log is at rest, the log is empty and the volatile and the durable copy are the same |
| `LogProgress.QuietCanBegin` | log.c:125-140 | Any process can then begin an operation |
| `LogProgress.ChangeUnhindered` | log.c:214-233 | Whatever other operations are doing, one with room left in its reservation can lock any home block that nobody holds, change it, log it and let go, without waiting; the block enters the log once, and nothing else changes |
| `LogProgress.OperationReachesDisk` | log.c:125-233 | From a system at rest, an operation that changes any home block runs to its end and is on the disk four writes later, with nothing else changed |
| `LogProgress.AlwaysUsableAgain` | log.c:115-122 | After any run and a crash, recovery completes and any block can then be changed for good |
| `LogProgress.EvictionUnseen` | bio.c:77-106 | A clean buffer that nobody holds can be evicted, and the block read again is the same |
| `TxnSystem.BufferStepRefines` | bio.c:61-141 | Fetching, locking, releasing and evicting buffers change neither copy; a change of a locked buffer changes its block in the volatile copy |
| `TxnSystem.RunInv` | bio.c:61-141 | In every run, crashes included: valid clean unlocked buffers equal the disk and logged blocks stay pinned until installed |
| `TxnSystem.ReadsAreCurrent` | bio.c:96-106 | The buffer a process locks holds what the last change of its block in the run wrote, or the contents at the last commit before the last crash if there was none since; a clean unlocked buffer equals the disk, and a dirty one cannot be evicted |
| `TxnSystem.CurrentIsLatest` | bio.c:96-141 | The volatile copy of a block is, after every run, what the last change of that block wrote, a crash undoing changes back to the last commit |
| `TxnSystem.DurableIsACut` | log.c:115-233 | At every point of every run, crashes included, the durable copy is the volatile copy at the last commit (or at power-on), when no operation was in progress |
| `TxnSystem.RecoveryShowsWholeOperations` | log.c:115-122 | A completed recovery shows exactly the contents at the last commit, so the effects of whole operations only |
| `TxnSystem.LastCommitIs` | log.c:192-202 | The last commit is a header write of the run, and none comes after it |
| `LogDevice.Log.Bread` | bio.c:96-106 | Returns the cached contents, or those on the disk, and changes no block |
| `LogDevice.Log.constructor` | log.c:53-66 | For any disk, whatever its header, a log with nothing cached or logged meets the invariant of the device |
| `LogDevice.Log.WriteHead` | log.c:101-113 | Issues one header write with exactly the blocks now logged |
| `LogDevice.Log.WriteLog` | log.c:177-190 | Issues exactly the copies of the cached blocks into the log slots, in order |
| `LogDevice.Log.InstallTrans` | log.c:69-82 | Issues exactly the copies from the slots to the home blocks, and unpins exactly those |
| `LogDevice.Log.Commit` | log.c:192-202 | Issues exactly the write list that CrashAtomicity is about, leaves the disk that these writes make of the old one, and ends with an empty log |
| `LogDevice.Log.ReadHead` | log.c:85-96 | The list in memory becomes the one on the disk |
| `LogDevice.Log.RecoverFromLog` | log.c:115-122 | Issues exactly the write list of recovery, and leaves the disk that these writes make of the old one |
| `LogDevice.Log.LogWrite` | log.c:213-233 | Refuses exactly when the header or the area is full; otherwise absorbs a block already logged and appends a new one |
| `BufferCache.Cache.constructor` | bio.c:38-56 | The ring holds each of the buffers once |
| `BufferCache.Cache.Scan` | bio.c:61-76 | Finds the buffer of a block if and only if there is one |
| `BufferCache.Cache.Victim` | bio.c:77-91 | The backward walk finds the least recently released buffer that is idle and clean, or there is none |
| `BufferCache.Cache.Bget` | bio.c:61-93 | One more user of the cached buffer, or the least recently released idle clean one emptied for the block; fails exactly if the block is not cached and nothing is idle; never two buffers for a block |
| `BufferCache.Cache.Brelse` | bio.c:120-141 | The last user moves the buffer to the front of the ring, which stays a permutation in order of release |
| `BufferCache.Cache.MoveToFront` | bio.c:130-138 | The six pointer writes take the buffer out of the doubly linked ring and put it in front |
| `BufferCache.Cache.Unlink` | bio.c:132-133 | Takes one buffer out and keeps both directions of links |
| `BufferCache.Cache.PushFront` | bio.c:134-137 | Puts a buffer in front and keeps both directions of links |
| `BufferCache.MoveToFrontDescends` | bio.c:128-139 | Moving the buffer just released to the front keeps the ring in descending order of release |
| `JacobiRuns.ParallelRefinesSequential` | jacob.c:209-271 | In every interleaving of parent and children, a parent that finishes holds the grid after k sequential sweeps, where k is the first round whose largest change is at most E, or L + 1 |
| `JacobiExact.SafeRefinesSequential` | jacob.c:209-271 | The same result, for any arithmetic on the cells, whenever the reads of no child can lose more than one word; the one word is the last of a row, a border cell that the parent has already |
| `JacobiWrong.CorrectIff` | jacob.c:118-127 | For each grid size, division, pipe and border value T, with the averages, differences and initial grid of the program over the reals: every run that finishes, whatever E and L, has the sequential result if and only if T is zero or the reads of no child can lose more than one word |
| `JacobiWrong.LossEndsWrong` | jacob.c:232-244 | Otherwise, for every E and L with which the program is done after one sweep, a run that finishes with a wrong grid: a read that is short leaves a cell at the initial mean, one that starts a word early puts the border value inside |
| `JacobiWrong.OneSweepCorrectIff` | jacob.c:232-244 | Problem by problem, for those that are done after one sweep: no run ends wrong if and only if T is zero or the reads of no child can lose more than one word |
| `JacobiWrong.SweptDiffers` | jacob.c:402-408 | After the first sweep no cell beside the left border has the border value and none beside the right border has the initial mean, unless T is zero |
| `JacobiWrong.BlankIsRight` | jacob.c:209-271 | At T = 0 every run that finishes has the sequential result, whatever is lost |
| `JacobiStream.RunStreams` | jacob.c:232-244 | In every run, torn or not, the pipe of a finishing child holds the words of its rows that are written and not read, end to end, and rows the parent has not read are its initial ones |
| `JacobiMachine.ResultOnXv6` | exec.c:65-71 | With pipes of PIPESIZE bytes, and a grid that the one-page user stack can hold, every run that finishes has the sequential result |
| `JacobiMachine.ProgressOnXv6` | pipe.c:11-11 | ... and no run hangs or has a row cut in two |
| `JacobiMachine.ResultsFitOnXv6` | jacob.c:104-105 | Two grids on a page of 4096 bytes mean N at most 22, and then every result fits a pipe |
| `JacobiMachine.HundredColumnsHang` | jacob.c:235-263 | On a larger stack it could hang: N = 100 and 36 rows for the last child are enough |
| `JacobiRuns.StepOk` | jacob.c:209-442 | Each step of each process keeps the invariant that ties rows, ghost rows, pipes, differences and orders to the sequential run |
| `JacobiRuns.CountBound` | jacob.c:221-227 | No more than L + 1 rounds |
| `JacobiTorn.TransfersStayWholeIff` | jacob.c:420-442 | No interleaving cuts a result row in two if and only if each child has a result that fits a pipe or rows that fill a pipe without remainder |
| `JacobiTorn.TearsUnlessFits` | jacob.c:232-244 | Otherwise a run in which one is cut, whatever the problem |
| `JacobiProgress.ParentNeverStuck` | jacob.c:209-271 | If only a row fits a pipe: in every reachable state some process can move until the parent has finished |
| `JacobiProgress.EveryRunEnds` | jacob.c:209-271 | If only a row fits a pipe: every run has at most a number of steps fixed by the input, and at most L + 1 rounds |
| `JacobiProgress.GhostRowsAreWhole` | jacob.c:337-359 | If only a row fits a pipe: a neighbour pipe is empty before each ghost row is written, holds the whole row when it is read, and no ghost write stops halfway |
| `JacobiHang.LastChildHangs` | jacob.c:235-263 | A run that ends with the parent finished and the last child blocked for ever, whenever the reads of that child can lose more words than a pipe holds; the parent leaves that pipe open in the loop at line 256 |
| `JacobiHang.HangsIff` | jacob.c:235-263 | Some run hangs if and only if the reads of the rows of the last child can lose more words than a pipe holds, a number that MaxLoss computes from the row length, the pipe and the rows |
| `JacobiHang.NoDeadlock` | jacob.c:209-271 | If they cannot: in every reachable state some process can move until all have finished |
| `JacobiHang.RunWithin` | pipe.c:78-121 | In every run, what the reads from a child have lost and can still lose is at most MaxLoss |
| `JacobiHang.PlayLoss` | jacob.c:235-244 | A schedule of the child and the parent that loses all of it |
| `JacobiHang.FittingLoss` | jacob.c:420-442 | A result that fits a pipe, or rows that fill a pipe without remainder, lose nothing |
| `JacobiHang.HangsAtLast` | pipe.c:78-98 | Once the reads from the last child are more than a pipe short, the run can go on to a hang |
| `JacobiSpec.SweepLocal` | jacob.c:402-408 | A sweep of some rows needs those rows and their two neighbours alone |
| `JacobiSpec.ChildrenDiffIs` | jacob.c:219-223 | The maximum over the children is the largest change of the whole grid |
| `JacobiSpec.BorderFixed` | jacob.c:402-415 | The top and bottom rows never change |
| `JacobiLoops.CountWorks` | jacob.c:138-149 | works[j] is the number of rows dealt to child j in turn |
| `JacobiLoops.Bounds` | jacob.c:153-162 | The start and end indices are the running sums of the shares, and min(P, N-2) children are used |
| `JacobiLoops.Divide` | jacob.c:86-173 | The live children are the first min(P, N-2) (one process less for the special case P = 8, N = 20), and their rows divide 1..N-2 in order |
| `JacobiLoops.SharesDivide` | jacob.c:147-173 | Shares dealt in turn divide the rows with no gap and no overlap |
| `JacobiLoops.FillGrid` | jacob.c:118-127 | Border T with a zero bottom row from column 1 on, and T*(3N-1)/(4N) inside |
| `JacobiLoops.BorderSumIs` | jacob.c:118-123 | The running sum of the border after i turns, including the corner that is written twice |
| `JacobiLoops.SweepBlock` | jacob.c:402-415 | The nested loops over u and w compute one sequential sweep of the rows and its largest change |
| `JacobiLoops.ComputeBlock` | jacob.c:402-408 | The first pair of loops, against the sequential sweep |
| `JacobiLoops.CopyBlock` | jacob.c:413-415 | The second pair of loops |
| `JacobiBounds.MaximumPrinciple` | jacob.c:402-415 | Over the reals, values in [0, T] stay there in every round |
| `JacobiBounds.ValuesStayInRange` | jacob.c:118-127 | From the initial grid on, every value in every round lies in [0, T] |
| `JacobiBounds.ChangeNeverGrows` | jacob.c:219-227 | Over the reals, the largest change never increases from one round to the next |
| `JacobiLaplace.StaysIff` | jacob.c:402-408 | A sweep leaves a grid as it is if and only if every cell inside is the mean of its four neighbours |
| `JacobiLaplace.PolynomialsStay` | jacob.c:402-408 | Every polynomial a + bi + cj + dij + e(i^2 - j^2), sampled on the grid, is left as it is; this fixes the weights of the four neighbours |
| `JacobiLaplace.ChangeAtMostIff` | jacob.c:406-407 | The largest change of a sweep is at most E if and only if no cell moves by more than E |
| `JacobiLaplace.StillIff` | jacob.c:219-227 | The change is zero if and only if the grid is a solution |
| `JacobiLaplace.ErrorNeverGrows` | jacob.c:402-415 | No round takes the grid further from a solution: if no initial cell is off by more than d, none ever is |
| `PipeStream.Pipe.constructor` | pipe.c:22-57 | An empty stream with both ends open |
| `PipeStream.Pipe.IsFull` | pipe.c:85-85 | The comparison of counters that wrap at 2^32 says full exactly when PIPESIZE bytes wait |
| `PipeStream.Pipe.IsEmpty` | pipe.c:106-106 | The comparison says empty exactly when everything sent was read |
| `PipeStream.Pipe.Write` | pipe.c:78-98 | One section of pipewrite on the ring appends to the stream what fits, and returns, fails or sleeps as the source does |
| `PipeStream.Pipe.Read` | pipe.c:100-121 | One section of piperead takes the oldest bytes of the stream, up to n |
| `PipeStream.Pipe.Close` | pipe.c:59-75 | One end closes; the page is given back exactly when both are closed |
| `PipeStream.StreamIsFaithful` | pipe.c:59-121 | In every run of many readers and writers: what is read is a prefix of what is written, at most PIPESIZE bytes lie between, and the stream is made of exactly the bytes the writers handed over, each in order |
| `PipeStream.FittingWriteIsWhole` | pipe.c:78-98 | A write that fits the free space is in the stream whole after one section |
| `PipeStream.WriteThenRead` | pipe.c:78-121 | From any state with both ends open, a write that fits and then a read both return: the buffer is in the stream whole, the reader has the oldest bytes, and nobody is left asleep |
| `PipeStream.ZeroMeansEnd` | pipe.c:100-121 | For n > 0, piperead returns 0 exactly if the write end is closed and everything was read |
| `PipeStream.FallsAsleepIff` | pipe.c:84-113 | A process falls asleep exactly in a section of its own in which it is not killed, in front of a pipe that is empty with a writer left, or too full with a reader left; a killed process returns |
| `PipeStream.NoKilledSleeper` | pipe.c:78-121 | In every run, whoever sleeps was not killed when it last ran |
| `PipeStream.KilledLeaves` | pipe.c:84-113 | In every run, a process asleep in the pipe that is killed can run at once and is then out of the pipe |
| `PipeStream.ForgetsIff` | pipe.c:84-95 | Readers never sleep in front of data after a step, except exactly after the failing return of pipewrite that skips its wake-up |
| `PipeStream.NobodyForgottenInRuns` | pipe.c:78-121 | No reader sleeps in front of data in any run without such a return |
| `PipeStream.AForgottenReader` | pipe.c:84-89 | A run in which a killed writer leaves a reader asleep in front of a full pipe |
| `Heap.UnitsEnoughIff` | umalloc.c:69-69 | The rounded size has room for the request, and wastes less than a unit, unless the 32-bit sum wraps |
| `Heap.ServedIff` | umalloc.c:46-61 | sbrk is asked for more memory, and the rounded block has room for the request, if and only if the request is at most 2^31 - 16 bytes: above, the argument of sbrk is negative or zero |
| `Heap.SbrkAdds` | proc.c:179-195 | sbrk moves the break up by the units asked for exactly when it gives memory; on the other outcomes the break does not move up |
| `Heap.Allocator.HugeRequest` | sysproc.c:49-60 | The first request of a program, for 2^31 bytes: sbrk reports success and adds nothing, so the block returned is not in obtained memory; or, at the one break where the shrink leaves nothing, every page is freed and 0 returned |
| `Heap.Allocator.Search` | umalloc.c:30-32 | The walk stops at the free block after which the freed block belongs |
| `Heap.Allocator.Free` | umalloc.c:24-44 | Keeps one address-ordered cycle through base in which no two free blocks touch; the units of the block, and no others, become free; other live blocks stay; freep is the free block before it |
| `Heap.Allocator.Morecore` | umalloc.c:46-61 | If sbrk gives memory, that memory, at least 4096 units, is added to the free units; if sbrk fails, fails after it has freed every page, or returns the break and adds nothing, the list is as before. The break is where growproc leaves it, which may be lower, and unless it is the heap stays valid |
| `Heap.Allocator.FindFit` | umalloc.c:74-87 | One turn of the list finds a block of n units if and only if there is one, and then the first after freep |
| `Heap.Allocator.Carve` | umalloc.c:75-83 | The last n units of the block become live: exactly they leave the free units, and freep is the block before |
| `Heap.Allocator.Fit` | umalloc.c:74-89 | A block with room is found, with at most one call of morecore and only if nothing fits, unless sbrk gives no memory |
| `Heap.Allocator.Malloc` | umalloc.c:63-90 | A block exactly if something fits or sbrk gives memory: new, of the rounded size, cut from the end of the first fit after freep, disjoint from the others, with free plus live units the units obtained. Up to 2^31 - 16 bytes the outcome is a block with room for the request or no memory, with a valid heap; above, what the free list cannot serve never gets a block with room. On every outcome the break is where growproc leaves it |
| `Heap.Allocator.MallocFree` | umalloc.c:24-90 | Taking a block and giving it back restores the free list, block by block |
| `HeapSpec.OneCycle` | umalloc.c:24-44 | Following ptr from base visits every free block once in address order and returns to base |
| `HeapSpec.SameFreeList` | umalloc.c:33-42 | Coalescing is canonical: equal free units mean equal free lists, whatever the history |
| `HeapSpec.FreeBlockIsRun` | umalloc.c:33-42 | Each free block is a maximal run of free units |
| `FileSystem.Files.constructor` | fs.c:56-96 | An image with its metadata blocks marked and no file |
| `FileSystem.Files.Balloc` | fs.c:56-78 | Allocates the lowest free block, zeroed; fails exactly if none is free |
| `FileSystem.Files.Bfree` | fs.c:81-96 | Stops exactly if the bit is clear |
| `FileSystem.Files.Bmap` | fs.c:373-401 | Returns the block of the slot, with at most that block and the indirect block allocated, each owned by exactly one slot; an existing block changes nothing; lists the blocks it logs; fails exactly if fewer blocks are free than it lacks |
| `FileSystem.Files.MapForWrite` | fs.c:373-401 | Mapping the next block of a growing file keeps every file and its bytes, takes exactly the blocks by which the longer file needs more, and fails exactly if they are not free |
| `FileSystem.Files.WriteChunk` | fs.c:499-505 | The part of a write in one block overwrites exactly those bytes of this file and none of another |
| `FileSystem.Files.WriteAll` | fs.c:499-505 | The loop of writei, for every alignment and length; it fails exactly if the free blocks are fewer than those the longer file needs more |
| `FileSystem.Files.Finish` | fs.c:507-511 | After the loop: the size grows to the end of what was written, the on-disk inode equals the cached one again, and the file is the old bytes overwritten at the offset; other files stay |
| `FileSystem.Files.Writei` | fs.c:482-512 | Refuses as the unsigned tests do; otherwise overwrites or appends on one byte sequence, keeps the on-disk inode equal to the cached one, and bounds the blocks logged. It stops the kernel if and only if the write is not refused and the clear bits are fewer than the blocks, the indirect block included, that the new size needs beyond those of the old; free blocks plus blocks of the file stay the same |
| `FileSystem.Files.Readi` | fs.c:453-477 | Returns the slice of the byte sequence, clipped at its end, and allocates nothing |
| `FileSystem.Files.TruncDirect` | fs.c:415-420 | Clears the direct slots; only blocks of this file lose their owner, and the bitmap stays exact, so bfree never finds a free block |
| `FileSystem.Files.TruncIndirect` | fs.c:422-432 | The same for the entries of the indirect block and the block itself |
| `FileSystem.Files.Itrunc` | fs.c:408-436 | Frees exactly the blocks the file owned and leaves other files as they were; the panic of bfree is unreachable |
| `FileSystem.Files.Iput` | fs.c:332-353 | The last reference to a file without links frees it; otherwise only the count changes |
| `FileSystem.Files.WriteOp` | file.c:133-147 | A transaction of at most MAXWRITE bytes logs at most MAXOPBLOCKS different blocks, for every offset and even if every allocation hits another bitmap block; it stops exactly if the disk is too full for it |
| `FileSystem.Files.Filewrite` | file.c:117-156 | The transactions together write the data at the offset, all of it or as many whole transactions as a file can take, and nothing beyond the end of the file; it stops exactly if the free blocks are fewer than that needs; each transaction fits MAXOPBLOCKS |
| `FileSystem.ChunkTurns` | file.c:126-133 | The arithmetic of the bound: blocks touched plus blocks allocated plus indirect and inode blocks |
| `FileSystem.LogSize` | file.c:126-133 | Distinct blocks logged, from the shape of what was logged |
| `BlockOwnership.BitsTaken` | fs.c:56-78 | Allocation keeps: a bit is set exactly for metadata and for blocks owned by one slot of one inode |
| `BlockOwnership.BitsFreed` | fs.c:81-96 | Freeing an owned block keeps it, and finds the bit set |
| `BlockOwnership.ClearIndirect` | fs.c:422-432 | Dropping the indirect pointer drops ownership of the block and of all its entries |
| `BlockOwnership.BlocksConserved` | fs.c:56-96 | Metadata, clear bits and owned blocks together are all the blocks |
| `FileContent.ContentSpliced` | fs.c:499-505 | Splicing a block overwrites the file at the offset, with and without growth |
| `FileContent.ContentOther` | fs.c:499-505 | Splicing a block of one file leaves the bytes of the others |
| `FileContent.ByteHasBlock` | fs.c:470-475 | No holes: each byte below the size has a block |
| `FileContent.FileOwns` | fs.c:373-401 | A file owns exactly the blocks of its bytes, and one more if it has more than NDIRECT of them |
| `FileContent.OverwriteReadsBack` | fs.c:499-505 | What was written is read back, and the bytes before and after it are as they were |
| `PageTables.Memory.constructor` | kalloc.c:46-53 | All the frames are free |
| `PageTables.Memory.Kalloc` | kalloc.c:82-95 | Gives the first frame of the free list, which nothing else has; fails exactly if none is free |
| `PageTables.Memory.Kfree` | kalloc.c:59-77 | The frame goes to the front of the free list and is filled with junk |
| `PageTables.Memory.Walk` | vm.c:35-55 | Finds or makes the page table and leaves the flat map as it is; fails exactly if the entry has no table and no frame is free |
| `PageTables.Memory.MapOne` | vm.c:60-80 | Adds one page to the flat map; stops exactly if the page is mapped already, and fails, with nothing changed, exactly if a table is needed and no frame is free |
| `PageTables.Memory.Deallocuvm` | vm.c:255-279 | Removes exactly the pages of newsz..oldsz from the flat map, although the loop skips whole directory entries, and gives back their frames |
| `PageTables.Memory.Allocuvm` | vm.c:221-249 | Adds zeroed pages for oldsz..newsz if and only if the free frames are at least those pages plus the directory entries of their range without a page table, and takes exactly that many; otherwise the flat map is as before |
| `PageTables.Memory.Freevm` | vm.c:283-298 | Every frame of the address space goes back once, and no other |
| `PageTables.Memory.Setupkvm` | vm.c:118-136 | A new directory with exactly the kernel pages and no user page if and only if there are frames for it and for the page tables of the kernel; otherwise nothing is taken |
| `PageTables.KernelTablesIs` | vm.c:118-136 | The page tables that the kernel lines need are as many as the directory entries they fall into |
| `PageTables.Memory.Copyuvm` | vm.c:315-345 | A new address space with equal contents and flags on fresh frames of its own if and only if all pages below sz are mapped and the frames suffice for the directory, the pages and all page tables; stops exactly if they suffice up to the first page that is not mapped; otherwise nothing is taken; the parent is unchanged |
| `PageOwnership.GrownShrunk` | vm.c:221-249 | Removing what was added gives back the same flat map |
| `SleepLock.StepKeeps` | sleeplock.c:22-42 | Each step of acquiresleep and releasesleep, with the two spinlocks inside sleep and wakeup, keeps the invariant |
| `SleepLock.Exclusion` | sleeplock.c:22-42 | In every interleaving of any number of processes, at most one holds the sleep lock |
| `SleepLock.NoLostWakeup` | proc.c:440-497 | While the spinlocks are free, a process sleeps only on a lock that another process holds |
| `SleepLock.NoDeadlock` | proc.c:440-475 | Some process can always take a step, although sleep takes the second spinlock while it holds the first |
| `SleepLock.NobodyStuck` | sleeplock.c:22-42 | In every run, each process that does not sleep can take its next step or waits, through at most two spinlocks, for one that can |
| `SleepLock.AcquireAlone` | sleeplock.c:22-31 | With the spinlocks free, acquiresleep has the lock two steps later if nobody had it and otherwise sleeps, and leaves both spinlocks free |
| `SleepLock.WokenAsksAgain` | proc.c:463-474 | A process that was woken goes back to ask for the lock |
| `SleepLock.ReleaseAlone` | sleeplock.c:34-42 | With the spinlocks free, releasesleep leaves the lock free and every sleeper runnable |
| `ReceiveQueue.PushHoldsIff` | proc.c:586-610 | The ring holds one message more if and only if it is not the NUM_MSG-th |
| `ReceiveQueue.PopHolds` | proc.c:612-647 | The ring gives the oldest message and keeps the others |
| `ReceiveQueue.EmptyIff` | proc.c:612-647 | Head equals tail exactly if no message waits |
| `ReceiveQueue.StepInOrderIff` | proc.c:586-647 | Delivery stays exact and in order if and only if the step is not the send that makes NUM_MSG undelivered; that send makes the ring look empty |
| `ReceiveQueue.RunInOrder` | proc.c:586-647 | Over every run with fewer than NUM_MSG undelivered messages, receives return sends in order, once each |
| `ReceiveQueue.OverflowLooksEmpty` | types.h:9-10 | With NUM_MSG undelivered messages the next receive sleeps |
| `ProcSpec.TableMeaning` | proc.c:250-335 | With ptable.lock free: parents are neither unused nor zombies, nobody sleeps in wait with a zombie child, and nobody sleeps on a receive queue that holds a message |
| `ProcTable.Table.constructor` | proc.c:139-174 | The first process, with the other slots free |
| `ProcTable.Table.Allocproc` | proc.c:73-99 | The first free slot gets a pid no other slot has; fails exactly if none is free |
| `ProcTable.Table.SetParent` | proc.c:220-220 | The parent is set while the child is an embryo |
| `ProcTable.Table.ForkRuns` | proc.c:238-242 | The child becomes runnable, and is marked only if kill was given its pid, if only such processes were marked before |
| `ProcTable.Table.Exit` | proc.c:250-291 | The children go to init and the process becomes a zombie whose exit is recorded once; nobody is left asleep in wait with a zombie child; fails exactly for init |
| `ProcTable.Table.PassChildren` | proc.c:277-284 | Exactly the children change parent; pids and zombies stay, and sleepers are at most woken |
| `ProcTable.Table.WaitPass` | proc.c:295-335 | Collects a zombie child if and only if there is one, each exit at most once and only by the current parent, and leaves its slot free, with no pid, no parent and no mark; fails exactly without children or when killed; otherwise sleeps |
| `ProcTable.Table.Sleep` | proc.c:440-475 | The caller sleeps on the channel and the table invariant holds |
| `ProcTable.Table.Wakeup1` | proc.c:480-488 | Exactly the sleepers on the channel become runnable, and nobody sleeps on it any more |
| `ProcTable.Table.Kill` | proc.c:502-520 | The first slot with the pid is marked and not asleep, and nothing else changes. That only processes are marked which kill was given stays true if and only if that slot is not free |
| `ProcTable.Table.ForkFails` | proc.c:212-218 | The slot is free again; that only processes are marked which kill was given stays true if and only if kill has not found the slot meanwhile |
| `ProcTable.Table.BornKilled` | proc.c:502-520 | The failing run: kill(0) marks a free slot, and the process that fork makes there is born killed, with a pid that kill was never given |
| `ProcTable.Table.SendMess` | proc.c:586-610 | Each process with the pid gets the message at the end of its queue and is woken; the others are unchanged |
| `ProcTable.Table.RecvPass` | proc.c:612-647 | The oldest message of the queue, or sleep on it exactly if it is empty |
| `ShellLexer.GetToken` | sh.c:265-308 | Kind, span and rest agree with the token list of the text |
| `ShellLexer.Peek` | sh.c:310-320 | Tests the first character of the next token and moves only over space |
| `ShellLexer.RenderLex` | sh.c:265-308 | Text written out from tokens is read back as those tokens |
| `ShellParser.ParseRedirs` | sh.c:374-397 | The loop agrees with the grammar, and stops with an error where the source panics |
| `ShellParser.ParseExec` | sh.c:415-446 | Agrees with the grammar on commands with words and redirections: same tree, same rest, an error exactly where the grammar has none, MAXARGS words included |
| `ShellParser.ParseBlock` | sh.c:399-413 | Agrees with the grammar on parenthesised lines |
| `ShellParser.ParsePipe` | sh.c:361-372 | Agrees with the grammar on pipes |
| `ShellParser.ParseLine` | sh.c:344-359 | Agrees with the grammar on lists and background marks; like the others it ends on every input, by the number of tokens left |
| `ShellParser.NulTerminate` | sh.c:449-493 | Writes NUL exactly at the ends of the words of the command |
| `ShellParser.TerminatedWords` | sh.c:449-493 | No terminator lands inside a word, so each word in the buffer is its token |
| `ShellParser.ParseCmd` | sh.c:327-342 | Succeeds exactly if the tokens of the line are a sentence of the grammar, returns the one tree they derive, and leaves each word terminated in the buffer |
| `ShellParser.ParsesPrinting` | sh.c:327-446 | The printing of any command tree, as text, is parsed back to the tree |
| `ShellGrammar.ParsesIff` | sh.c:327-446 | The parser over tokens gives a tree if and only if the grammar derives the tree from them: lists, background marks, pipes, blocks with any number of parentheses, and words and redirections in any order |
| `ShellGrammar.LineRead` | sh.c:344-359 | Every derivation of a line is read, with anything that may follow a line left over |
| `ShellGrammar.LineFound` | sh.c:344-359 | What parseline reads is a prefix of the tokens that derives the tree it returns |
| `ShellGrammar.RoundTrip` | sh.c:327-446 | The same on tokens: parse after print is the identity |
| `ShellGrammar.ExecRoundTrip` | sh.c:399-446 | For commands and blocks inside a pipe, with anything that may follow them |
| `Grep.MatchHere` | grep.c:84-96 | Returns 1 exactly if a prefix of the text is in the language of the pattern |
| `Grep.MatchStar` | grep.c:98-106 | The shortest-first loop loses no match of a repetition |
| `Grep.Match` | grep.c:71-82 | Returns 1 exactly if a part of the text (a prefix after ^, up to the end before $) is in the language |
| `Grep.FindsIff` | grep.c:71-96 | A match is a substring in the language, at the start of the text after ^ and at its end before $, for all four combinations of anchors |
| `Grep.FindsSubstring` | grep.c:71-82 | Without anchors: exactly if some substring is in the language |
| `Grep.StartsMany` | grep.c:98-106 | The declarative meaning of a repetition, unfolded |
| `Grep.ParseShow` | grep.c:84-96 | Every list of items that can be written is what the pattern it is written as means |
| `Grep.ShowParse` | grep.c:84-96 | Every pattern is the writing of exactly its items, so pattern and items determine each other |

## Left out

- LogDevice.Log.Bwrite: states the disk, the cache and the list of writes after one write; the disk is taken to be free of errors and a block write to be atomic.
- TxnSystem.StepRefines: the header block is kept decoded, and LogDevice relates it to the words of the block. The invariant is not claimed after a commit that overflows the log area.
- LogProgress.LogNeverStuck: says that the log can go on, not that the scheduler lets it; a process that holds a buffer may keep it for ever.
- LogOverflow.WholeOperationsIff: for layouts with room for that many blocks behind the log area, enough processes to reserve the whole log, and LOGSIZE a multiple of MAXOPBLOCKS, as in param.h.
- JacobiRuns.ParallelRefinesSequential: averages and distances are arbitrary functions, so rounding is covered as far as it is the same in both programs; pipes carry 4-byte words; forks and pipe calls succeed; of closing file descriptors only the read ends that the parent closes before it waits are modelled. A row fits a pipe; N above PIPESIZE / 4 is left out, as the stack holds no such grid. `jacoblinux.c` is the same algorithm.
- JacobiWrong.OneSweepCorrectIff: over the reals. For one problem that needs more than one sweep the condition is proved sufficient alone, as a cell that is lost may happen to hold the right value; CorrectIff is exact over all E and L together.
- Heap.Allocator.Morecore: whether more memory is there, and what other callers of sbrk take in between, are parameters.
- Heap.Allocator.Malloc: the loop that starts again after morecore is a second search, which finds a block at once. After a block outside the memory obtained, where the source writes a header at the old break, the heap is not followed further; nor are the contents of pages that sbrk has freed.
- FileSystem.Files.Filewrite: the transaction brackets of the log are the points at which the set of logged blocks starts empty.
- FileSystem.Files.Writei: regular files; the device switch of T_DEV inodes is left out. A full disk is the result false.
- FileSystem.Files.Iput: the inode cache is reduced to the reference count and the valid flag; ialloc, iget, ilock and the sleep lock of an inode are left out. Blocks are kept both as bytes and as words, bitmap bits as booleans.
- PageTables.Memory.MapOne: pages are numbered, permissions are numbers, and the kernel's map is a parameter.
- PageTables.Memory.Deallocuvm: sizes are at most the user part of the address space, as its callers make sure.
- ProcTable.Table.Sleep: sections under ptable.lock are atomic and the scheduler's choice is free; the trap frame, stack and file table of a process are left out.
- ProcTable.Table.Allocproc: pids do not wrap.
- PipeStream.Pipe.Write: the killed flag of the caller is a parameter, and the file reference counts that keep a pipe alive are left out.
- ShellParser.ParseCmd: command structures are values, with words as spans of the buffer; runcmd is left out.
- Grep.Match: the buffer loop of grep() is left out.
- exec, argument fetching, system call wrappers, directories, paths and link counts: mostly argument checking.
- Signals and multicast: they depend on the layout of the user stack, and multicast is a loop of sends.
- loaduvm, inituvm, clearpteu, uva2ka, copyout and growproc: easy beside what is modelled of `vm.c`.
- Boot, interrupts, drivers, console, spinlocks and memory ordering: spinlock sections are atomic steps.
- The small user programs: nothing to prove.
