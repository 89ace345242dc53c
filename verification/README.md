# A model of xv6 in Dafny

xv6 is a small Unix-like kernel for x86 multiprocessors, with its user programs, in
C. This project models the parts of it whose correctness is hardest to see from the
code, and proves what the code and its comments promise about them. Each module
follows one source file; state that the C code updates in place is state that Dafny
methods update in place, and every loop of the source that is modelled is a loop
here, proved against a function or relation that further lemmas are about.
Protocols between processes are state machines over atomic steps, and their results
hold for every state of every run, for any number of processes and CPUs.

- **Redo log (log.c).** `LogDisk` has the single-block writes of `commit` and
  `recover_from_log` as sequences, and what a disk with a log stands for. `LogMachine`
  interleaves operations, commits, crashes and recoveries. `Log` has the code: its
  methods issue exactly the write sequences the other two modules reason about.
- **Files (fs.c, file.c).** `Bytes`, `FsState`, `FileBytes` and `FsSteps` describe a
  disk with a free map, inodes with direct and indirect blocks, and files as byte
  sequences; `Fs` has `balloc`, `bfree`, `bmap`, `iupdate`, `readi`, `writei`, `itrunc`
  and `filewrite` over one disk in memory.
- **User allocator (umalloc.c).** `FreeList` is about the circular address-ordered
  list, `Umalloc` has `free`, `morecore` and `malloc` on headers that point to each other.
- **Shell parser (sh.c).** `ShellLex` and `ShellParse` give the scanner and the
  recursive-descent parser as functions, `ShellGrammar` the command language as a grammar
  over tokens, without a parser, `ShellAccept` that the parser accepts exactly that
  language, `ShellPrint` a printer and the round trip, `ShellNul` the NUL-terminating pass,
  `Shell` the parser as it runs on a cursor.
- **Processes (proc.c).** `ProcTable` has the loops over the process table, `ProcTree`
  fork, exit, wait and kill as a machine, `Sched` the scheduler, `sleep` and `wakeup`.
- **Pipes (pipe.c).** `Pipe` has the ring with its wrapping counters, `PipeMachine` any
  number of readers and writers on one pipe.
- **Buffer cache (bio.c).** `BufList` is about the doubly linked list, `Bio` has `binit`,
  `bget` and `brelse` on the links, `BioMachine` all users of the cache together.
- **Address spaces (vm.c, kalloc.c).** `Paging` says who owns each physical page,
  `AddressSpace` what an operation on one page directory may change, `Vm` has the page
  allocator and the operations on page tables.

## Reading the model

- A `panic` of the source is a returned flag, a failed result, or a step the machine
  does not have; contracts say when it happens. Where a caller must keep the source
  from panicking, the demand is a precondition.
- `ghost` fields say what the C code leaves implicit: the order of a linked list, the
  owner of a block or page, everything stored in a pipe so far.
- The disk is the in-memory disk of memide.c: one block is written or read at a time,
  atomically. Locks are atomic steps.
- Sizes and offsets that are 32-bit unsigned in C are natural numbers below 2^32, with
  `% TWO32` where an addition can wrap around.
- In `Sched` the lines of `sched`, `sleep`, `wakeup` and `scheduler` between two shared
  accesses are separate steps; a condition that sleepers wait for is a counter that is
  only read and changed under its own lock, as in sleep1.p, but for any number of
  processes, channels and rounds. fork and wait appear there only as the points where a
  slot becomes runnable and unused; `ProcTree` has them in full.

## Where the source promises more than it does

- log.c: the reservation in `begin_op` allows LOGSIZE blocks, the guard in `log_write`
  stops one block short of the log area, and mkfs.c makes that area LOGSIZE blocks. Three
  operations within their budget can therefore panic: `LogMachine.BudgetedPanic` is such
  a run. The guard also comes before the scan for a block that is listed already, so with a
  larger log area an operation can still panic on logging such a block again:
  `LogMachine.RelogPanic`. `LogMachine.GuardTrips` says exactly when the guard trips, for
  new and for listed blocks, in every run within budget.
- log.c: `begin_op` counts MAXOPBLOCKS blocks for every outstanding operation, also for one
  that has used part of them, so it can put a process to sleep for which there is room:
  `LogMachine.RefusedWithoutNeed`. `LogMachine.Admission` says exactly when one operation
  more could make the header overflow; `begin_op` refuses in all those states.
- proc.c: `kill` marks the first slot with the pid, in use or not, and `allocproc` does not
  clear the mark. `kill(0)` marks an unused slot, and the next child in it is killed before it
  runs: `ProcTree.KilledBeforeBirth`. `ProcTree.BornKilled` says exactly which slots that are
  not in use carry a mark.
- pipe.c: a writer that is killed can return from a full pipe without waking a sleeping
  reader. `PipeMachine.KilledWriterStrands` is such a run, and `PipeMachine.WriteReaders`
  says exactly which passes of a writer do it.
- umalloc.c: the rounding of `malloc` wraps around for a size within 7 bytes of 2^32
  (`Umalloc.UnitsFor`), and `morecore` passes an unsigned byte count to `sbrk`, which takes
  an int: a count of 2^31 bytes or more makes `sbrk` shrink the process or do nothing, and
  report success. `Umalloc.OversizedRequests` has two such sizes. When `malloc` has to grow
  the heap, its block lies below the break exactly when `Umalloc.SbrkFits` holds
  (`Umalloc.Allocator.Malloc`), and `Umalloc.GrowableRequests` turns both conditions into one
  bound on the argument: 0x7FFFFFF0 bytes.

## Model

| member | source | states |
|---|---|---|
| LogDisk.Find | log.c:224-227 | The scan of log_write: the first position of a block in the list, and the length of the list exactly when it is absent. |
| LogDisk.HeaderLayout | log.c:34-37 | The header block is a count and that many block numbers; write_head keeps every word behind them. |
| LogDisk.WithHeader | log.c:101-113 | A header block that is written lists, when read again, exactly the blocks written, whatever it held before. |
| LogDisk.InstalledStandsFor | log.c:69-82 | Installing any number of logged blocks keeps the log and the contents the disk stands for; after the last one every logged block is home. |
| LogDisk.RecoverPrefix | log.c:115-122 | A crash after any write of recovery leaves a disk that stands for the same contents; after the last write the log is empty and the contents are home. |
| LogDisk.CrashingRecoveriesKeep | log.c:115-122 | Any number of recoveries, each cut short anywhere, keep the contents the disk stands for. |
| LogDisk.RecoveryCompletes | log.c:115-122 | After any number of interrupted recoveries, one complete recovery leaves an empty log and exactly those contents. |
| LogDisk.HeadStandsFor | log.c:98-113 | Writing the header is the commit point: from then on the disk stands for the cached contents. |
| LogDisk.CommitTailIsRecovery | log.c:192-202 | What commit writes after the header is, write for write, a recovery of the disk at that point. |
| LogDisk.CommitPrefix | log.c:176-202 | After k writes of commit the disk stands for the old contents if the header was not written, else for the new ones. |
| LogDisk.CrashAtomicity | log.c:68-122 | For a crash after any write of commit and any interrupted recoveries after it, completed recovery yields all old or all new home blocks, an empty log, and no change to blocks that were not logged. |
| LogMachine.NextKeeps | log.c:125-233 | Every begin_op, log_write, end_op, write of a commit, crash and write of a recovery keeps the log invariant. |
| LogMachine.RunInv | log.c:125-233 | The log invariant holds after every run. |
| LogMachine.GroupIsolation | log.c:125-174 | At every point of every run with any crashes, the disk stands for what the cache showed at an earlier moment with no operation outstanding, no older than the last completed commit: no operation is ever half durable. |
| LogMachine.Reservation | log.c:129-140 | While operations log at most MAXOPBLOCKS blocks each, logged blocks plus unused budget never exceed LOGSIZE. |
| LogMachine.NewBlockFits | log.c:213-219 | A new block within budget always fits the header; the guard trips on it exactly when the log area has no block left. Listed blocks are the subject of GuardTrips. |
| LogMachine.GuardTrips | log.c:213-233 | In every state of every run within budget, the guard trips on a new block exactly when the list has log.size - 1 entries or more, and on a listed one exactly when it has LOGSIZE or log.size - 1 or more; a full list leaves no budget. |
| LogMachine.RelogPanic | log.c:218-227 | A reachable state, with a log area larger than LOGSIZE and every operation within its budget, in which logging a block that is listed already trips the guard. |
| LogMachine.BudgetedPanic | mkfs.c:26 | A reachable state, with the log area of mkfs, in which an operation within its budget trips the guard. |
| LogMachine.Admission | log.c:125-141 | In every run within budget: after one more begin_op, log_writes within budget can make the header exceed LOGSIZE exactly when its entries, the unused blocks of the reservations and MAXOPBLOCKS do together; begin_op refuses then. |
| LogMachine.RefusedWithoutNeed | log.c:132 | A reachable state within budget in which begin_op refuses although all blocks would fit. |
| LogMachine.SleepersHaveWaker | log.c:125-174 | A process asleep on the log implies a running commit, or that the listed blocks and MAXOPBLOCKS for each outstanding operation and one more exceed LOGSIZE, and a commit or an operation that will wake it; with neither, nothing is logged. |
| Log.RedoLog.InstallTrans | log.c:69-82 | Issues exactly the installs, in order, and unpins exactly the installed blocks. |
| Log.RedoLog.ReadHead | log.c:85-96 | The in-memory list becomes the one on disk. |
| Log.RedoLog.WriteHead | log.c:101-113 | One write: the header block with the in-memory list, its other words kept. |
| Log.RedoLog.WriteLog | log.c:177-190 | Issues exactly the copies of the cached blocks to the log area, in order, and keeps them pinned. |
| Log.RedoLog.RecoverFromLog | log.c:115-122 | Issues exactly the writes of recovery and ends with an empty log. |
| Log.RedoLog.Commit | log.c:192-202 | Issues exactly the writes of a commit, in order; afterwards nothing is logged or pinned. |
| Log.RedoLog.BeginOp | log.c:125-141 | Sleeps exactly when a commit runs or n + (outstanding + 1) * MAXOPBLOCKS exceeds LOGSIZE, else joins; nothing else changes. |
| Log.RedoLog.EndOp | log.c:145-163 | The last operation starts a commit, any other wakes the sleepers; panics exactly when a commit is under way. |
| Log.RedoLog.LogWrite | log.c:213-233 | Refused exactly by the two guards; otherwise the block is listed once and pinned. |
| Bytes.SpliceWords | fs.c:389-394 | Words written into a block are read back, and every other word of the block is unchanged. |
| Bytes.ValueLittle | fs.c:390-392 | The little-endian bytes of a number below 256^n have that number as their value. |
| Bytes.SetBit | fs.c:66-68 | Sets one bit and no other. |
| Bytes.ClearBit | fs.c:89-92 | Clears one bit and no other. |
| FsState.AllocKeeps | fs.c:55-78 | Marking a free block used keeps the free map exact, with the block pending, and every file unchanged. |
| FsState.FreeKeeps | fs.c:80-95 | Clearing the bit of a pending block keeps the free map exact and every file unchanged. |
| FsState.LinkAddr | fs.c:378-388 | Putting a pending block into an empty address entry gives it exactly one slot. |
| FsState.LinkIndirect | fs.c:391-394 | Putting a pending block into an empty entry of the indirect block gives it exactly one slot. |
| FsState.PutInodeRead | fs.c:220-236 | An inode written to its block is read back, and no other inode of the disk changes. |
| FsState.InodeLayout | fs.h:29-36 | The words of a disk inode are type and major, minor and nlink, size, and the addresses, in that order. |
| FileBytes.WrittenIsOverwrite | fs.c:498-504 | Blocks written byte range by byte range hold the file overwritten at the offset. |
| FileBytes.OverwriteAt | fs.c:498-504 | Byte by byte, an overwrite has the new bytes in their range and the old ones elsewhere, and grows only when it reaches past the end. |
| FileBytes.OverwriteTwice | file.c:135-152 | Two adjoining overwrites are one overwrite of the joined bytes. |
| FsSteps.WriteGuards | fs.c:493-496 | The guards of writei, in 32-bit arithmetic, let exactly the requests through that start inside the file and end below the largest file. |
| FsSteps.WriteEnd | fs.c:498-510 | From what the write loop leaves, with the inode written through only when the file grew: the file is overwritten, every other file is the same, every inode on disk equals the one in memory, and the logged blocks are bounded. |
| FsSteps.ChunkFitsTransaction | file.c:127-133 | A chunk of filewrite from any offset logs at most MAXOPBLOCKS blocks, for a free map of any size. |
| FsSteps.MapExactly | fs.c:55-95 | Between operations a block is marked used exactly when it is metadata or sits in a slot of an inode, and then in exactly one slot of one inode. |
| FsSteps.AllocFresh | fs.c:55-78 | A block balloc returns is not 0 and sat in no slot. |
| FsSteps.FreedExactly | fs.c:407-435 | itrunc frees exactly the blocks in slots of the file. |
| FsSteps.AppendChunk | file.c:135-152 | A further accepted chunk extends the overwrite, with all other files unchanged. |
| FsSteps.ChunkRefused | file.c:135-153 | A chunk is refused exactly when the file would outgrow its largest size or the write starts past its end; then one write of everything would have been refused as well. |
| Fs.FileSystem.Balloc | fs.c:55-78 | Returns the first free block, zeroed and marked used; panics exactly when there is none. |
| Fs.FileSystem.Bzero | fs.c:41-51 | The block is zero and logged, and nothing else changes. |
| Fs.FileSystem.Bfree | fs.c:80-95 | Clears exactly the bit of the block; panics exactly when it was clear. |
| Fs.FileSystem.Bmap | fs.c:372-400 | Returns the block number in the address entry, or in the entry of the indirect block, allocating exactly when it is empty; then the file has one more zero block and every other file is the same. |
| Fs.FileSystem.Iupdate | fs.c:220-236 | Afterwards the disk inode reads as the one in memory, every other disk inode and every other block is as before, and the one block written is logged. |
| Fs.FileSystem.Writei | fs.c:481-511 | -1 exactly when the request does not fit, and then nothing changes; else the file is overwritten at the offset, all other files and inodes are the same, the disk inodes are current, and the logged blocks are bounded. A write inside the file cannot panic, and no inode, address or owner of a block changes: it allocates nothing. A device inode gives what the driver returns, or -1 without a driver. |
| Fs.FileSystem.Readi | fs.c:452-476 | -1 exactly when off lies past the end or off + n wraps; else the slice of the file, cut at its end. Nothing is allocated and nothing changes. A device inode gives what the driver returns, or -1 without a driver. |
| Fs.FileSystem.Itrunc | fs.c:407-435 | The file is empty, exactly its blocks are free, every other file is the same, and bfree never panics. |
| Fs.FileSystem.Filewrite | file.c:117-154 | All of the bytes are written exactly when one writei of them would be accepted, with the same effect; otherwise the chunks before the refused one stay. Every transaction is within MAXOPBLOCKS. |
| Umalloc.UnitsFor | umalloc.c:69 | The units asked for hold the bytes exactly when the rounding does not wrap around. |
| Umalloc.BreakMoves | umalloc.c:54 | The byte count as an int moves the break past the whole block exactly when it is below 2^31; otherwise the break stays short of the end of the block. |
| Umalloc.GrowableRequests | umalloc.c:52-69 | Rounding holds the bytes and sbrk moves past them exactly for requests of at most 0x7FFFFFF0 bytes. |
| Umalloc.OversizedRequests | umalloc.c:52-54 | 0x7FFFFFF1 bytes ask sbrk to shrink by 2^31 bytes, 0xFFFFFFF8 bytes ask it for nothing. |
| FreeList.FreedUnits | umalloc.c:33-42 | Whatever a block merges with, the free units afterwards are those before and those of the block. |
| FreeList.InsertSorted | umalloc.c:36-42 | Inserting an unmerged block keeps the list address-ordered with a gap between any two blocks. |
| FreeList.TailUnits | umalloc.c:78-82 | Cutting a block from the tail of a free one takes exactly its units. |
| Umalloc.FreedOk | umalloc.c:33-43 | After free the list is circular, address-ordered and free of adjacent blocks, and holds the old units and the freed ones. |
| Umalloc.FreeKeeps | umalloc.c:24-44 | free keeps live blocks disjoint from the list and each other, and free plus live units equal to the units from sbrk. |
| Umalloc.GrowKeeps | umalloc.c:46-61 | Freeing a fresh block from sbrk adds exactly its units to the heap, all of them free. |
| Umalloc.TakeKeeps | umalloc.c:74-85 | Taking a block out of the list makes exactly its units live. |
| Umalloc.Allocator.Search | umalloc.c:30-32 | The search loop ends, from any starting point, at the header after which the block belongs. |
| Umalloc.Allocator.Free | umalloc.c:24-44 | Exactly the freed block stops being live and exactly its units become free; the heap invariant is kept. |
| Umalloc.Allocator.Morecore | umalloc.c:46-61 | Adds at least 4096 units and at least as many as asked for, or changes nothing; a large enough block is then next to freep, every large enough block ends at the last unit added, and that unit lies below the break exactly when the byte count fits the int of sbrk. |
| Umalloc.Allocator.Scan | umalloc.c:74-86 | One trip round the list finds a large enough block or shows there is none. |
| Umalloc.Allocator.Malloc | umalloc.c:63-90 | A new live block of the units asked for, disjoint from all others, after one morecore exactly when no free block is large enough; 0 only when sbrk then fails, and then nothing is lost. The block lies below the break, and the heap invariant is kept, exactly when morecore was not needed or its byte count fits the int of sbrk. |
| ShellLex.Gettoken | sh.c:265-308 | The token lies between the cursor and the new cursor, and is not empty unless the line is at its end. |
| ShellLex.GettokenExact | sh.c:265-308 | In characters: blanks are skipped on both sides, a word is a maximal run of characters that are neither blank nor symbol, >> is one token and every other symbol its own, and the end is found exactly behind the last token. |
| ShellLex.CharClasses | sh.c:262-263 | Blanks and symbols are those of the two strings of the source. |
| ShellLex.GettokenLoop | sh.c:265-308 | The scanning loops compute that token. |
| ShellLex.PeekIsLex | sh.c:310-320 | peek for symbols sees exactly the next token. |
| ShellParse.ParseLine | sh.c:344-359 | Parsing terminates on every line, and the cursor only moves forward. |
| ShellAccept.RedirsOk | sh.c:374-397 | Redirections of the grammar, >> included, are read in order, and nothing behind them. |
| ShellAccept.ExecOk | sh.c:415-446 | A simple command, or a parenthesised line with redirections, of the grammar is read as its tree, and what follows is left. |
| ShellAccept.PipeOk | sh.c:361-372 | The same for pipelines. |
| ShellAccept.LineOk | sh.c:344-359 | The same for lines with background commands and lists. |
| ShellAccept.ExecSound | sh.c:399-446 | What parseexec consumes is a simple command or block of the grammar, with the tree it returns as its reading. |
| ShellAccept.LineSound | sh.c:344-359 | What parseline consumes is a line of the grammar, with the tree it returns as its reading. |
| ShellAccept.Sound | sh.c:327-342 | An accepted line is, to its last token, a line of the grammar within the argument bound, and the tree returned is its reading. |
| ShellAccept.Complete | sh.c:327-446 | Every line of the grammar within the argument bound is accepted, with that reading. |
| ShellAccept.Accepts | sh.c:327-446 | The parser accepts exactly the lines that have a reading within the argument bound, and there is only one. |
| ShellPrint.RenderLex | sh.c:265-308 | The text of a token sequence scans to that sequence. |
| ShellPrint.LinePrinted | sh.c:344-446 | What the printer makes of a tree has that tree as its reading in the grammar. |
| ShellPrint.RoundTrip | sh.c:327-446 | Every command tree with legal words and fewer than MAXARGS arguments per command, printed with parentheses where needed, parses, and to the same tree. |
| ShellNul.LineTokens | sh.c:344-446 | Every argument and file of a parsed tree is a maximal word of the line, arguments leave room for the terminator, and redirections have the modes and descriptors of < and >. |
| ShellNul.Reparse | sh.c:327-446 | Printing and parsing again is the identity on every tree the parser produces. |
| ShellNul.NulTerminate | sh.c:449-493 | NUL is written at the end of every counted string of the tree and nowhere else. |
| ShellNul.Isolated | sh.c:449-493 | Afterwards the C string at the start of each argument and file is the text lexed for it. |
| ShellNul.SameTree | sh.c:449-493 | With its words read as C strings from the buffer, the tree is the one that was parsed. |
| Shell.Parseredirs | sh.c:374-397 | The loop wraps the command in exactly the redirections at the cursor, or fails where the function does. |
| Shell.ParseexecArgs | sh.c:432-446 | The argument loop, filling the argument vector inside a growing tree, builds the tree of the function. |
| Shell.Parseexec | sh.c:415-446 | Equals the parse function. |
| Shell.Parseblock | sh.c:399-413 | Equals the parse function. |
| Shell.Parsepipe | sh.c:361-372 | Equals the parse function. |
| Shell.Parseline | sh.c:344-359 | Equals the parse function. |
| Shell.Parsecmd | sh.c:327-342 | Fails exactly on the lines that have no reading in the grammar within the argument bound; else the tree is that reading, also with its words read as C strings from the buffer. No word of the line and no byte behind it is overwritten, and nothing at all when the parse fails. |
| ProcTable.PTable.Allocproc | proc.c:73-91 | Takes the first unused slot and the next pid, or changes nothing when there is none. |
| ProcTable.PTable.Wakeup1 | proc.c:457-465 | Exactly the slots that sleep on the channel become runnable, with their other fields kept; no other slot changes. |
| ProcTable.PTable.Exit | proc.c:250-266 | The process is a zombie; exactly its children get init as parent; exactly the sleepers on the channel of its parent, and on that of init if a child is a zombie, become runnable; no other field of any slot changes. |
| ProcTable.PTable.Kill | proc.c:479-498 | Exactly the first slot with the pid is marked killed, and made runnable if it sleeps; without one nothing changes. |
| ProcTable.PTable.WaitScan | proc.c:280-301 | Empties the slot of the first zombie child, with pid 0, no parent and no mark of kill, and returns its pid, or says whether there are children at all. |
| ProcTree.NextKeeps | proc.c:73-312 | Every step of fork, exit, wait, kill, sleep and wakeup keeps the process-tree invariant. |
| ProcTree.ParentsLive | proc.c:180-266 | In every state of every run each published process but init has a parent that is neither unused, new nor a zombie, and init is alive. |
| ProcTree.OrphansToInit | proc.c:255-262 | After an exit every child of the process, new ones included, is a child of init. |
| ProcTree.ReapedByParent | proc.c:272-302 | Every pid a wait has returned went, at some step, to the process that was then the parent of the zombie with that pid, and the step emptied its slot. |
| ProcTree.ReapedOnce | proc.c:272-302 | Every pid that exited is either held by a zombie or was returned by exactly one wait, and pids in use are distinct. |
| ProcTree.SleepingParent | proc.c:272-312 | A parent asleep in wait has a child and no zombie child. |
| ProcTree.WaitOutcome | proc.c:280-310 | A pass of wait returns a pid exactly when a child is a zombie, and sleeps exactly when there is a child, none is a zombie, and the caller is not killed. |
| ProcTree.WakeupWakes | proc.c:457-474 | After a wakeup nobody sleeps on the channel; those who did are runnable, and no other slot changes. |
| ProcTree.KillWakes | proc.c:479-498 | After a kill the process is marked and not asleep, and no other slot changes. |
| ProcTree.BornKilled | proc.c:73-112 | A slot that is unused or new carries the mark of kill exactly when kill has hit it since it was last freed. |
| ProcTree.KilledBeforeBirth | proc.c:479-498 | A run in which kill(0) marks an unused slot and the child that fork puts there is killed before it runs. |
| Sched.NextKeeps | proc.c:322-474 | Every step of every CPU keeps the scheduler invariant and loses no wakeup. |
| Sched.OneCpuEach | proc.c:322-362 | In every state of every run no process executes on two CPUs, and a CPU executing a process has it as its current one. |
| Sched.LockFree | proc.c:322-401 | While ptable.lock is free, exactly the RUNNING processes execute; any other has a saved context. |
| Sched.LeavingHolds | proc.c:365-391 | A process that executes but is no longer RUNNING has its CPU holding ptable.lock. |
| Sched.HandOff | proc.c:339-351 | At every swtch, in both directions, the CPU holds ptable.lock before and after, and the context it enters is one that releases it. |
| Sched.SchedNeverPanics | proc.c:365-382 | The checks of sched on the lock, on other locks and on the state never fail. |
| Sched.NoLostWakeup | proc.c:417-465 | A process asleep on a channel, or past its test on the way there, with the condition true, has a thread that made it true and still has to do its wakeup. |
| Sched.WakeupMissesNobody | proc.c:457-474 | After that wakeup no process is asleep, or on its way to sleep, on the channel. |
| Sched.KillReaches | proc.c:479-498 | After a kill its target is not asleep, and a sleeping target is runnable. |
| Pipe.WrapFull | pipe.c:85 | The full test on wrapped counters is exactly a fill level of PIPESIZE. |
| Pipe.WrapIndex | pipe.c:93 | A wrapped counter indexes the same slot of the ring. |
| Pipe.HoldsPut | pipe.c:93 | Storing into a ring that is not full keeps every byte not yet read. |
| Pipe.Ring.Put | pipe.c:93 | One more byte at the end of the stream stored. |
| Pipe.Ring.Get | pipe.c:117 | The next byte of the stream not yet read. |
| Pipe.Ring.Write | pipe.c:78-98 | A pass stores bytes until all are stored or the pipe is full; it returns the count exactly in the first case, and in the second fails exactly when there is no reader or the caller is killed, else sleeps. Readers are woken except on failure. |
| Pipe.Ring.Read | pipe.c:100-121 | On a pipe with bytes or without a writer a pass returns the next bytes, the smaller of those asked for and those present; on an empty pipe with a writer it fails exactly when killed, else sleeps. Writers are woken exactly when it returns. |
| Pipe.Ring.Close | pipe.c:59-75 | Closes one end; the pipe is freed exactly when both are closed. |
| PipeMachine.RunFifo | pipe.c:78-121 | In every run, with any readers and writers and with kills, the bytes read are a prefix of the bytes stored and the fill level is between 0 and PIPESIZE. |
| PipeMachine.ReadProgress | pipe.c:100-121 | In every run a pass of a reader of n > 0 bytes on a pipe that is not empty takes a byte; a call that is not killed returns none only for n == 0 or an empty pipe with its write end closed. |
| PipeMachine.WriteComplete | pipe.c:78-98 | In every run a write that returns, not killed and with a reader there, has stored all its bytes. |
| PipeMachine.KilledAwake | pipe.c:85-110 | In every run no call of a killed thread sleeps. |
| PipeMachine.RunSleepers | pipe.c:78-121 | In every run, with kills, a writer asleep means full and read-open; a reader asleep means empty and write-open as long as no pass has stranded a reader. |
| PipeMachine.UnkilledReaders | pipe.c:100-121 | In every state reached without a kill, a reader asleep means an empty pipe whose write end is open. |
| PipeMachine.WriteReaders | pipe.c:85-98 | A pass of a writer leaves a reader asleep without reason exactly when, before it, the writer is killed, has more bytes left than the pipe holds, and a reader sleeps. |
| PipeMachine.KilledWriterStrands | pipe.c:85-89 | A run with a kill that ends with a reader asleep under a full pipe. |
| PipeMachine.FreedUnused | pipe.c:59-75 | Once both ends are closed no call on the pipe is in progress. |
| BufList.InsertFront | bio.c:50-54 | The four link assignments put a buffer behind the head of the circle. |
| BufList.Unlink | bio.c:132-133 | The two link assignments take a buffer out of the circle. |
| Bio.Cache.constructor | bio.c:38-56 | binit links all buffers and the head into one circle. |
| Bio.Cache.Lookup | bio.c:69-76 | The forward scan finds the first buffer that serves the block, or shows there is none. |
| Bio.Cache.Reclaim | bio.c:81-91 | The backward scan finds the least recently released buffer that is neither referenced nor dirty, or shows there is none. |
| Bio.Cache.Bget | bio.c:61-93 | Takes a reference to the buffer of that device and block, or recycles exactly the reusable buffer for it; panics exactly when neither exists. No other buffer changes, and the list is unchanged. |
| Bio.Cache.Brelse | bio.c:128-138 | Drops a reference; a buffer without references moves to the front of the circle. |
| BioMachine.RunInv | bio.c:61-141 | In every state of every run the list holds every buffer once, blocks have one buffer, counts, locks and contents agree. |
| BioMachine.OneBuffer | bio.c:61-93 | No two buffers serve one block of a device other than 0, and reference counts are the number of users. |
| BioMachine.CleanIsDisk | bio.c:95-116 | A valid, clean, unlocked buffer holds what its disk block holds. |
| BioMachine.RecycleSafe | bio.c:78-91 | A buffer changes its block only when nobody uses it, it is not locked and it is not dirty. |
| BioMachine.ReleaseCounts | bio.c:128-138 | brelse never drops a count below zero. |
| BioMachine.ReleaseOrder | bio.c:128-138 | In every state of every run the list is ordered by the step that last took the last reference, the latest first. |
| BioMachine.LeastRecent | bio.c:78-91 | A buffer taken for another block is, of all that are neither referenced nor dirty, the one released longest ago. |
| BioMachine.Transparent | memide.c:38-60 | The cache is transparent: a step changes what users see of a block only if it is a holder changing the data of the buffer of that block; recycling, reading, writing and releasing never do. |
| Paging.AllocKeeps | kalloc.c:82-95 | Taking the head of the free list keeps every page free once or owned once. |
| Paging.FreeKeeps | kalloc.c:59-77 | A page in nobody's tables goes back to the free list. |
| Paging.TabKeeps | vm.c:45-53 | A zeroed page becomes the page table of an empty directory entry, and no mapping changes. |
| Paging.MapKeeps | vm.c:69-77 | A page becomes the user page of exactly the entry that maps it. |
| Paging.ReleaseKeeps | vm.c:267-275 | Freeing a user page and then clearing its entry gives exactly that page back. |
| Paging.FreeOrOwned | kalloc.c:59-95 | Each page of the pool is on the free list exactly once, or owned and not on it. |
| Paging.SameFree | vm.c:342-344 | Equal owners mean equal sets of free pages. |
| AddressSpace.NoSharing | vm.c:69-77 | No physical page is mapped at two user addresses, in one address space or in two. |
| AddressSpace.PurgeUndoes | vm.c:283-298 | What a new directory gained is exactly what freevm gives back. |
| AddressSpace.GrowUndone | vm.c:233-247 | A growth that ran out of memory leaves no page behind, only page tables. |
| Vm.Memory.constructor | kalloc.c:46-53 | freerange puts every page of the pool on the free list. |
| Vm.Memory.Kfree | kalloc.c:59-77 | The page is at the front of the free list and owned by nobody. |
| Vm.Memory.Kalloc | kalloc.c:82-95 | The first free page is the caller's; none exactly when the list is empty. |
| Vm.Memory.Find | vm.c:35-55 | The page table of an entry, none exactly when the entry is absent. |
| Vm.Memory.Walkpgdir | vm.c:35-55 | The page table of an entry, created if need be, present, writable and for users; no mapping changes and no page changes hands; fails only when no page is free, with nothing changed. |
| Vm.WithPBits | vm.c:73 | Bit by bit, the flags of a mapping are those passed, with the present bit set. |
| Vm.Memory.Mappages | vm.c:60-80 | Exactly the pages of the range are mapped, to consecutive frames with the flags and the present bit; a user page becomes the directory's. Succeeds only on a range without mappings, and panics only on one with a mapping. |
| Vm.Memory.Setupkvm | vm.c:103-136 | A new directory in which KERNBASE up to PHYSTOP is physical memory from 0 on, read-only from EXTMEM to the data segment, devices are mapped to themselves, nothing is for users and nothing else is mapped; or, when memory runs out, every page where it was. |
| Vm.Memory.Allocuvm | vm.c:221-249 | The pages between the sizes are fresh and private, present, writable and for users in directory and table, with every byte 0; when memory runs out they are gone again and only page tables were gained; no other address space changes. Panics only when a page between the sizes is mapped already. |
| Vm.Memory.Deallocuvm | vm.c:255-279 | Exactly the user pages between the sizes are free and unmapped; every other mapping and page is kept. |
| Vm.Memory.Freevm | vm.c:283-298 | Exactly the pages of the directory, its tables and its user pages are free, and no other page changed. |
| Vm.Memory.Copyuvm | vm.c:315-345 | The new directory has byte-equal private copies with equal flags on fresh pages; when memory runs out every page is where it was. The old address space is unchanged either way. Panics only when a page below the size is not present. |

## Left out

- Device I/O (ide.c, uart.c, console.c, kbd.c, lapic.c, ioapic.c, mp.c), boot code and assembly: hardware registers.
- spinlock.c and sleeplock.c: acquire and release are atomic steps; memory ordering and interrupt nesting are not modelled beyond the lock count that sched checks.
- Device inodes: what a driver returns is a parameter of readi and writei.
- ialloc, iget, iput, directories and path names (fs.c, sysfile.c): the set of inodes is fixed, and an inode is truncated by a direct call of itrunc.
- Fs.FileSystem.Filewrite: one writer at a time and a file of type FD_INODE that is no device; the locks and the transaction brackets around each chunk are not part of the method. Counts are not negative: argptr (syscall.c:66) refuses those before sys_write calls filewrite.
- The file system is verified on one disk value; that this value survives crashes is the subject of the log modules, on blocks of any content.
- The file system starts from a state in which every block below a file's size is mapped and every inode on disk equals the one in memory; that mkfs.c builds such an image is not shown. The constructor of Fs.FileSystem takes a blank one, with empty inodes, and FsSteps.BlankImage shows that there is one.
- Umalloc.Allocator.Sbrk: addresses are multiples of the header size, and a failing sbrk leaves the break alone, also when it would shrink the process to nothing.
- Umalloc.Allocator.Free: the argument must come from malloc and be live, as the source demands.
- ShellPrint.RoundTrip: trees name < and > only, since > and >> build the same node, and the printer uses >; the descriptor and mode of a redirection follow from its direction, as ShellNul.LineTokens states.
- runcmd, getcmd and the main loop of sh.c.
- userinit, growproc, the memory and file handling inside fork, exit and wait, and procdump; growproc takes the result 0 of deallocuvm for a failure, so a process cannot shrink to size 0.
- ProcTree.NextKeeps: pids are unbounded; the wrap-around of nextpid is not modelled.
- Sched.NextKeeps: the scheduler may pick any runnable process, where the source takes them in table order, and fork and wait are single steps.
- Pipe.Ring.Write: the count is the length of a sequence, so negative counts are not modelled.
- PipeMachine.RunSleepers: an end of a pipe is closed only when no call on it is in progress, which the reference counts of file.c (fileclose) and single-threaded processes give.
- BioMachine.RunInv: a user that changes a buffer writes it or marks it dirty before releasing it, as the comment at the head of bio.c demands.
- Vm.Memory.Mappages: user memory is mapped one page at a time, as its callers in vm.c do, and physical addresses are page numbers; after a panic no more than the invariant is stated.
- inituvm, loaduvm, clearpteu, copyout, exec.c and the segment and page-table registers.
- User programs other than the shell parser and the allocator; formatting, string and test programs.
