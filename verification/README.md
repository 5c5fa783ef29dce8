# Verification of the systems-programming course code

Dafny models of the course's process, thread, parser, file and protocol code, with proofs of what that code
is for. `dafny verify dfyconfig.toml` checks the whole project.

| part | files | form |
|---|---|---|
| n-stage pipeline (`execute_pipeline`, `rsh_execute_pipeline`) | `Fds`, `Stages`, `Pipeline`, `PipelineTables`, `PipelineBytes`, `PipelineFlow`, `PipelineProgress`, `PipelineTermination`, `PipelineDeterminism`, `ForkPipeline` | transition system over one system call per move, and the parent's own loops as a class whose executions are runs of it |
| `exec_pipeline` with its early exits, `exec_cmd` | `ExecPipeline` | class with a descriptor table, created and reaped children; a class for the child that redirects |
| unlocked and locked counter | `RaceCounter`, `LockedCounter` | transition systems over loads, stores and lock operations; the program under an arbitrary scheduler as a loop over an array of threads |
| register allocator | `Registers` | the same, with a semaphore, a mutex and the stack |
| in-place quote-aware tokenizer | `Tokenizer`, `CStrings` | class over a character array and an argv array, against a recursive tokenizer |
| student database file | `StudentDb` | class with a file of 64-byte records and a cursor |
| two-level pipe parser | `PipeParser`, `CStrings`, `ShellLimits` | class over the line, cut in place, and an array of commands |
| command-list buffers | `CommandOwnership`, `Fresh` | class over a heap of live blocks |
| reply stream, echo protocol | `Framing`, `Protocol`, `Bytes` | receive loop over a byte channel; byte arrays |

## What the models assume

- Pipeline: one or more stages, pipes of capacity at least 1, descriptors 0, 1 and 2 open on entry, an entry table
  without pipe ends, and, for the remote shell, an open socket whose descriptor is above 2. A stage is any
  deterministic program with private memory that reads descriptor 0 and writes descriptor 1; it may exit before reading
  everything, and a failed `execvp` is a stage that exits at once. Wiring, absence of deadlocks, conservation of bytes and
  determinism of the output need no more. For the results that give the output as a composition every stage ends by
  itself once its input has ended; `PipelineTermination` says which other programs, endless ones included, still make
  every schedule finite. The file or socket behind the first stage delivers
  its bytes and then end of file, and the outer output always takes a byte; progress depends on that. `fork` copies the
  table, exit closes it, a `write` to a pipe without readers kills the writer, a `read` reports end of file only when the
  pipe is empty and no process has a write end (POSIX.1-2017, System Interfaces, `read()` and `write()`).
- `exec_pipeline`: a `pipe` call fails when fewer than two descriptors are free, a `fork` when there is no room for a
  child; both numbers are arbitrary.
- Threads: sequentially consistent loads and stores; one move per lock, load, store, unlock or semaphore operation.
  The numbers of threads, iterations, customers and registers are arbitrary; a final count of n*m is assumed to fit an
  `int`. An access outside the register array would have no effect in the model; it is proved never to happen.
- Tokenizer: a line that, leading whitespace removed, is shorter than 320 characters, as the buffer needs. A store behind
  the nine slots of `argv` has no effect in the model; it is reported, and proved to happen exactly with nine or more tokens.
- Remote shell client: a connection delivers bytes in order. The server gets each command in one piece and answers it with
  one reply, unless it closes the connection.
- Database: a record-aligned file and an id whose offset `id * 64` fits the 32-bit `int` it is computed in.
- Parsers: segments that are copied with `strcpy` fit their destination.
- Echo: requests are read from a buffer that holds the announced payload.

## Where code and documentation differ

The models follow the code.

- `add_student` is described as storing a student at the location computed from the id. It reads that slot and does not
  seek back, so into an empty slot inside the file it writes one slot further on (`StudentDb.AddKeepsSlotsIff` gives the
  exact condition, `StudentDb.ReAddIsMisplaced` a run), and there it may overwrite another student's record
  (`StudentDb.AddDestroysNeighbour`). A later delete then empties the slot of the wrong student
  (`StudentDb.DelRemovesNeighbour`) or finds nothing. `StudentDb.AddLosesNobodyIff`, `StudentDb.DelLosesNobodyIff` and
  `StudentDb.AsExpectedIff` say exactly when this happens after any run. `add_student` and `del_student` also take a slot as
  empty when its id is 0, where the description compares all bytes.
- `extract_msg` is commented as checking the length, but it refuses buffers longer than the message and accepts ones cut
  short. Its check is 16 bits wide, so a message that announces more than 65525 bytes is refused whole
  (`Protocol.ExtractedIff`).
- The tokenizer drops a word that runs into a quote: `ab"c"` gives only `c` (`Tokenizer.WordBeforeQuoteIsDropped`).
  `Tokenizer.NothingDroppedIff` says exactly which lines lose characters. With nine or more tokens the NULL behind the
  arguments is stored outside `argv` (`Tokenizer.CmdBuff.BuildCmdBuff`, `Tokenizer.NineTokensOverrun`).
- The client prints a reply with `%.*s`, which stops at the NUL that `send_message_string` sends before the marker, so
  whether the marker byte is printed depends on how the reply was cut up (`Framing.StringMessagePrints`).
- `exec_pipeline` leaves earlier pipes open when a later `pipe()` fails, which happens if and only if at least one pipe fits
  and not all of them do, and leaves the children of an abandoned pipeline unwaited for
  (`ExecPipeline.Shell.ExecPipeline`, `ExecPipeline.PipelineSucceedsIff`).
- The client reads one reply per command. A command that is not found makes the server send two messages that end with the
  marker, one from the child (`rsh_server.c:570`) and one from the server itself (`rsh_server.c:398`), before it gives up the
  session; `Framing.TwoMessages` says what the client makes of that.

## Model

| member | source | states |
|---|---|---|
| PipelineProgress.PipelineComputesComposition | demos/process-thread/5-pipe-handling/fork-pipeline.c:17-67 | On every schedule of parent and children the output is a prefix of the composition of all stage functions applied to the input; when the call has returned it is all of it, every child has exited and the caller's descriptor table is the one on entry |
| PipelineTermination.PipelineTerminates | demos/process-thread/5-pipe-handling/fork-pipeline.c:17-66 | Every stage is one of three kinds: it stops by itself whatever it reads, it ends once its input has ended, or it writes now and then, even for ever; and directly behind each stage of the third kind comes one that is not of the second. Then no schedule is longer than a bound fixed by the job, and each can be extended until the call has returned with every child waited for and the table restored: a stage that stops breaks the pipes of the producers before it and ends the input of the stages behind it |
| PipelineTermination.FiltersAreBounded | demos/process-thread/5-pipe-handling/fork-pipeline.c:17-66 | PipelineTerminates covers every job whose stages all end once their input has ended |
| PipelineTermination.ProducerNeedsStopper | demos/process-thread/5-pipe-handling/fork-pipeline.c:34-66 | The condition on neighbours cannot be dropped: with an endless producer before a stage that waits for the end of its input there are schedules of every length that never return |
| PipelineProgress.PipelineIsWired | demos/process-thread/5-pipe-handling/fork-pipeline.c:26-61 | Whatever the programs, in every reachable state in which the parent has closed its ends and all children have exec'd, each live child holds the read end of its input pipe only as descriptor 0 and the write end of its output pipe only as descriptor 1, and no process holds any other pipe end |
| PipelineProgress.PipelineNeverDeadlocks | demos/process-thread/5-pipe-handling/fork-pipeline.c:17-66 | Whatever the programs, terminating or not, in every reachable state before the return some process can move |
| PipelineTermination.StepCosts | demos/process-thread/5-pipe-handling/fork-pipeline.c:34-66 | Every move lowers a bound in which a producer may write only what its pipe has room for and its reader may still read, and a filter read only what its pipe holds and its writer may still write |
| PipelineTermination.RunningEffect | demos/process-thread/5-pipe-handling/fork-pipeline.c:44-48 | One action of a program ends it, adds one byte to its own pipe when there is room, takes one byte from the pipe or file before it, or sees the end of file; nothing else moves |
| PipelineBytes.PipelineConservesBytes | demos/process-thread/5-pipe-handling/fork-pipeline.c:34-48 | Whatever the programs, at every point of every schedule the bytes written to a pipe are the bytes read from it followed by those in flight, never more in flight than the capacity; the input is what the first stage has read and what is left, and the output what the last stage has written |
| PipelineBytes.StepBytes | demos/process-thread/5-pipe-handling/fork-pipeline.c:34-48 | Every move keeps these equations and the tables |
| PipelineProgress.PipesCarryComposition | demos/process-thread/5-pipe-handling/fork-pipeline.c:34-48 | When every stage ends with its input, what has been written to or read from a pipe is a prefix of what the composition sends through it |
| PipelineDeterminism.OutputIsDetermined | demos/process-thread/5-pipe-handling/fork-pipeline.c:13-67 | Whatever the programs, endless producers and early exits included: of any two runs of the same stages on the same input, complete or not, what has gone through each pipe in one is a prefix of what has gone there in the other, or the reverse; what a complete run writes extends what any other run has written; and two complete runs write the same. Schedules, pipe capacities, descriptor numbers and a socket at the ends make no difference |
| PipelineDeterminism.StepHistories | demos/process-thread/5-pipe-handling/fork-pipeline.c:34-48 | Every move keeps: each program is where some number of its actions on its own input stream lead, and it is dead only if it exited by itself or nobody reads it any more |
| PipelineDeterminism.StreamsComparable | demos/process-thread/5-pipe-handling/fork-pipeline.c:34-48 | In any two reachable states of such runs the input streams of a stage are comparable, end of file included: one may yet become the other |
| ForkPipeline.System.ExecutePipeline | demos/process-thread/5-pipe-handling/fork-pipeline.c:17-67 | The parent's own loops, with the children preempting it between any two system calls, for every job that PipelineTerminates covers: returns with all children waited for and the descriptor table restored, and if every stage ends with its input exactly the composition has been written; the execution is a run of the transition system |
| ForkPipeline.System.CreatePipes | demos/process-thread/5-pipe-handling/fork-pipeline.c:21-26 | The pipe loop creates all n-1 pipes before the first fork; the table gains exactly their descriptors |
| ForkPipeline.System.ForkAll | demos/process-thread/5-pipe-handling/fork-pipeline.c:29-55 | The fork loop creates n children in a reachable state, whatever the earlier ones did meanwhile |
| ForkPipeline.System.CloseAll | demos/process-thread/5-pipe-handling/fork-pipeline.c:57-61 | The parent's close loop restores the caller's table, while children run in between |
| ForkPipeline.System.WaitAll | demos/process-thread/5-pipe-handling/fork-pipeline.c:63-66 | The wait loop ends, with every child exited: some child can always move until the awaited one has |
| PipelineTables.RedirectsWire | assignments/6-RShell/starter/rsh_server.c:544-558 | The dup2 calls of child i put its input end at 0 and its output end at 1, the socket at 0 for the first and at 1 and 2 for the last child, and change nothing else |
| PipelineTables.CloseLoopWires | demos/process-thread/5-pipe-handling/fork-pipeline.c:44-48 | After the close loop a child's table is the entry table with exactly its standard descriptors replaced; no pipe descriptor is left |
| PipelineTables.ChildHolds | demos/process-thread/5-pipe-handling/fork-pipeline.c:33-51 | From fork to exit a child never gives up its own write end or its own read end, even in the middle of its dup2 and close calls |
| PipelineTables.StepTables | demos/process-thread/5-pipe-handling/fork-pipeline.c:17-67 | Every move of parent or child keeps the descriptor table of every process equal to the one its program position calls for |
| PipelineTables.SettledIsWired | assignments/6-RShell/starter/rsh_server.c:536-579 | The same exact wiring from the table invariant, with or without the socket at both ends |
| Fds.CloseLoopRestores | demos/process-thread/5-pipe-handling/fork-pipeline.c:57-61 | Closing every descriptor that pipe() returned gives back exactly the table from before the pipes |
| Fds.WithPipesKeys | demos/process-thread/5-pipe-handling/fork-pipeline.c:21-26 | Creating the pipes opens exactly the returned descriptors, all of them unused before, and leaves every earlier descriptor as it was |
| Fds.WithPipesEnds | demos/process-thread/5-pipe-handling/fork-pipeline.c:21-26 | Later pipes never disturb earlier ones: each returned pair still names its own read and write end |
| PipelineFlow.EofMeansAll | demos/process-thread/5-pipe-handling/fork-pipeline.c:34-48 | A stage sees end of file only after it has read its complete input: a writer that is gone has finished, it was not killed |
| PipelineBytes.WriterOpen | demos/process-thread/5-pipe-handling/fork-pipeline.c:33-51 | Only the exit of the writing child can leave a pipe without a write end, because the close loops leave it one |
| PipelineBytes.ReaderOpen | demos/process-thread/5-pipe-handling/fork-pipeline.c:33-51 | Only the exit of the reading child can leave a pipe without a read end, so a writer is killed only when nobody will read on |
| PipelineFlow.StepFlow | demos/process-thread/5-pipe-handling/fork-pipeline.c:17-67 | Every move keeps: what a stage has written plus what it will write from the rest of its complete input is its stream function's output |
| PipelineProgress.ExitedNeighbours | demos/process-thread/5-pipe-handling/fork-pipeline.c:44-61 | Once all close loops are done, an exited writer means end of file and an exited reader means a broken pipe: no stray copy of an end keeps it open |
| PipelineProgress.FedStageMoves | demos/process-thread/5-pipe-handling/fork-pipeline.c:34-48 | A stage that has input or whose writer is gone can move, or a full pipe behind it feeds a later stage that can |
| PipelineProgress.FirstLiveMoves | demos/process-thread/5-pipe-handling/fork-pipeline.c:63-66 | If any child is alive, some child can move |
| PipelineProgress.NeverStuck | demos/process-thread/5-pipe-handling/fork-pipeline.c:17-66 | In every reachable state before the return a concrete enabled move exists |
| PipelineProgress.PlumbingNeverWaits | demos/process-thread/5-pipe-handling/fork-pipeline.c:33-48 | In every reachable state a child in its dup2 or close calls can move, whatever the parent and the others are doing |
| PipelineProgress.ProgramWaitsIff | demos/process-thread/5-pipe-handling/fork-pipeline.c:34-66 | In every reachable state a program has to wait exactly to write while its pipe is full and some process can read it, and to read while its pipe is empty and some process can write it; once everybody is wired up that process is its live neighbour |
| PipelineProgress.ProgramDescriptors | assignments/6-RShell/starter/rsh_server.c:536-579 | In every reachable state a program that has been started has its input at 0 and its output at 1, at the two ends the caller's own or the socket, which the last one also has at 2, and apart from that exactly the caller's descriptors |
| ExecPipeline.Shell.ExecPipeline | assignments/5-ShellP3/submission/dshlib.c:142-332 | From the arguments, the free descriptors and the room for children alone: no command gives WARN_NO_CMDS; OK_EXIT comes if and only if the pipes fit and the first command is exit; a single cd is OK without a child; two and more commands are OK if and only if the pipes fit, there is room for all and none is exit or cd. Children are created up to the first built-in or until there is no more room, exactly the OK path waits for them, and the caller's descriptor table comes back if and only if all the pipes fit or not even one does; otherwise exactly the pipes that fitted stay open |
| ExecPipeline.Shell.CloseAll | assignments/5-ShellP3/submission/dshlib.c:322-325 | The close loop restores the table from before the pipes |
| ExecPipeline.PipelineSucceedsIff | assignments/5-ShellP3/submission/dshlib.c:249-331 | For two and more commands: OK if and only if the pipes fit, no command is built in and every fork finds room; children stay unwaited for exactly when a later command is built in or a later fork fails, and they are the commands before that point |
| ExecPipeline.Shell.CreatePipes | assignments/5-ShellP3/submission/dshlib.c:249-254 | The pipe loop makes all n-1 pipes, or as many as there are pairs of free descriptors |
| ExecPipeline.Shell.ForkAll | assignments/5-ShellP3/submission/dshlib.c:256-320 | The fork loop creates a child for each command before the first built-in while there is room; every early return has closed all pipes |
| ExecPipeline.Shell.WaitAll | assignments/5-ShellP3/submission/dshlib.c:327-330 | The wait loop reaps every child once |
| ExecPipeline.Shell.ExecCmd | assignments/5-ShellP3/submission/dshlib.c:177-183 | In the parent: one child, waited for (lines 223-226), and OK, or no child and an error |
| ExecPipeline.Child.Redirect | assignments/5-ShellP3/submission/dshlib.c:185-222 | In the child: it starts the program with the input file at 0 and the output file at 1 if they are given and the shell's own there otherwise, every other descriptor as in the shell and none besides; never with the same file for both |
| ExecPipeline.Child.RedirectTo | assignments/5-ShellP3/submission/dshlib.c:193-201 | open, dup2, close: the file ends up on the standard descriptor only, or the table is untouched |
| ExecPipeline.LeakIsExact | assignments/5-ShellP3/submission/dshlib.c:249-254 | Pipes that stay open change the table unless there are none |
| RaceCounter.OutcomesAreExactly | demos/process-thread/4-posix-threads/thread-rc.c:35-41 | For n >= 2 threads of m >= 2 iterations a value is the final counter of some complete run if and only if it lies between 2 and n*m |
| RaceCounter.OutcomeWithinBounds | demos/process-thread/4-posix-threads/thread-rc.c:35-41 | No complete schedule ends below 2 or above n*m |
| RaceCounter.ReachLarge | demos/process-thread/4-posix-threads/thread-rc.c:35-41 | Every value from m to n*m is reached by a constructed schedule in which one stale store wipes out the right number of increments |
| RaceCounter.ReachSmall | demos/process-thread/4-posix-threads/thread-rc.c:35-41 | Every value from 2 to m-1 is reached by a constructed schedule with two nested stale stores |
| RaceCounter.StaleStore | demos/process-thread/4-posix-threads/thread-rc.c:36-38 | A thread that loaded 0 first resets the counter to 1 after any number of the others' iterations |
| RaceCounter.SecondStaleStore | demos/process-thread/4-posix-threads/thread-rc.c:36-38 | The last iteration of the others, having loaded 1, resets the counter to 2 after any number of thread 0's iterations |
| RaceCounter.StepInv | demos/process-thread/4-posix-threads/thread-rc.c:36-38 | Every move keeps: no value is ahead of the stores made, and a thread past its first store never again works on 0 |
| RaceCounter.MoveThread | demos/process-thread/4-posix-threads/thread-rc.c:35-39 | One load, increment or store of one thread has exactly the effect of a step of the transition system |
| RaceCounter.RunThreads | demos/process-thread/4-posix-threads/thread-rc.c:47-82 | The whole program under any scheduler ends, with a counter between 2 and n*m |
| LockedCounter.LockedCounterIsExact | demos/process-thread/4-posix-threads/thread-coordination.c:35-41 | On every schedule at most one thread is between lock and unlock, the number of moves is bounded, some thread can move until all are done, and then the counter is n*m |
| LockedCounter.BlockedIff | demos/process-thread/4-posix-threads/thread-coordination.c:35-41 | In every reachable state a thread has to wait exactly at a lock, and there exactly when it is finished or another thread is between lock and unlock |
| LockedCounter.StepInv | demos/process-thread/4-posix-threads/thread-coordination.c:36-40 | Every move keeps: the counter is the number of stored increments, the mutex names the one thread inside, and that thread's copy is current |
| LockedCounter.NeverStuck | demos/process-thread/4-posix-threads/thread-coordination.c:35-41 | While a thread is unfinished, the holder of the mutex or an unfinished thread can move |
| LockedCounter.MoveThread | demos/process-thread/4-posix-threads/thread-coordination.c:36-40 | One statement of one thread has exactly the effect of a step of the transition system |
| LockedCounter.RunThreads | demos/process-thread/4-posix-threads/thread-coordination.c:47-78 | The whole program under any scheduler ends with the counter at n*m |
| Registers.RegistersPartition | demos/process-thread/4-posix-threads/thread-supermarket.c:11-55 | On every schedule of n customers and k registers the free entries and the held registers partition {1..k}: no two customers hold the same register and none that is held is free |
| Registers.StackNeverOverruns | demos/process-thread/4-posix-threads/thread-supermarket.c:17-52 | On every schedule the semaphore plus the customers inside is k, every pop finds top >= 0 and every push finds top < k-1 |
| Registers.EveryoneIsServed | demos/process-thread/4-posix-threads/thread-supermarket.c:31-77 | With k >= 1 no schedule is longer than ten moves a customer, some customer can move until all have left, and then the semaphore, the stack pointer and the set of registers are as at the start |
| Registers.BlockedIff | demos/process-thread/4-posix-threads/thread-supermarket.c:17-52 | In every reachable state a customer has to wait exactly in front of the semaphore while k customers are behind it, and at a lock while another customer is inside get_register or release_register |
| Registers.AllCanBeHeld | demos/process-thread/4-posix-threads/thread-supermarket.c:17-52 | Any k customers, in any order, can hold all k registers at once: a schedule is constructed in which the j-th of them holds register k-j |
| Registers.AccessesInBounds | demos/process-thread/4-posix-threads/thread-supermarket.c:19-27 | In every state that keeps mutual exclusion, the semaphore sum and the partition, the pending stack access lies inside the array |
| Registers.StepInv | demos/process-thread/4-posix-threads/thread-supermarket.c:17-52 | Every move keeps mutual exclusion, the semaphore sum and the partition |
| Registers.PopSection | demos/process-thread/4-posix-threads/thread-supermarket.c:17-22 | Undisturbed, the four moves of get_register take the top of the free stack into the customer's hands and change nothing else |
| Registers.PushSection | demos/process-thread/4-posix-threads/thread-supermarket.c:25-29 | Undisturbed, the four moves of release_register put the customer's register on top of the free stack and change nothing else |
| Registers.PopInOneGo | demos/process-thread/4-posix-threads/thread-supermarket.c:17-22 | Calling GetRegister leads to the same state as the four moves |
| Registers.PushInOneGo | demos/process-thread/4-posix-threads/thread-supermarket.c:25-29 | Calling ReleaseRegister leads to the same state as the four moves |
| Registers.Checkout.constructor | demos/process-thread/4-posix-threads/thread-supermarket.c:11-14 | The stack holds 1..k with k on top |
| Registers.Checkout.GetRegister | demos/process-thread/4-posix-threads/thread-supermarket.c:17-22 | Pops the top of the stack |
| Registers.Checkout.ReleaseRegister | demos/process-thread/4-posix-threads/thread-supermarket.c:25-29 | Pushes the register on the stack |
| Registers.MoveCustomer | demos/process-thread/4-posix-threads/thread-supermarket.c:31-55 | One semaphore, mutex or stack operation of one customer has exactly the effect of a step of the transition system, in bounds |
| Registers.RunCustomers | demos/process-thread/4-posix-threads/thread-supermarket.c:57-80 | The whole program under any scheduler serves every customer and ends with the semaphore, the stack pointer and the set of registers as at the start |
| Tokenizer.CmdBuff.BuildCmdBuff | assignments/4-ShellP2/submission/dshlib.c:91-135 | A blank line is refused without touching anything; otherwise the C strings read at argv[0..argc) from the overwritten buffer are exactly the first nine tokens of the line or all of them, stored one behind the other without overlap. The store of the NULL behind them misses the nine slots if and only if the line has more than eight tokens |
| Tokenizer.NineTokensOverrun | assignments/4-ShellP2/submission/dshlib.c:127-132 | There is a line that fits the buffer and has too many tokens for the NULL |
| Tokenizer.CmdBuff.EndArguments | assignments/4-ShellP2/submission/dshlib.c:132 | The slot behind the last argument is NULL, unless nine arguments have left none |
| Tokenizer.CmdBuff.ScanText | assignments/4-ShellP2/submission/dshlib.c:100-134 | The in-place scan leaves the reference tokenizer's tokens, up to the ninth, in the buffer with increasing starts and their own terminators |
| Tokenizer.CmdBuff.ScanChar | assignments/4-ShellP2/submission/dshlib.c:105-125 | One character of the scan: what is stored plus what the reference tokenizer makes of the unread text stays the whole token list |
| Tokenizer.CmdBuff.CutArgument | assignments/4-ShellP2/submission/dshlib.c:111-113 | Storing a NUL and the start adds one token and disturbs neither the stored tokens nor the unread text |
| Tokenizer.CmdBuff.CutLast | assignments/4-ShellP2/submission/dshlib.c:127-130 | The end of the line ends a word or an unclosed non-empty quote, if a slot is left |
| Tokenizer.CmdBuff.CopyIn | assignments/4-ShellP2/submission/dshlib.c:98 | strcpy: the text and one NUL, the rest of the buffer untouched |
| Tokenizer.CmdBuff.Alloc | assignments/4-ShellP2/submission/dshlib.c:57-67 | No structure or no memory, or a zeroed buffer of 320 characters and nine NULL slots |
| Tokenizer.NothingDroppedIff | assignments/4-ShellP2/submission/dshlib.c:105-132 | For every line the arguments put together are its quoted characters and its unquoted characters other than spaces if and only if no unquoted word is directly followed by a quote; otherwise some are lost |
| Tokenizer.WordBeforeQuoteIsDropped | assignments/4-ShellP2/submission/dshlib.c:106-109 | The line ab"c" gives the one argument c |
| Tokenizer.RenderRoundTrip | assignments/4-ShellP2/submission/dshlib.c:91-134 | Reading back any argument list gives the list: each argument bare or in double quotes, with any runs of the six whitespace characters of the C locale between and around; a quoted one may be empty, hold whitespace and touch the next one, a bare one is not empty and has whitespace behind it |
| Tokenizer.ArgumentRoundTrip | assignments/4-ShellP2/submission/dshlib.c:91-135 | The same for the in-place tokenizer: the rendered arguments, up to the ninth, lie in its buffer as the C strings that argv points at, whatever was in it before; more than eight are reported, and a line without arguments is refused |
| Tokenizer.WordTokens | assignments/4-ShellP2/submission/dshlib.c:105-125 | A word is an argument if a space or the end follows, and is dropped if a quote follows |
| Tokenizer.QuotedTokens | assignments/4-ShellP2/submission/dshlib.c:105-131 | A closed quote is an argument even when empty; an unclosed one is an argument only if it is not empty |
| Tokenizer.StoredStrings | assignments/4-ShellP2/submission/dshlib.c:98-134 | What is stored is what C reads back at each argv entry |
| Tokenizer.StoredFrame | assignments/4-ShellP2/submission/dshlib.c:111-119 | Stores behind the stored tokens never alter them |
| StudentDb.CompressPreservesMeaning | assignments/2-StudentDB/submission/sdbsc.c:432-473 | For every file and every id, finding gives the same record or none after compression, counting the same number, printing the same sequence; the result has no empty record and compressing again changes nothing |
| StudentDb.CompressKeepsFind | assignments/2-StudentDB/submission/sdbsc.c:63-95 | Dropping empty records never changes which record a full scan finds first |
| StudentDb.DatabaseRefinesMap | assignments/2-StudentDB/submission/sdbsc.c:63-271 | From the empty file, over any run of finds, counts, deletes and adds that hit their own slot, the file is the finite map the caller has in mind: one slot per id, length given by the largest id added, scan and slot lookup agree, the count is the map's size |
| StudentDb.RunRefines | assignments/2-StudentDB/submission/sdbsc.c:122-216 | The same from any file that has one slot per id |
| StudentDb.StepRefines | assignments/2-StudentDB/submission/sdbsc.c:122-216 | One operation keeps one slot per id and does to the file's map what it does to the caller's |
| StudentDb.FindIsLookup | assignments/2-StudentDB/submission/sdbsc.c:63-95 | With one slot per id the full scan is a map lookup |
| StudentDb.CountIsMapSize | assignments/2-StudentDB/submission/sdbsc.c:242-271 | The scan counts each occupied slot once |
| StudentDb.ScansAnswerLikeMap | assignments/2-StudentDB/submission/sdbsc.c:63-271 | For any file with one slot per id, the full scan, the direct slot access and the count all answer like the map |
| StudentDb.Perform | assignments/2-StudentDB/submission/sdbsc.c:63-271 | Each operation of the program, on any file, gives the answer and the file that the specification says |
| StudentDb.Replay | assignments/2-StudentDB/submission/sdbsc.c:63-271 | Over any such run from the empty file every answer the program gives is the map's answer |
| StudentDb.AddKeepsSlotsIff | assignments/2-StudentDB/submission/sdbsc.c:122-153 | Adding keeps one slot per id if and only if the slot is at or past the end of the file or taken: into an empty slot inside the file the record lands one slot too far |
| StudentDb.AsExpectedIff | assignments/2-StudentDB/submission/sdbsc.c:63-271 | After any run at all from the empty file, the next operation answers and acts as on the set of students that the scan finds if and only if a look at two slots allows it: a delete finds the student in its own slot, or finds neither the student before in that slot nor the student in the slot behind; an add finds its slot taken while the student is in it or in the one behind, or finds its slot at or past the end of the file, or finds its slot and the one behind empty |
| StudentDb.AddLosesNobodyIff | assignments/2-StudentDB/submission/sdbsc.c:122-153 | On every file that a run can reach, an add leaves all other students findable if and only if it hits its own slot, or the slot behind is empty or holds a record with the same id; otherwise the student with the next id is lost |
| StudentDb.DelLosesNobodyIff | assignments/2-StudentDB/submission/sdbsc.c:177-216 | On every file that a run can reach, a delete leaves all other students findable if and only if the addressed slot does not hold the student before; otherwise that one is lost |
| StudentDb.AddDestroysNeighbour | assignments/2-StudentDB/submission/sdbsc.c:131-146 | Add 2, add 1: both adds are reported as done, and student 2 is gone |
| StudentDb.DelRemovesNeighbour | assignments/2-StudentDB/submission/sdbsc.c:177-216 | Add 3, add 1, delete 2: the delete of a student never added is reported as done, and student 1 is gone |
| StudentDb.RunStaysOnce | assignments/2-StudentDB/submission/sdbsc.c:122-216 | Over any run at all, with whatever adds and deletes, a record lies in its own slot or in the next one, and no student in both |
| StudentDb.FindOnce | assignments/2-StudentDB/submission/sdbsc.c:63-95 | On such a file the scan finds a student in its own slot or in the next one, or not at all |
| StudentDb.CountOnce | assignments/2-StudentDB/submission/sdbsc.c:242-271 | On such a file the count is the number of students that the scan finds, displaced ones included |
| StudentDb.ReAddIsMisplaced | assignments/2-StudentDB/submission/sdbsc.c:131-146 | Add 1, delete 1, add 1: the scan finds student 1 but its slot is empty and deleting it has no effect |
| StudentDb.Database.GetStudent | assignments/2-StudentDB/submission/sdbsc.c:63-95 | The read loop returns the first record with the id that is not all zero, or that there is none |
| StudentDb.Database.AddStudent | assignments/2-StudentDB/submission/sdbsc.c:122-153 | The return code and the new file: the record written where the read left the cursor has the id, the gpa, the first name cut off or padded with NULs to 24 bytes and the last name to 32; every other record is as before or, in a hole, all zero |
| StudentDb.AddThenGet | assignments/2-StudentDB/submission/sdbsc.c:63-153 | After an add that returns NO_ERROR the scan for the id finds that record, on every file that a run can reach; the add is refused if and only if the slot is taken |
| StudentDb.Database.DelStudent | assignments/2-StudentDB/submission/sdbsc.c:177-216 | The return code and the new file: the student's own slot is all zero, every other record as before |
| StudentDb.Database.CountDbRecords | assignments/2-StudentDB/submission/sdbsc.c:242-271 | The read loop counts the non-empty records |
| StudentDb.Database.PrintDb | assignments/2-StudentDB/submission/sdbsc.c:306-340 | The read loop prints the non-empty records in file order |
| StudentDb.Database.CompressDb | assignments/2-StudentDB/submission/sdbsc.c:432-473 | The copy loop leaves exactly the non-empty records, in order, and a rewound cursor |
| PipeParser.CommandLineRoundTrip | assignments/3-ShellP1/submission/dshlib.c:37-111 | A line typed as segments between pipes, each with any whitespace in front and words with any runs of blanks, tabs and newlines between and behind them, gives for each segment the first word and the other words joined by single spaces; a blank segment gives an empty command; nine and more segments are refused |
| PipeParser.RenderRoundTrip | assignments/3-ShellP1/submission/dshlib.c:37-111 | Splitting such a line at the pipes and parsing each segment inverts the typing, for any number of segments |
| PipeParser.ParseSegment | assignments/3-ShellP1/submission/dshlib.c:47-107 | A typed segment means its words, and only the whitespace in front of it is not stored |
| PipeParser.FieldsOfSpaced | assignments/3-ShellP1/submission/dshlib.c:75-103 | Words come back one by one whatever runs of blanks, tabs and newlines stand between and behind them |
| PipeParser.JoinedWords | assignments/3-ShellP1/submission/dshlib.c:97-101 | The joined arguments split at spaces into the words, with exactly one space between two of them |
| PipeParser.FieldsOfPieces | assignments/3-ShellP1/submission/dshlib.c:39-54 | Segments joined with pipes come back one by one |
| PipeParser.CommandList.SplitCommands | assignments/3-ShellP1/submission/dshlib.c:37-57 | The segments, leading whitespace removed, are stored in order; a ninth one is refused; in the caller's line exactly the pipes behind a segment have become NULs, all of them on OK |
| PipeParser.CommandList.NextSegment | assignments/3-ShellP1/submission/dshlib.c:53 | strtok_r in place yields the next segment as the C string it points at and cuts the line behind it |
| CStrings.StrTokR | assignments/3-ShellP1/submission/dshlib.c:39-53 | strtok_r as a scan over the buffer: where the field lies, where the next call goes on, and the one NUL it stores |
| CStrings.FieldsFromIs | assignments/3-ShellP1/submission/dshlib.c:39-54 | The fields found by position are those of the string function that the parser is specified with |
| PipeParser.CommandList.SplitArgs | assignments/3-ShellP1/submission/dshlib.c:73-108 | The second pass leaves the first field as executable and joins the others; it cannot fail and touches no other command |
| PipeParser.CommandList.JoinArgs | assignments/3-ShellP1/submission/dshlib.c:87-103 | The strcat loop joins the fields with single spaces; the size check can never fire for a segment that fitted |
| PipeParser.CommandList.BuildCmdList | assignments/3-ShellP1/submission/dshlib.c:60-111 | The return code for every line, and on OK the meaning of each segment in order |
| CommandOwnership.CommandList.BuildCmdList | assignments/6-RShell/starter/dshlib.c:335-395 | On OK the live heap blocks are those from before plus one per non-blank segment, in order, 1 to 8 of them; on every other return, a failed malloc included, the heap is as before the call |
| CommandOwnership.BuildTypedList | assignments/6-RShell/starter/dshlib.c:335-395 | On a line typed as segments: too many if and only if some segment comes behind eight with words; otherwise one block for each segment with words, holding its text without the whitespace in front, in order, all different, and no other block gained or lost |
| CommandOwnership.CommandList.AddSegments | assignments/6-RShell/starter/dshlib.c:350-382 | At every exit of the segment loop exactly one buffer per accepted segment is owned |
| CommandOwnership.CommandList.AddSegment | assignments/6-RShell/starter/dshlib.c:352-375 | A blank segment gives its buffer back, a failed malloc obtains none, any other segment keeps it |
| CommandOwnership.CommandList.FreeCmdList | assignments/6-RShell/starter/dshlib.c:397-404 | Frees exactly the list's buffers, each once: what is left is the heap from before the list was built |
| CommandOwnership.CommandList.AllocCmdBuff | assignments/6-RShell/starter/dshlib.c:15-29 | A new block for one command, or NULL and an unchanged heap |
| CommandOwnership.CommandList.FreeCmdBuff | assignments/6-RShell/starter/dshlib.c:32-52 | Releases one command's buffer and clears the pointer |
| CommandOwnership.CommandList.BuildCmdBuff | assignments/6-RShell/starter/dshlib.c:72-82 | A blank segment is refused; any other is copied into the command's own buffer only |
| CommandOwnership.OwnedBlocks | assignments/6-RShell/starter/dshlib.c:397-404 | Ownership means: distinct live blocks with the right texts, in order, and no live block besides them and the earlier ones |
| CommandOwnership.OwnedAppend | assignments/6-RShell/starter/dshlib.c:352-373 | A newly allocated block in the next slot extends the ownership |
| Framing.Client.ReceiveReply | assignments/6-RShell/starter/rsh_cli.c:127-144 | Over a byte channel that recv may cut anywhere and the server may fill or close at any time: the loop takes the bytes sent, in order, up to the first piece that the marker ends. If they are one reply it takes exactly that reply and leaves the channel empty, unless recv fails or the server closes before the reply is complete; then it has taken a proper part of it |
| Framing.Client.RunCommand | assignments/6-RShell/starter/rsh_cli.c:121-145 | After a command the server sends its reply; when the client has read it, the channel is empty and what was taken and printed for this command is that reply |
| Framing.Client.RunCommands | assignments/6-RShell/starter/rsh_cli.c:111-145 | In a session in which the server answers each command with one reply once it has got the command, replies never mix: the bytes taken for command r are exactly reply r, what is printed for it is what some cutting of it shows, and the channel is empty in between; a failure cuts the session short inside the current reply |
| Framing.Client.Recv | assignments/6-RShell/starter/rsh_cli.c:129 | recv delivers any non-empty piece within its limit of what the server has sent so far, or nothing once the server has closed and all is read, or fails |
| Framing.TwoMessages | assignments/6-RShell/starter/rsh_server.c:393-401 | If the server sends two messages for one command, the client stops after the first, leaving the second for its next command, or takes both |
| Framing.ShownText | assignments/6-RShell/starter/rsh_cli.c:139-142 | What the user sees of a program's output is the output and the marker behind it, of a string message the text, with or without the marker |
| Framing.MarkerEndsReply | assignments/6-RShell/starter/rsh_cli.c:142-143 | In any splitting of a reply, a piece ends with the marker if and only if it is the last piece |
| Framing.MarkerInPayloadBreaksFraming | assignments/6-RShell/starter/rsh_cli.c:127-144 | For every payload, some way of cutting the message into pieces ends the reply early if and only if the payload contains the marker byte |
| Framing.StringMessageIsReply | assignments/6-RShell/starter/rsh_server.c:462-479 | What send_message_string sends is a well-formed reply if and only if the text is free of the marker |
| Framing.StringMessagePrints | assignments/6-RShell/starter/rsh_cli.c:139-140 | The client prints the text of a string message; the marker byte shows as well if and only if it arrives in a piece of its own |
| Protocol.EchoRoundTrip | demos/sockets/server-proto.c:26-45 | For every NUL-free request of at most 2030 bytes, packing, serving and extracting gives exactly "ECHO:[request]" |
| Protocol.BuiltMessageExtracts | demos/sockets/protocol.c:38-60 | What build_msg packed is recovered with no 16-bit wrap-around; extract_msg accepts exactly the sizes from a header up to the whole message |
| Protocol.ExtractedIff | demos/sockets/protocol.c:38-56 | For every buffer: extract_msg accepts exactly the sizes from a header up to the announced payload length plus ten modulo 65536, and then returns the buffer itself |
| Protocol.EchoFitsIff | demos/sockets/server-proto.c:37-42 | The response carries the whole text and fits the send buffer if and only if the request has at most 2030 bytes |
| Protocol.BuildMsg | demos/sockets/protocol.c:6-36 | Refuses exactly the buffers that are too small, untouched; otherwise the ten header bytes, the payload, zeroes behind them, and nothing past the given size |
| Protocol.BuildRspFromReq | demos/sockets/server-proto.c:26-45 | The response header repeats the request's fields with the direction turned, the payload is what snprintf fits, the length field is the whole text's length cut to 16 bits |
| Protocol.ServeRequest | demos/sockets/server-proto.c:26-45 | Any request, its payload free of NUL or cut by one, gives byte by byte: the first six bytes of the request, direction 2, the length of the whole echo text modulo 65536, then the text as far as 2037 bytes go, and a NUL |
| Protocol.WholeTextSent | demos/sockets/server-proto.c:37-42 | Up to 2030 bytes nothing is cut and the announced length is exact |
| Protocol.PrintedIs | demos/sockets/server-proto.c:37-40 | The precision prints the whole payload, or what comes before its first NUL |

## Left out

- The failure exits of `pipe()` and `fork()` in `execute_pipeline` and `rsh_execute_pipeline`: the process ends or returns early; `exec_pipeline`, which handles more cases, is modelled with them.
- The exit code that `rsh_execute_pipeline` computes from the wait statuses: a stage has no exit status in the model.
- The "command not found" reply that a child of `rsh_execute_pipeline` sends on the socket when its `execvp` fails; in the model such a child just exits.
- Interactive input on the outer descriptors: the model's outer file always has its next byte or end of file ready.
- `chdir` for `cd`, and what is in the redirection files; the child side of `exec_pipeline` is that of the pipeline model.
- A closed formula for the output of a pipeline whose producers never end: it is bounded and the same on every schedule, but the composition of stages is stated for stages that end with their input.
- Thread creation failures, sleeps and printing in the thread programs; weak memory and the compiler's freedom under a data race.
- Overlong lines in the tokenizer: the source then copies past its buffer.
- Redirection characters in the later tokenizers, whose two pointers move independently; the ownership model takes lines without them and does not model how those tokenizers cut arguments.
- `clear_cmd_buff` of the shells, `validate_range`, `print_student`, the menus and `main` of the database.
- I/O errors, NULL record pointers and files whose size is not a multiple of 64 in the database.
- Deletion by slot after a compression: packing moves records off their slots, so only the scanning operations keep their answers.
- PipeParser.CommandList.SplitArgs: the second `strtok_r` runs inside the `exe` array, which is modelled as the C string it holds; NULL arguments are not modelled.
- CommandOwnership.CommandList.AllocCmdBuff: models the buffer, not the reset of argc, argv and the redirection fields, which the ownership of buffers does not depend on.
- CommandOwnership.CommandList.FreeCmdBuff: likewise; the redirection files it would release are never set for lines without redirections.
- CommandOwnership.CommandList.BuildCmdBuff: models which text is copied into which buffer, not the cutting into arguments that follows.
- Server-side request reading, session control and the built-in commands of the remote shell server.
- The sockets, the work simulation and the request loop of the echo server; the multi-threaded server repeats `build_rsp_from_req`.
