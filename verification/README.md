# GalapagOS, verified

GalapagOS is a small x86 teaching kernel with three virtual terminals, a fixed table of
processes, a round-robin scheduler driven by the timer, a read-only file system, a line
editor with a command history, and a few hand-written memory and number routines. This
project models the parts of it whose correctness is not visible from one function at a
time, and proves them in Dafny 4.11. `dafny verify dfyconfig.toml` checks all of it.

## How it is laid out

Each C file that updates state in place becomes a class that updates the same state in
place: linked nodes with `next` and `prev`, control blocks with `parent` and `child`, page
table arrays, character buffers. Beside it stands a module named `...View` that says what
the state means as a plain value. Every method is proved to take the meaning of the old
state to a named function of it; the theorems are about those functions.

- **Kernel.** `RunQueue`, `ProcessTable` and `Video` are the heap models of the run queue,
  the process table and the page tables; `RunQueueView`, `ProcessView` and `VideoView` are
  their meanings. `Machine` puts the three meanings together as a state machine with the
  steps execute, halt, timer tick, terminal switch, program write and key echo. `Kernel`
  runs the heap models together and is proved to follow `Machine` step by step, from boot
  and for any sequence of events (`Kernel.Kernel.BootAndRun`). The size of the pid table is a
  parameter, at least three. `Runs` draws the consequences for every reachable state,
  `Fairness` proves that no task starves, `ExitStatus` that an execute returns the status
  of its own child, and `Screens` that three terminals sharing one VGA page behave as three
  independent screens over whole runs. `Traces` holds runs from boot that show the kernel's
  failures happening. `KernelStack` follows the frame that starts a task
  through the instructions that consume it.
- **Terminal input.** `LineEditor` is the line being typed, `History` the nine-slot ring
  of commands with its editable shadow copy, and `HistoryView` the unbounded list of
  commands the ring is proved to stand for.
- **Files.** `FileSystem` reads an inode through its block list and looks names up;
  `Loader` decides from an image what becomes of a command name; `Descriptors` is the table
  of open files; `Turns` and `Reads` prove what positions and bytes are over whole series
  of calls.
- **Primitives.** `Memory` (copying with overlap, scrolling), `Console` (the cursor that
  makes the screen scroll), `Numbers` (number printing and parsing), `Blink` (the list of
  blinking characters over a fixed pool) and `BlinkRuns` (its entries over whole series of
  calls).

Execute and halt end in a software interrupt that enters the timer handler. The state
between the two is part of the model: `trap` is set, and only a tick, a terminal switch or
a key may come next. Each of the bodies of `kexecute` and `khalt` up to that interrupt,
`pit_handler` and `switch_terminals` is one atomic step. The source leaves interrupts
enabled in parts of `kexecute` and `khalt`, so this is an assumption.

## Where the code does not do what it sets out to do

For each of these a lemma gives the exact condition, and where the failure takes a
particular run or input to reach, another one gives that.

- A child that halts with status 239 is meant to return 256 to its parent, but the field
  is one byte wide and the parent gets 0. Every other status arrives unchanged
  (`ExitStatus.ExecuteReturnsChildStatus`; a run in `Traces.StatusLost`).
- The terminal recorded in a new control block is the displayed one, not the one the
  process belongs to. The two agree exactly when the parent's terminal is on display
  (`Screens.LabelIsHomeIffDisplayed`; a run in `Traces.LabelWrong`).
- An execute that fails leaves the address space of the caller active except when a pid is
  free and the file is a proper executable one of whose blocks is out of range
  (`Loader.ErrorKeepsAddressSpaceIff`; a run in `Traces.FailedLoadSwitches`).
- A read that meets a bad block moves the position back by one. The position is the total
  of the bytes read exactly when no read needed a bad block (`Reads.PositionIsTotalIff`); a
  file whose first block is bad strands its descriptor (`Reads.ReadStrands`).
- Descriptors on one file share their progress. The reads through one of them are
  consecutive exactly when nobody else fetches a byte of the file in between
  (`Reads.ConsecutiveIff`; an input in `Reads.TwoDescriptorsSkip`).
- Output in the middle of a line makes the line differ from what its recorded keystrokes
  replay to, and so does recalling a command when the line is 129 characters long, since
  only 128 are erased. The two stay in step exactly when all output finds the line empty
  and nothing left of an erased line shows (`HistoryView.InStepIff`, and what the latter
  means in `LineEditor.ErasedIff` and `HistoryView.ArrowShowsReplayIff`; inputs in
  `HistoryView.OutputBreaksReplay` and `HistoryView.UpLeavesLetter`).
- Scrolling by two rows blanks one row only, and it is not the last. It happens exactly
  for a newline on the last row past the last column (`Console.OutputScrollsTwoIff`,
  `Console.LastRowBlankIff`; a text in `Console.TwoRowsHappen`).
- `memcpy` is a simultaneous copy for all memory contents exactly when the destination is
  not above the source, or the regions are disjoint, or the copy is a single aligned word
  (`Memory.MemcpyExact`).
- `write_dec_to_char` produces a decimal numeral exactly for non-negative numbers
  (`Numbers.DecTextIsDecimal`).
- Adding a blinking character at screen location 0 is accepted, but its slot still counts
  as free, and the next add ties the list into a loop (`Blink.AddLeavesList`,
  `Blink.ZeroLocationLoops`).

## Model

| member | source | states |
|---|---|---|
| `RunQueueView.SurvivorsAre` | student-distrib/schedule.c:52-63 | a tick drops the current task from the queue if it is finished and nothing else |
| `RunQueueView.RunningSurvivorSuffices` | student-distrib/schedule.c:65 | one running task in what is left of the queue is enough for the search loop to end |
| `RunQueueView.Next` | student-distrib/schedule.c:50-75 | the task chosen is in the queue after removal and is running, so never the sentinel and never a removed node |
| `RunQueueView.FirstRunning` | student-distrib/schedule.c:65 | the search stops at the first running task: every one before it is not running |
| `RunQueue.Scheduler.constructor` | student-distrib/schedule.c:187-194 | the sentinel alone is a ring: the queue is empty and the cursor is at the sentinel |
| `RunQueue.Scheduler.LinkAtTail` | student-distrib/schedule.c:103-111 | the five pointer writes extend the ring by one node with next and prev inverse and tail before the sentinel |
| `RunQueue.Scheduler.Schedule` | student-distrib/schedule.c:97-119 | the linked ring then stands for the old queue with the pid at its end, the pid running and its parent inactive |
| `RunQueue.Scheduler.Unschedule` | student-distrib/schedule.c:164-175 | the task is finished and its parent running unless the pid is a shell's; the ring is untouched |
| `RunQueue.Scheduler.Unlink` | student-distrib/schedule.c:54-62 | cutting out any node but the sentinel leaves a ring of the others in order, also when it was the tail |
| `RunQueue.Scheduler.RemoveCurrent` | student-distrib/schedule.c:52-63 | the ring then stands for the queue without the finished current task |
| `RunQueue.Scheduler.Search` | student-distrib/schedule.c:65 | the pointer-chasing loop terminates and finds the first running task in ring order, wrapping past the sentinel |
| `RunQueue.Scheduler.FirstDispatch` | student-distrib/schedule.c:35-48 | the first timer interrupt dispatches the task behind the sentinel, as the general rule says |
| `RunQueue.Scheduler.SelectNext` | student-distrib/schedule.c:50-75 | removal and search together give the first running task after the current one |
| `RunQueue.Scheduler.PitHandler` | student-distrib/schedule.c:27-87 | on the linked ring the handler does exactly one round-robin step, and the current node is the task it chose |
| `RunQueue.Scheduler.RingHolds` | student-distrib/schedule.c:187-194 | the ring has no repetition, starts at the sentinel and ends at the tail, and every node's neighbours point back to it |
| `RunQueue.Scheduler.InRingIff` | student-distrib/schedule.c:103-111 | a node is in the ring if and only if its pid is queued |
| `ProcessView.FreePid` | student-distrib/file_array.c:131-137 | the smallest free pid, or the table size when all are taken |
| `ProcessView.LinksInverse` | student-distrib/file_array.c:214-231 | q is p's parent if and only if p is q's child, for all live pids |
| `ProcessView.Spawn` | student-distrib/file_array.c:214-231 | a new process becomes the leaf of its parent's chain, and the chains stay disjoint and cover the live pids |
| `ProcessView.SpawnLinks` | student-distrib/file_array.c:214-231 | creation sets the new process's parent and the parent's child and changes no other link |
| `ProcessView.Reap` | student-distrib/file_array.c:483-514 | ending a leaf makes its parent the leaf again, and the chains stay disjoint and cover the live pids |
| `ProcessView.ReapLinks` | student-distrib/file_array.c:503-505 | ending a process clears the parent's child link and changes no other link of a live process |
| `ProcessView.Booted` | student-distrib/file_array.c:268-312 | after boot exactly the three shells are live, each a chain of its own, and the first is current |
| `ProcessView.BootedLabels` | student-distrib/file_array.c:268-312 | at boot each shell is labelled with its own terminal and no status has been reported |
| `ProcessView.OthersKept` | student-distrib/file_array.c:214-231 | starting a process changes label, place and liveness of no other and no status; ending one changes the statuses of itself and its parent only |
| `ProcessTable.Table.constructor` | student-distrib/file_array.c:268-312 | the control blocks, the pid table and the roots after boot stand for three one-process chains |
| `ProcessTable.Table.ChildInChain` | student-distrib/file_array.c:767-776 | following child pointers from a root visits exactly that terminal's chain in order and ends in null |
| `ProcessTable.Table.PointersInverse` | student-distrib/file_array.c:214-231 | on the control blocks of live pids, parent and child pointers are inverse |
| `ProcessTable.Table.FreePidIdx` | student-distrib/file_array.c:131-137 | the loop returns the smallest free pid, or -1 if and only if there is none |
| `ProcessTable.Table.Spawn` | student-distrib/file_array.c:214-231 | pcb_init on the control blocks links the new process below the current one and labels it with the displayed terminal |
| `ProcessTable.Table.Reap` | student-distrib/file_array.c:481-514 | khalt frees the pid, unlinks the block and stores the status, cut to one byte, in the parent |
| `ProcessTable.Table.Resume` | student-distrib/file_array.c:692-698 | reset_curr_process makes the given block the current one |
| `VideoView.SwitchKeepsScreens` | student-distrib/terminal.c:472-486 | swapping pages, entries and the displayed terminal changes no terminal's screen |
| `Video.Memory.constructor` | student-distrib/paging.c:50-145 | entry 0xb8 maps the VGA page for pid 0 and page 0xb8 + pid + 1 for pids 1 and 2; 0xb7 maps the VGA page and 0xb9 to 0xbb map themselves for every pid |
| `Video.Memory.TablesAtBoot` | student-distrib/paging.c:86-113 | at boot terminal 0 is displayed, entry 0xb8 maps 0xb8 for pid 0, 0xba for pid 1 and 0xbb for pid 2, and the other video entries are fixed for every pid |
| `Video.Memory.Inherit` | student-distrib/paging.c:262-272 | the new process gets its parent's video entry and the address space becomes its own; the fixed entries stay |
| `Video.Memory.Remap` | student-distrib/paging.c:410-434 | one process's 0xb8 entry is redirected; every other entry, the fixed ones included, stays |
| `Video.Memory.Activate` | student-distrib/paging.c:245-252 | only the active address space changes |
| `Video.Memory.SwapPages` | student-distrib/terminal.c:476-482 | the VGA page is saved to the old terminal's page and the new one's brought in, by two copies through the fixed entries |
| `Video.Memory.Write` | student-distrib/terminal.c:238-273 | output goes to the page that the active address space maps at 0xb8 |
| `Video.Memory.Echo` | student-distrib/terminal.c:103-170 | a key's echo goes to the VGA page through 0xb7 whatever address space is active |
| `Machine.ChainEndRuns` | student-distrib/schedule.c:50-75 | in every state the last process of every chain is running and still queued, so a tick always finds a task |
| `Machine.ExecuteStartsIff` | student-distrib/file_array.c:368-467 | a process starts if and only if there is a free pid and the program loads; no live process's video entry, no page and not the displayed terminal changes, and a failure changes neither queue nor processes |
| `Machine.StartedIsCurrent` | student-distrib/file_array.c:440-447 | the new process is current and its parent's address space active |
| `Machine.HaltEndsIff` | student-distrib/file_array.c:483-518 | a halt ends the current process if and only if its pid is 3 or more, and then frees that pid only |
| `Machine.DispatchAgrees` | student-distrib/file_array.c:692-698 | after a dispatch queue, control block and address space agree on who runs, and nothing else has changed |
| `Machine.SwitchDisplays` | student-distrib/terminal.c:472-486 | a switch displays the terminal asked for, and to the displayed one it does nothing |
| `Machine.BootInv` | student-distrib/file_array.c:268-312 | the state after boot satisfies the kernel invariant |
| `Machine.ExecuteInv` | student-distrib/file_array.c:368-467 | kexecute keeps the invariant whether it starts a process, finds no pid, no executable, or fails to load |
| `Machine.HaltInv` | student-distrib/file_array.c:481-516 | khalt keeps the invariant: the freed pid leaves the live set now and the queue at the next tick |
| `Machine.DispatchInv` | student-distrib/schedule.c:27-87 | a timer tick keeps the invariant and completes a pending execute or halt |
| `Machine.SwitchInv` | student-distrib/terminal.c:472-486 | a terminal switch keeps the invariant, in particular every live process's video entry fits again |
| `Machine.StepInv` | student-distrib/file_array.c:368-516 | every step of the kernel keeps the invariant and the table size |
| `Runs.ReachableInv` | student-distrib/file_array.c:268-312 | every state reachable from boot satisfies the invariant |
| `Runs.QueueHoldsLivePids` | student-distrib/file_array.c:431-489 | in every reachable state the queue has no repetition and holds exactly the live pids, except for a just-halted current task until the tick that removes it |
| `Runs.ChainsWait` | student-distrib/schedule.c:113-119 | in every reachable state each chain starts at its shell, its leaf is running and all its ancestors are inactive |
| `Runs.ChainsPartition` | student-distrib/file_array.c:214-231 | in every reachable state a pid is live if and only if it is on a chain, and it is there at one place only |
| `Runs.EntriesFollowTerminals` | student-distrib/paging.c:410-434 | in every reachable state a process's kernel video entry maps the VGA page if and only if its chain's terminal is displayed, and that terminal's own page otherwise |
| `Fairness.NextIndex` | student-distrib/schedule.c:50-75 | the position of the task chosen: first running one after the cursor in circular order |
| `Fairness.BoundDrops` | student-distrib/schedule.c:52-75 | the measure on nodes behind and ahead of the cursor drops when a tick passes a task over, with or without a removal |
| `Fairness.TickPositions` | student-distrib/schedule.c:50-75 | where a passed-over task and the cursor stand after a tick |
| `Fairness.TickDrops` | student-distrib/schedule.c:50-75 | a tick that passes a running task over lowers its patience |
| `Fairness.ScheduleLowers` | student-distrib/schedule.c:103-119 | an append at the tail by an executing task does not raise a waiting task's patience |
| `Fairness.StepLowersPatience` | student-distrib/schedule.c:50-75 | over any step a waiting task stays waiting, no step raises its patience, and a tick lowers it by at least one |
| `Fairness.DispatchedWithinPatience` | student-distrib/schedule.c:50-75 | a running task is dispatched within as many ticks as its patience, in every run |
| `Fairness.PatiencePositive` | student-distrib/schedule.c:50-75 | patience never exceeds n * (n + 3) for a table of n pids |
| `Fairness.NoStarvation` | student-distrib/schedule.c:27-119 | in every run with n * (n + 3) ticks, whatever the other tasks execute and halt, a running task is dispatched |
| `Fairness.TicksAlwaysLegal` | student-distrib/schedule.c:50-75 | every state allows any number of ticks: the dispatch never gets stuck, so the bound is always reached if the timer keeps firing |
| `ExitStatus.ReadyKeepsStatus` | student-distrib/file_array.c:513-514 | once a child has reported, nothing changes the status its parent will return until the parent runs |
| `ExitStatus.ChildStep` | student-distrib/file_array.c:467-469 | while the child has not halted it stays its parent's child and the parent is not dispatched |
| `ExitStatus.ChildHalts` | student-distrib/file_array.c:502-514 | when the child halts its parent becomes runnable and holds the child's status cut to a byte |
| `ExitStatus.ExecuteMakesChild` | student-distrib/file_array.c:431-447 | a successful execute makes the smallest free pid the child of the caller |
| `ExitStatus.ParentGetsStatus` | student-distrib/file_array.c:467-469 | in every run a waiting parent that returns does so with the status its own child halted with |
| `ExitStatus.DeliveredIff` | student-distrib/file_array.c:502-513 | status 239, meant as 256, arrives as 0, and every other status as itself |
| `ExitStatus.ExecuteReturnsChildStatus` | student-distrib/file_array.h:49-49 | a successful execute that returns yields its own child's status however others interleave; it is the intended one if and only if the status is not 239, which arrives as 0 |
| `ExitStatus.DispatchedReturns` | student-distrib/file_array.c:467-469 | a waiting parent that is dispatched returns |
| `ExitStatus.ParentReturns` | student-distrib/file_array.c:467-514 | once its child has halted, a parent returns exactly the delivered status in every run with n * (n + 3) ticks |
| `Screens.SwitchShowsNothing` | student-distrib/terminal.c:472-486 | switching terminals changes no terminal's screen |
| `Screens.WriteShowsAtHome` | student-distrib/terminal.c:238-273 | a program's write changes the screen at the root of its chain and no other, displayed or not |
| `Screens.KeyShowsOnDisplay` | student-distrib/terminal.c:103-170 | a key's echo changes the displayed terminal's screen and no other |
| `Screens.StepShows` | student-distrib/file_array.c:759-783 | any step changes the three screens as three independent screens would |
| `Screens.RunShows` | student-distrib/file_array.c:759-783 | over every run the one VGA page and three backing pages show what three independent screens would show |
| `Screens.HomeIsRoot` | student-distrib/file_array.c:225-226 | the terminal a process writes to is the root of the chain it is on |
| `Screens.LabelIsHomeIffDisplayed` | student-distrib/file_array.c:225-226 | the terminal stored in a new control block is its chain's if and only if its parent's terminal is displayed |
| `Loader.WholeReadFailsIff` | student-distrib/file_array.c:424-429 | copying the whole file fails if and only if a block that holds a byte of it is out of range |
| `Loader.HeaderReadIff` | student-distrib/file_array.c:146-156 | the header can be read if and only if the file has four bytes and its first block is in range |
| `Loader.CheckHeader` | student-distrib/file_array.c:146-156 | true if and only if the file readably starts with DEL, E, L, F |
| `Loader.Prepare` | student-distrib/file_array.c:390-429 | lookup, header check and copy decide between no executable, a failing load and a good program as the image's names, bytes and blocks say |
| `Loader.LoadsIff` | student-distrib/file_array.c:390-429 | a command loads if and only if its name is listed and its file starts with 7f 45 4c 46 and has all its blocks |
| `Loader.ErrorKeepsAddressSpaceIff` | student-distrib/file_array.c:419-429 | a failing execute leaves the caller's address space active unless there is a free pid and the named file is headed but has a block out of range, and only then not |
| `Loader.BrokenFailsToLoad` | student-distrib/file_array.c:424-429 | a headed file whose second block does not exist fails to load |
| `Traces.StatusLost` | student-distrib/file_array.c:502-514 | a run from boot in which the first shell's execute returns 0 because its child halted with 239 |
| `Traces.LabelWrong` | student-distrib/file_array.c:225-226 | a run from boot after which a process of terminal 0 is labelled 1 |
| `Traces.FailedLoadSwitches` | student-distrib/file_array.c:419-429 | a run from boot after which a failed execute has left the shell in another process's address space |
| `Traces.NextInLine` | student-distrib/schedule.c:50-75 | if the task right behind the current one can run, it is dispatched |
| `Traces.BootVideo` | student-distrib/paging.c:86-113 | at boot terminal 0 is displayed and shells 0, 1 and 2 write to pages 0xb8, 0xba and 0xbb |
| `Traces.FirstWrite` | student-distrib/terminal.c:378-378 | after boot and a tick a write changes the VGA page and no other, and after a switch to terminal 1 page 0xb9 |
| `Kernel.Kernel.ResetCurrProcess` | student-distrib/file_array.c:692-698 | the current process and the active address space change together |
| `Kernel.Kernel.PitHandler` | student-distrib/schedule.c:27-87 | the handler on ring, control blocks and page tables is the machine's dispatch step, and never loops forever |
| `Kernel.Kernel.StartProcess` | student-distrib/file_array.c:419-451 | paging, process table and run queue are all updated for the same pid and the parent's address space is active again |
| `Kernel.Kernel.Execute` | student-distrib/file_array.c:368-467 | kexecute on the heap models is the machine's execute step in all four outcomes |
| `Kernel.Kernel.ExecuteNamed` | student-distrib/file_array.c:368-467 | kexecute on a command name takes the step that the image's contents call for |
| `Kernel.Kernel.Halt` | student-distrib/file_array.c:481-516 | khalt on the heap models is the machine's halt step; a shell's halt changes none of this state |
| `Kernel.Kernel.RedirectChain` | student-distrib/file_array.c:767-776 | the walk along child pointers terminates and redirects exactly the processes of the terminal's chain |
| `Kernel.Kernel.SwitchTerminals` | student-distrib/terminal.c:472-486 | switch_terminals on the heap models is the machine's switch step, and does nothing for the displayed terminal |
| `Kernel.Kernel.Write` | student-distrib/terminal.c:238-273 | a write through the active page table is the machine's write step |
| `Kernel.Kernel.Echo` | student-distrib/terminal.c:103-170 | a key's echo through the fixed entry is the machine's key step |
| `Kernel.Kernel.RunAll` | student-distrib/file_array.c:368-516 | any legal sequence of events run on the heap models reaches the state the machine reaches, and the models stay consistent |
| `Kernel.Kernel.constructor` | student-distrib/file_array.c:455-465 | boot on new heap models gives the machine's boot state, with the first interrupt pending |
| `Kernel.Kernel.BootAndRun` | student-distrib/file_array.c:268-312 | from boot, any legal sequence of events run on the heap models reaches the state the machine reaches |
| `Kernel.Kernel.TablesHold` | student-distrib/paging.c:86-113 | in every sound state the 0xb7 and 0xb9 to 0xbb entries are fixed for every pid and a live pid's 0xb8 entry follows its terminal |
| `Kernel.Kernel.RingHolds` | student-distrib/schedule.c:103-111 | between operations the run queue is one circular doubly linked ring through the sentinel that contains exactly the nodes of the pids marked in pid_arr |
| `Kernel.Kernel.PointersInverse` | student-distrib/file_array.c:214-231 | in every sound state the parent and child pointers of live processes are inverse |
| `KernelStack.BuildFrame` | student-distrib/schedule.c:122-150 | the words schedule writes are exactly the frame: IRET context, flags, register area, resume address and saved stack pointer |
| `KernelStack.ReachesPitRet` | student-distrib/assembly_linkage.S:446-450 | leave and ret on that frame continue at the resume address with the flags and IRET words in place |
| `KernelStack.PopsFrame` | student-distrib/assembly_linkage.S:451-454 | the pops take the flags and the five IRET words off the stack in the order IRETD expects |
| `KernelStack.FreshTaskStarts` | student-distrib/assembly_linkage.S:439-454 | for every pid, entry point and user stack a new task starts at its entry point with USER_CS, its flags, its stack and USER_DS, and its kernel stack is empty |
| `KernelStack.StackSlots` | student-distrib/file_array.c:70-85 | kernel stacks and control blocks lie in 8 KB slots below 8 MB |
| `KernelStack.FrameStaysInSlot` | student-distrib/file_array.c:70-85 | building the frame touches neither the task's own control block nor any other task's stack or control block |
| `LineEditor.TypedBounded` | student-distrib/terminal.c:103-170 | typing a log without an overrunning tab behind a line leaves a printable line within the buffer |
| `LineEditor.ErasedIff` | student-distrib/terminal.c:488-499 | what erasing leaves of a line shows in no log typed behind it if and only if the line has at most 128 characters |
| `LineEditor.TypedExpands` | student-distrib/terminal.c:109-142 | printable keys and tabs that stay within 128 characters go behind the line, a tab as eight blanks |
| `LineEditor.KeysIgnored` | student-distrib/terminal.c:109-128 | no key but backspace changes a line of 128 characters or more, and no other control key changes any |
| `LineEditor.BackspacesDrop` | student-distrib/terminal.c:143-150 | k backspaces take k characters off the end, down to the empty line |
| `LineEditor.BackspacesUndo` | student-distrib/terminal.c:103-150 | backspaces undo printable keys and tabs, one for each character |
| `LineEditor.Line.PutKey` | student-distrib/terminal.c:103-170 | a key other than Enter edits the line: tab gives eight blanks, backspace removes one, a line at its limit ignores text |
| `LineEditor.Line.PutEnter` | student-distrib/terminal.c:103-170 | the line and a newline move to the reader's buffer, and the line is empty |
| `LineEditor.Line.Forget` | student-distrib/terminal.c:270-270 | program output empties the line being typed |
| `LineEditor.Line.Retype` | student-distrib/terminal.c:488-499 | the line becomes what typing the stored log, up to its terminator, behind what 128 backspaces leave of it gives |
| `LineEditor.Line.Read` | student-distrib/terminal.c:283-313 | the reader gets the line cut to its count, the rest is dropped, and the buffer behind it is untouched |
| `HistoryView.TypeKeepsStep` | student-distrib/int_handlers.c:454-459 | editing the line and appending to the log keep the line the replay of the log |
| `HistoryView.RecallFindsEntered` | student-distrib/int_handlers.c:383-421 | after Enter, j times Up leads to the log of the j-th last command as entered, for each of the last eight, whatever was edited before |
| `HistoryView.RecallShowsEntered` | student-distrib/int_handlers.c:383-421 | and shows its replay, provided no command shown on the way is longer than 128 characters |
| `HistoryView.UpThenDown` | student-distrib/int_handlers.c:383-398 | Up and as many Downs lead back to the same log with its edits intact |
| `HistoryView.EnteredIsAllCommands` | student-distrib/int_handlers.c:383-460 | over every sequence of inputs the stored commands are exactly the non-empty logs Enter was pressed on, in order |
| `HistoryView.OutputStep` | student-distrib/terminal.c:270-270 | output keeps line and log in step if and only if it finds the line empty |
| `HistoryView.ArrowShowsReplay` | student-distrib/int_handlers.c:383-398 | Up and Down bring line and log in step whenever the line has at most 128 characters, whatever it was before |
| `HistoryView.ArrowShowsReplayIff` | student-distrib/int_handlers.c:383-398 | for a command of printable keys, if and only if it has; otherwise the first character of the old line stays in front |
| `HistoryView.LineBounded` | student-distrib/terminal.c:103-170 | no possible input makes a line longer than the 129 characters of its buffer |
| `HistoryView.StepIff` | student-distrib/int_handlers.c:383-460 | an input keeps a line in step if and only if it is harmless: output finds the line empty, and nothing an arrow key leaves of it shows |
| `HistoryView.InStepIff` | student-distrib/int_handlers.c:383-460 | over every sequence of inputs from a line in step, the line is the replay of the current log in every state if and only if all inputs are harmless |
| `HistoryView.HarmlessEndsInStep` | student-distrib/int_handlers.c:383-460 | then the line is the replay of the current log in the end, also after Up and Down |
| `HistoryView.UpLeavesLetter` | student-distrib/terminal.c:488-499 | an input from the first key on, with a tab behind 121 letters, after which Up shows a letter too many |
| `HistoryView.OutputBreaksReplay` | student-distrib/terminal.c:270-270 | with output between two keys the line and the replay of the log differ |
| `History.RingShift` | student-distrib/int_handlers.c:404-411 | clearing the slot behind the newest command moves the window of nine rows on, dropping the oldest once there are more than eight |
| `History.EnterRing` | student-distrib/int_handlers.c:399-421 | storing a command and clearing the next slot is Enter on the unbounded list |
| `History.TypeRing` | student-distrib/int_handlers.c:457-458 | appending a key to the current row is typing it into the current log |
| `History.Recall.constructor` | student-distrib/int_handlers.c:479-491 | newly cleared rows stand for an empty history |
| `History.Recall.CountersAndMirror` | student-distrib/int_handlers.c:383-421 | the counters are the number of commands, its excess over eight, and a position between; the next slot is empty, and curr_cmd equals modified_hist[curr % 9] |
| `History.Recall.RingIsHistory` | student-distrib/int_handlers.c:399-411 | slot k % 9 holds command k for every recallable k |
| `History.Recall.KeyUp` | student-distrib/int_handlers.c:383-390 | Up on the ring is Up on the unbounded list, and does nothing at the oldest command |
| `History.Recall.KeyDown` | student-distrib/int_handlers.c:391-398 | Down on the ring is Down on the unbounded list, and does nothing at the newest |
| `History.Recall.KeyOther` | student-distrib/int_handlers.c:454-459 | any other key edits the line and both copies of the log as typing does on the list |
| `History.Recall.KeyEnter` | student-distrib/int_handlers.c:399-421 | Enter on the ring is Enter on the list: all edits of recalled commands are discarded, an empty log is not stored, and the line is handed over |
| `History.Recall.Output` | student-distrib/terminal.c:238-273 | output empties the line and leaves the log |
| `History.Recall.Drive` | student-distrib/int_handlers.c:363-462 | over every sequence of inputs the ring of nine rows refines the unbounded list |
| `History.Recall.FromStart` | student-distrib/int_handlers.c:363-491 | from cleared rows on, every sequence of inputs leaves the ring standing for the list of commands |
| `History.Recall.TypeEnterRead` | student-distrib/int_handlers.c:363-462 | harmless typing on a line in step, Enter and a read deliver a prefix of the replay of the log and a newline |
| `Memory.MemcpyInPlace` | student-distrib/lib.c:398-438 | bytes to alignment, then words, then the rest: the three phases together are the unit-by-unit copy |
| `Memory.AlignDest` | student-distrib/lib.c:398-438 | the first phase ends aligned or done and leaves the rest of the copy to do |
| `Memory.CopyDwords` | student-distrib/lib.c:398-438 | the word phase leaves fewer than four bytes to do |
| `Memory.CopyTail` | student-distrib/lib.c:398-438 | the last phase finishes the copy |
| `Memory.MemcpySafe` | student-distrib/lib.c:398-438 | with the destination below the source or disjoint regions it is a simultaneous copy |
| `Memory.MemcpyReadsBelow` | student-distrib/lib.c:398-438 | with the destination above the source, bytes read from below it still arrive |
| `Memory.OverwrittenFirst` | student-distrib/lib.c:398-438 | a byte in the first unit's destination is overwritten before it is read |
| `Memory.MemcpyUnsafe` | student-distrib/lib.c:398-438 | for every other placement there is a memory on which it is not a simultaneous copy |
| `Memory.MemcpyExact` | student-distrib/lib.c:398-438 | it is a simultaneous copy of every memory if and only if the placement is one of three kinds |
| `Memory.MemmoveInPlace` | student-distrib/lib.c:450-471 | memmove is a simultaneous copy for every overlap |
| `Memory.MemsetWord` | student-distrib/lib.c:346-361 | the words of the range get the character and attribute, and nothing else changes |
| `Memory.ScrollLine` | student-distrib/terminal.c:68-77 | the copy and the fill together are the row shift |
| `Memory.ScrolledRows` | student-distrib/terminal.c:68-77 | for every row: rows move up, one row is blank, and with one line rows 1 to 24 land in 0 to 23 and row 24 is blank |
| `Memory.ScrolledOutside` | student-distrib/terminal.c:68-77 | nothing outside the 25 rows of 160 bytes changes |
| `Memory.BlankCells` | student-distrib/terminal.c:57-66 | a blank row is 80 cells, each the blank and then its attribute |
| `Memory.LastRowBlank` | student-distrib/terminal.c:68-77 | the last row is blank after a scroll if and only if it scrolled by one line or the row was blank already |
| `Console.OutputScrollsTwoIff` | student-distrib/terminal.c:189-228 | output scrolls by two rows if and only if the cursor is on the last row past the last column and the character is a newline |
| `Console.KeyScrollsTwoIff` | student-distrib/terminal.c:103-179 | so does a key, provided the line is not full |
| `Console.LastRowBlankIff` | student-distrib/terminal.c:189-228 | when output scrolls, the last row is blank afterwards if and only if it was before or the character was no newline past the end of the last row |
| `Console.TwoRowsHappen` | student-distrib/terminal.c:189-228 | a text that brings a new screen's cursor to where a newline scrolls by two |
| `Console.OutputFlows` | student-distrib/terminal.c:189-228 | any number of characters without a newline leave the cursor where a text 80 columns wide ends, scrolling included |
| `Console.KeysFlow` | student-distrib/terminal.c:103-179 | so do printable keys while the line has room |
| `Console.NewlineIff` | student-distrib/terminal.c:152-170 | newline and Enter end in column 0, one row down, or two if and only if the cursor stood past the last column of an open line |
| `Console.BackspaceReturnsIff` | student-distrib/terminal.c:128-150 | a printable key and a backspace return the cursor if and only if the line takes the key and neither wraps |
| `Console.TabIsBlanksIff` | student-distrib/terminal.c:111-127 | a tab moves the cursor like the eight blanks it enters if and only if they end before the last column |
| `Console.KeysStay` | student-distrib/terminal.c:109-128 | keys that a full line ignores, and control keys, do not move the cursor |
| `Console.Terminal.PutOut` | student-distrib/terminal.c:189-228 | put_char_out moves the cursor as stated and shifts the rows accordingly |
| `Console.Terminal.PutKey` | student-distrib/terminal.c:103-179 | put_char moves the cursor as stated and shifts the rows accordingly |
| `Numbers.ParseDigits` | student-distrib/lib.c:211-244 | for every number and radix the numeral reads back to the number and has no leading zero |
| `Numbers.DigitsUnique` | student-distrib/lib.c:211-244 | a numeral without leading zero is the one printed for its value |
| `Numbers.DigitCharIs` | student-distrib/lib.c:211-244 | the digits are 0 to 9 and then A to Z |
| `Numbers.LowDigitsReversed` | student-distrib/lib.c:211-244 | the digits in the order the loop produces them, reversed, are the numeral |
| `Numbers.ReverseInPlace` | student-distrib/lib.c:253-269 | the two-index swap loop reverses the text and nothing around it |
| `Numbers.Itoa` | student-distrib/lib.c:211-244 | for every 32-bit value and radix 2 to 36 the buffer holds the numeral and a terminator, and nothing before it changes |
| `Numbers.PrintHex8` | student-distrib/lib.c:91-101 | the output has exactly eight hexadecimal digits and the same value |
| `Numbers.WriteDecToChar` | student-distrib/file_system.c:198-224 | the loop and the reversal write the text of the number and nothing behind it |
| `Numbers.DecTextIsDecimal` | student-distrib/file_system.c:198-224 | the text is base-10 itoa's for every non-negative number, and is a decimal numeral only for those |
| `Numbers.DecLowMirrored` | student-distrib/file_system.c:198-224 | a negative number comes out as its absolute value does, each digit mirrored below the character 0 |
| `FileSystem.FirstBad` | student-distrib/file_system.c:169-188 | the first byte of a range whose block is out of range; every one before it is readable |
| `FileSystem.ReadData` | student-distrib/file_system.c:153-189 | the buffer gets exactly the flat file's bytes of the range, cut at the end of the file, and nothing else; -1 if a block is bad |
| `FileSystem.FileIsItsBlocks` | student-distrib/file_system.c:169-185 | byte j of block b of a file comes at b * 4096 + j |
| `FileSystem.PieceOfBlocks` | student-distrib/file_system.c:169-185 | every piece of a file is that piece of its blocks laid end to end |
| `FileSystem.ReadRange` | student-distrib/file_system.c:153-189 | a read inside the file fails or delivers that range of the blocks laid end to end and touches nothing behind it |
| `FileSystem.StopIs` | student-distrib/file_system.c:172-173 | a byte is delivered if and only if it was asked for and the file has it |
| `FileSystem.InRangeIff` | student-distrib/file_system.c:176-176 | an index is in range if and only if there is such a block, or there are no blocks at all |
| `FileSystem.ReadFailsIff` | student-distrib/file_system.c:169-188 | -1 if and only if a block that meets the range has an index out of range |
| `FileSystem.CheckFileName` | student-distrib/file_system.c:62-75 | true if and only if the names agree up to their terminators or 32 bytes |
| `FileSystem.NamesAgreeIff` | student-distrib/file_system.c:62-75 | names agree if and only if their bytes do, for 32 bytes or up to a terminator in both |
| `FileSystem.ReadDentryByName` | student-distrib/file_system.c:85-99 | the first entry with that name, or an error for the empty name and for none found |
| `FileSystem.ReturnDentryByPtr` | student-distrib/file_system.c:125-142 | the name of the first entry with that inode, or none |
| `FileSystem.NameFindsItself` | student-distrib/file_system.c:85-99 | with unique names every name of the directory finds its own entry |
| `FileSystem.LookupIdentity` | student-distrib/file_system.c:125-142 | with unique non-empty names, inode to name to inode is the identity |
| `FileSystem.FsRead` | student-distrib/file_system.c:265-280 | a read finds the inode through its name and delivers the flat file's bytes of the range |
| `Descriptors.Table.constructor` | student-distrib/file_array.c:243-254 | a new table has standard input and output open and six free slots |
| `Descriptors.Table.Open` | student-distrib/file_array.c:540-597 | the first free slot is taken at position 0, or an error leaves the table as it was, in each of the error cases |
| `Descriptors.FreshKind` | student-distrib/file_array.c:540-565 | entry types 0, 1 and 2 give a clock, a directory and a file at position 0, and no other type is opened |
| `Descriptors.OpenFacts` | student-distrib/file_array.c:574-597 | opening fails if and only if slots 2 to 7 are all in use, the name is empty or unknown, or the type is above 2; otherwise the lowest free slot alone changes |
| `Descriptors.Table.IncrementPosition` | student-distrib/file_array.c:740-749 | the loop advances every descriptor on the inode from the third on and no other |
| `Descriptors.Table.ReadFile` | student-distrib/file_system.c:265-280 | a read delivers the flat file from the position on and moves every descriptor of the inode by what it returned, by -1 if it failed on a block |
| `Descriptors.Table.Read` | student-distrib/file_array.c:606-614 | each kind of descriptor and each error: a file read delivers and moves, a device delivers what it has and moves nothing, an error changes nothing but the buffer and, for a bad block, the position |
| `Descriptors.Table.Close` | student-distrib/file_array.c:641-649 | the slot is free, or an error leaves the table as it was |
| `Descriptors.CloseFrees` | student-distrib/file_array.c:641-649 | a closed slot can be neither read nor closed again, no other slot changes, and it is opened next if and only if no lower one is free |
| `Descriptors.CloseUndoesOpen` | student-distrib/file_array.c:574-649 | closing what was just opened leaves the same slot free and all others as they were |
| `Descriptors.Table.CloseReadReopen` | student-distrib/file_array.c:574-649 | on a real table: after a close, a read and a second close return -1 and change nothing, and an open takes the slot |
| `Turns.PositionMoves` | student-distrib/file_array.c:740-749 | a position moves by the bytes that reads of its file return less the number of failed ones |
| `Turns.ConsecutiveIff` | student-distrib/file_array.c:740-749 | a descriptor's reads are consecutive if and only if at each of them all other movement since the last adds up to nothing |
| `Turns.QuietIsUndisturbed` | student-distrib/file_array.c:740-749 | without failures and with fewer than 2^32 bytes fetched by others, that is the case if and only if nobody else fetched a byte in between |
| `Reads.PerformAll` | student-distrib/file_array.c:574-649 | any series of opens, reads and closes on a real table is the series the theorems are about |
| `Reads.TurnsLinked` | student-distrib/file_array.c:740-749 | each read of a file, through whatever descriptor, moves a descriptor of it from where the last one left it |
| `Reads.FailuresIff` | student-distrib/file_system.c:169-188 | some read of the file fails if and only if one needs a block whose index is out of range |
| `Reads.IntactNeverFails` | student-distrib/file_system.c:169-188 | a file whose bytes all lie in blocks in range never fails, whatever its unused block entries hold |
| `Reads.PositionIsTotalIff` | student-distrib/file_array.c:740-749 | over any series, a position is where it was plus the bytes returned by reads of its inode if and only if no read needed a bad block (a series of 2^32 or more calls: if and only if the failures are a multiple of 2^32) |
| `Reads.MixedSeries` | student-distrib/file_array.c:740-749 | over any series, a position is where it was plus the bytes its own reads return plus what others fetch less the failures of all |
| `Reads.ConsecutiveIff` | student-distrib/file_system.c:265-280 | over any series, each read through a descriptor starts where its last ended if and only if nobody else fetched a byte of the file in between; with bad blocks or 2^32 bytes, if and only if the other movement cancels out |
| `Reads.ConsecutivePieces` | student-distrib/file_system.c:265-280 | consecutive reads return consecutive pieces that concatenate to one piece of the file |
| `Reads.ReadsAreConsecutive` | student-distrib/file_system.c:265-280 | with one descriptor on an intact file, any series of read sizes returns one piece of the file, from where the descriptor stood to where it stands |
| `Reads.BadBlockStrands` | student-distrib/file_system.c:275-277 | a file whose first block is bad strands its descriptor at 2^32 - 1 with the first read, and all later reads return nothing |
| `Reads.ReadStrands` | student-distrib/file_system.c:275-277 | it happens on a real table |
| `Reads.TwoDescriptorsSkip` | student-distrib/file_array.c:740-749 | two descriptors on one file, read in turn, each skip what the other got, on a real table |
| `Reads.SharedReadsSkip` | student-distrib/file_array.c:740-749 | the same as a series: the reads of the first descriptor are not consecutive, and it gets bytes 0 and 2 |
| `Blink.FirstFree` | fish/fish.c:161-171 | the first slot with location 0, or the pool size when there is none |
| `Blink.AddIsCons` | fish/blink.S:159-162 | for a nonzero location, add is cons: the list is the old one with the new slot in front, acyclic, and again exactly the slots with nonzero location |
| `Blink.AddIsFound` | fish/blink.S:120-162 | the new entry is the first found at its location and holds the user's location, characters and lengths, on and counting from its on length; no other slot changes |
| `Blink.RemoveUndoesAdd` | fish/blink.S:105-223 | removing a location right after adding it restores list and head and frees the slot again |
| `Blink.AddLeavesList` | fish/blink.S:131-162 | after an accepted add the pool still stands for a list if and only if the location is not 0 |
| `Blink.ZeroLocationLoops` | fish/blink.S:131-162 | after an add at location 0 any further add makes the head its own successor |
| `Blink.RemoveDeletes` | fish/blink.S:187-223 | unlinking and freeing one entry leaves the others in order, and again exactly the slots with nonzero location |
| `Blink.RemoveSparesOthers` | fish/blink.S:214-223 | a remove zeroes its slot and changes nothing else but the one link that led to it |
| `Blink.SyncKeepsList` | fish/blink.S:267-275 | sync changes neither membership nor order |
| `Blink.SyncSparesOthers` | fish/blink.S:267-275 | a sync changes no slot but its target, and of that neither location, characters nor link |
| `Blink.SyncedInStep` | fish/blink.S:267-275 | from a sync on, target and source are on and off together after every number of runs, on the source's old schedule |
| `Blink.BlinkPhase` | fish/blink.S:60-90 | status and countdown after any number of runs, for all lengths including 0 and those that are negative as signed words |
| `Blink.BlinkRule` | fish/blink.S:60-90 | for lengths from 1 on, the entry is on exactly while the run count modulo both lengths is below the on length |
| `Blink.TickKeepsList` | fish/blink.S:60-90 | a run of the tasklet changes neither membership nor order |
| `Blink.BlinkList.Malloc` | fish/fish.c:161-171 | the first free slot, or null when the pool is full |
| `Blink.BlinkList.Add` | fish/blink.S:105-162 | fails if and only if the location is off the screen or the pool is full, and then changes nothing; otherwise add is cons |
| `Blink.BlinkList.Find` | fish/blink.S:351-379 | the walk finds the first entry with that location, or null |
| `Blink.BlinkList.Remove` | fish/blink.S:187-223 | deletes the first entry with that location and frees its slot, or fails and changes nothing |
| `Blink.BlinkList.Sync` | fish/blink.S:248-275 | copies lengths, countdown and status between the first entries with the two locations, or fails and changes nothing |
| `Blink.BlinkList.Tasklet` | fish/blink.S:60-90 | one walk counts every entry of the list down once and touches no other slot |
| `BlinkRuns.CallSpares` | fish/blink.S:105-223 | a call that neither removes a slot nor syncs it to another leaves its timing, or counts it down once if it is a tasklet run |
| `BlinkRuns.SparedTicks` | fish/blink.S:60-90 | along any series of such calls a slot has the timing that the tasklet runs alone would give it |
| `BlinkRuns.EveryEntryBlinks` | fish/blink.S:60-138 | from its add on, through any series of adds, removes, syncs and tasklet runs that neither remove it nor sync it to another, an entry is on if and only if the number of runs since then, modulo both lengths, is below the on length |
| `BlinkRuns.PerformAll` | fish/blink.S:105-275 | any series of calls on a real list is the series the theorem is about |

## Left out

- Boot code, descriptor tables, interrupt controller, timer and real-time clock ports, cursor registers: hardware writes without state of interest.
- Exception handlers and the system call table: wrappers around calls that are modelled.
- Interleaving inside kexecute, khalt, pit_handler and switch_terminals: each is one atomic step, although parts of the first two run with interrupts enabled.
- TLB, control register bits and the registers of a preempted task: the interrupt linkage overwrites ebx before saving it, so only the start of a new task is claimed.
- Argument parsing in kexecute: it can read variables it did not set; the model starts from the parsed name.
- read_dentry_by_index: its loop starts from a variable that is not set.
- The user-space video mapping of kvidmap: it is refreshed by terminal switches and not at process creation, so it has no invariant.
- Failure to load a shell during boot.
- Halting a shell: only that it changes none of the modelled state, not the restart of the shell's stack frame.
- Where a character lands on the screen: a write or an echo puts arbitrary contents on its page, and Console follows the cursor and the rows only.
- The scan code table, modifier keys and the choice among the four key maps: a key is the character it maps to.
- clear_terminal apart from its emptying the line.
- memset and memset_dword, and the direction flag that memmove leaves set.
- The characters blink.S pokes to the screen, including the one sync chooses.
- User programs, the Linux emulation layer and the copies of string helpers in syscalls/ and fish/.
- Descriptors.Table.Read: what the clock, a directory and the keyboard deliver is a parameter; null buffers are not modelled.
- FileSystem.ReadData: inodes whose length exceeds their 1023 block entries are excluded, since the source then reads past the inode.
- FileSystem.CheckFileName: names are required to have a terminator within what is scanned, or 32 bytes, since the source reads on otherwise.
- History.Recall.KeyOther: a log of 128 keys and a tab at lengths 122 to 127 are excluded, since the source then writes past its buffers.
- LineEditor.Line.PutKey: a tab at lengths 122 to 127 is excluded for the same reason.
- LineEditor.Line.PutEnter: a line of 129 characters, which a tab at length 121 makes, is excluded, since the newline then falls behind the buffer.
- LineEditor.Line.Retype: logs whose typing overruns the buffer are excluded.
- LineEditor.Line.Read: starts when a line is ready; the busy wait for it is not modelled.
- Numbers.Itoa: a radix outside 2 to 36 is not modelled.
- KernelStack.FreshTaskStarts: the handler called in between may use the stack below the pointer and leaves the rest as it is.
- Video.Memory.constructor: pids from 3 on start with an entry for the VGA page that nothing uses before Inherit sets it.
- Loader.Prepare: that the program fits the memory it is copied to is not checked, as in the source.
