# A verified model of the multi-terminal kernel

A Dafny 4.11 model of a small x86 kernel with three text terminals, six process slots and a
round-robin clock, together with the algorithms of its user programs. `dafny verify dfyconfig.toml`
checks everything.

Code that changes things step by step is a class or a method over arrays, proved equal to a step
function on values; what the system is for is then proved about the step functions, over every run
where the claim is about runs.

## The parts

**Processes** (`Processes`, `ProcessStacks`, `ProcessSteps`, `ProcessEffects`, `ProcessCalls`, `ProcessRuns`,
`ProcessClocks`, `ProcessHistories`, `KernelMachine`). The globals of the process table, scheduler and descriptor tables
are one record `State`; `Step` gives the effect of execute, halt, a clock tick, a terminal switch, the descriptor
calls and a user-mode store. `Inv` is the invariant that the C code relies on and never states: the
live pids form one stack per terminal, parent links go one place down in the same stack,
`terminal_pids[t]` is the top, `current_pid` is the top of its terminal, and `file_descriptors`, page
directory entry 32 and `tss.esp0` belong to `current_pid`. `ProcessEffects` says what one step leaves alone;
`ProcessRuns` proves claims about whole runs from it, a run being a sequence of configurations linked
by steps: suspended frames, memory isolation, bounded waiting, clock countdowns, file positions,
directory listings. `ProcessCalls` says in plain numbers when each call succeeds and what it changes;
`ProcessHistories` follows it through runs: a process's own kernel stack, the rate its clock was set to,
reading a file to its end, descriptors in order, turns of 8 ticks.
The class `Kernel` holds the arrays and updates them in place, loop by loop.

**Screens and keyboard** (`Tapes`, `Screen`, `ConsoleMachine`, `Terminals`, `InputLines`, `KeyboardMachine`,
`Systems`, `CrossTalk`). A terminal is a 25 by 80 window over an unbounded tape. The class `Console` owns four physical video
pages, the page table, a cache of translations and the cursors; its invariant says that each active
terminal's page, wherever it is mapped, shows that terminal's tape with blanks from the cursor on.
Translation follows 32-bit paging and TLB caching (sections 4.3 and 4.10 of the Intel SDM, Volume 3A,
in editions where Paging is chapter 4): a cached translation is used even if the table has changed
since, so the mapping invariant needs the flush. The class `Keyboard` adds the input lines.
`Terminals` proves exactly when each terminal evolves by its own events alone, `InputLines` what a reader is
given and when it is let go. `Systems` joins the
process machine and the terminals: a process writes to its own terminal, whichever is displayed.
`CrossTalk` has the two runs in which a process reaches into another terminal.

**grep** (`Grep`). The streaming loop over a 1024-byte buffer that carries partial lines down in
place, against "split into lines, keep those that contain the pattern".

**File system** (`FileSystem`), **clock rates** (`RtcRate`), **blinking characters** (`Blinking`, `BlinkRuns`,
`BlinkMachine`: a linked list inside a fixed pool), **frame merging** (`Fish`, `Frames`), **in-place routines** (`Memory`,
`Numbers`, `Command`).

## Claims that hold only under a condition

Each is stated with the exact condition, both ways, in the lemma named.

- grep finds exactly the matching lines for every pattern it can be given (1 to 127 bytes) if and only
  if no line is longer than 1024 bytes (`GrepSearchesLinesIff`); a longer line is cut into pieces and
  searched piece by piece.
- Adding a blink keeps the list sound if and only if its location is not 0 (`InsertKeepsIff`);
  location 0 means "free" to the allocator, and one more add then links a node to itself
  (`ZeroLocationLoops`).
- A blink follows its on and off lengths if and only if both are between 1 and 32768
  (`PlainPhaseIff`); the comparison after the decrement is a signed 16-bit one.
- The redraw at the end of a sync shows the right character if and only if the copied phase is off or
  both characters agree (`SyncDrawsPhaseIff`): the conditional move never fires.
- `terminal_read` delivers and empties the displayed line, and kernel messages are printed on the
  displayed terminal. So terminals are independent of each other if and only if, whenever a process
  reads or is answered by a message, its terminal is displayed (`SystemIndependentIff`; a read may also
  find both lines empty). An execute is answered by a message if and only if its program exists and no
  pid is free. `MisdirectedRead` and `HiddenExecuteWritesOnDisplay` are runs from boot in which a
  process on terminal 1 takes what was typed on terminal 0, and writes on it.
- The blinking screen shows every node's phase throughout a run if and only if, throughout, nodes that
  share a cell agree on its character and no sync copies an on phase to a node with two characters
  (`ShownThroughoutIff`, `FreeCellsShownIff`).
- Splitting undoes joining if and only if no word holds a delimiter, no argument is empty and the
  joined command has at most 1023 bytes (`SplitUndoesJoinIff`).

Where the code and its comments disagree the model follows the code: `log2_for_frequency` returns -1
for odd inputs, `terminal_write` neither shows nor counts NUL bytes, `process_switch` is skipped for
the process already running, `getargs_handler` succeeds with an empty
string when there are no arguments, and the emulator's `ece391_getargs` may write one terminator
behind the caller's count.

## Model

| member | source | states |
|---|---|---|
| Processes.FirstFree | student-distrib/interrupts/syscall_handler.c:50-58 | the lowest free pid, or -1 exactly when none is free |
| Processes.FreeFd | student-distrib/fs.c:349-357 | the lowest closed descriptor, or -1 exactly when all are open |
| Processes.SpaceAt | student-distrib/interrupts/syscall_handler.c:164-178 | the first space splits the command; none before it |
| ProcessStacks.StacksUnique | student-distrib/interrupts/syscall_handler.c:271-278 | the arrays and parent links determine the per-terminal stacks: there is one reading of them |
| ProcessStacks.Disjoint | student-distrib/interrupts/syscall_handler.c:217-226 | no pid occurs twice in one stack or in two stacks |
| ProcessStacks.CurrentIsTop | student-distrib/interrupts/syscall_handler.c:275-278 | the running process is live, the top of its terminal, and its parent is next below (none at the bottom) |
| ProcessSteps.SpawnKeeps | student-distrib/interrupts/syscall_handler.c:156-298 | creating and starting a process pushes it on its terminal's stack and re-establishes the whole invariant, or changes no process when there is no program or no free pid |
| ProcessSteps.ExecuteKeeps | student-distrib/interrupts/syscall_handler.c:349-351 | execute pushes the new pid on the caller's stack, exactly when the program exists and a pid is free; a failed execute changes nothing in the process machine and returns -1 (its message is `Systems.Message`) |
| ProcessSteps.HaltPops | student-distrib/interrupts/syscall_handler.c:382-401 | halting a child pops it and resumes the process below with the frame that process saved, delivering the status |
| ProcessSteps.HaltRestarts | student-distrib/interrupts/syscall_handler.c:374-380 | halting a base shell always succeeds in putting a new shell alone on the same terminal |
| ProcessSteps.HaltClosesThroughRealTables | student-distrib/interrupts/syscall_handler.c:363-369 | every open slot that halt closes has a clock, file or directory table, so no close call goes through NULL |
| ProcessSteps.OpenKeeps | student-distrib/interrupts/syscall_handler.c:112-124 | open keeps the invariant: a new slot is sound whatever stale table it replaces |
| ProcessSteps.CloseKeeps | student-distrib/interrupts/syscall_handler.c:132-135 | close keeps the invariant |
| ProcessSteps.ReadKeeps | student-distrib/interrupts/syscall_handler.c:88-91 | read keeps the invariant: file positions stay within the file, countdowns within their period |
| ProcessSteps.WriteKeeps | student-distrib/interrupts/syscall_handler.c:101-104 | write keeps the invariant |
| ProcessSteps.StoreKeeps | student-distrib/interrupts/syscall_handler.c:143-146 | a user store through directory entry 32 keeps the invariant |
| ProcessSteps.CountTopsEach | student-distrib/interrupts/rtc.c:55-66 | a tick counts the clock slots of each terminal's top once and touches no other process |
| ProcessSteps.RotateKeeps | student-distrib/interrupts/rtc.c:79-88 | the round robin changes only which top is running |
| ProcessSteps.TickKeeps | student-distrib/interrupts/rtc.c:46-92 | a tick moves no process between stacks and keeps the invariant |
| ProcessSteps.DisplayKeeps | student-distrib/interrupts/keyboard.c:285-320 | the first switch to a terminal starts a shell at the bottom of its stack; every other switch leaves processes alone |
| ProcessSteps.StepKeeps | student-distrib/interrupts/syscall_handler.c:156-402 | every step of the machine keeps the invariant with stacks pushed, popped, replaced or unchanged as its result says |
| ProcessSteps.BootEstablishes | student-distrib/kernel.c:172-179 | from an empty table the first shell takes pid 0 and the invariant holds |
| ProcessRuns.RunKeeps | student-distrib/interrupts/syscall_handler.c:156-402 | every configuration of every run satisfies the invariant |
| ProcessRuns.RunExists | student-distrib/interrupts/syscall_handler.c:156-402 | every admissible sequence of events has a run: no step gets stuck |
| ProcessEffects.ParentIsBelow | student-distrib/interrupts/syscall_handler.c:222-226 | a process with a live child is live, on the child's terminal, not running and no terminal's top |
| ProcessEffects.SpawnLeaves | student-distrib/interrupts/syscall_handler.c:196-228 | creating a process changes neither memory nor control block of any other, save the frame of the one that was running |
| ProcessEffects.TickLeaves | student-distrib/interrupts/rtc.c:46-92 | a tick keeps tops, liveness, memory and every control block but countdowns of tops and the running frame |
| ProcessEffects.DescriptorLeaves | student-distrib/interrupts/syscall_handler.c:88-135 | descriptor calls and user stores change only the running process's own descriptors and memory frame |
| ProcessEffects.HaltLeaves | student-distrib/interrupts/syscall_handler.c:359-402 | a halt changes no control block and no memory frame of any other live process |
| ProcessEffects.StepLeaves | student-distrib/interrupts/syscall_handler.c:266-277 | no step changes the saved frame, links, arguments or memory of a live process that is not running |
| ProcessEffects.RunningSurvives | student-distrib/interrupts/syscall_handler.c:266-277 | only its own halt ends the running process; interrupts and execute change nothing of it but its frame and countdowns |
| ProcessRuns.ParentWaits | student-distrib/interrupts/syscall_handler.c:266-277 | over every run in which the child has not halted, the parent stays live beneath it with the same frame, arguments and memory |
| ProcessRuns.HaltReturnsToExecute | student-distrib/interrupts/syscall_handler.c:382-401 | whatever happens in between, a child's halt delivers its status to the frame saved by the execute that started it |
| ProcessEffects.PreemptionSaves | student-distrib/interrupts/syscall_handler.c:308-318 | an interrupt or an execute that takes the processor from a process saves its frame |
| ProcessRuns.FrameKept | student-distrib/interrupts/syscall_handler.c:266-318 | in every run the frame saved for a process stays what it is while the process does not run |
| ProcessRuns.ResumesWhereInterrupted | student-distrib/interrupts/syscall_handler.c:308-338 | a process that loses the processor and has it again later, whatever ran in between, finds the frame it was interrupted in |
| ProcessRuns.IdentityKept | student-distrib/interrupts/syscall_handler.c:217-228 | over every run a process keeps its arguments, terminal and parent until it halts |
| ProcessRuns.ArgsReachProgram | student-distrib/interrupts/syscall_handler.c:161-228 | whatever runs in between, a program's arguments are what its command has behind the name and one space |
| ProcessEffects.RotateApproaches | student-distrib/interrupts/rtc.c:81-88 | one rotation runs the waited-for terminal or brings the index closer to it |
| ProcessEffects.TickApproaches | student-distrib/interrupts/rtc.c:76-91 | every tick lowers the bound on how long a started terminal still waits, or runs it |
| ProcessRuns.PatienceRunsOut | student-distrib/interrupts/rtc.c:76-91 | in every run, whatever other events are interleaved, each tick without a turn uses up some of a terminal's bound |
| ProcessRuns.BoundedWaiting | student-distrib/interrupts/rtc.c:76-91 | any stretch of a run with 24 ticks has a moment at which each started terminal's top is running, starts and halts included |
| ProcessRuns.ClockCounts | student-distrib/interrupts/rtc.c:55-66 | k ticks after it was set, a blocked process's countdown is max(0, start - k), whatever other processes do |
| ProcessRuns.RtcReadCompletes | student-distrib/interrupts/rtc.c:139-145 | a read of the clock is complete exactly when as many ticks have come as its period has |
| ProcessRuns.ReadsAreSequential | student-distrib/fs.c:206-223 | under any interleaving the chunks a process reads through one descriptor are consecutive pieces of the file, and nothing else moves the position |
| ProcessEffects.ExecuteLoads | student-distrib/interrupts/syscall_handler.c:199-205 | a started program finds its whole file at the load offset of the frame that directory entry 32 maps |
| ProcessEffects.OpenFindsFile | student-distrib/fs.c:158-180 | an opened file is the first entry of that name, at position 0 in a slot from 2 to 7 |
| ProcessRuns.ReadsArePrefix | student-distrib/fs.c:158-223 | from open on, under any interleaving, the chunks read through the descriptor are a prefix of the named file |
| ProcessRuns.DirectoryListsNames | student-distrib/fs.c:77-149 | from the open of a directory on, under any interleaving, its reads deliver the 63 names in order, each cut to the caller's size, then -1 |
| ProcessEffects.OpenFindsDirectory | student-distrib/fs.c:77-97 | an opened directory stands before its first entry |
| ProcessEffects.DirectoryReadAdvances | student-distrib/fs.c:123-149 | one read answers the next name and moves on by one, or refuses and stays |
| ProcessEffects.FileReadAdvances | student-distrib/fs.c:206-223 | one read delivers the file's next bytes and moves behind them; it delivers fewer than asked for only at the end of the file, and refuses sizes that are not positive |
| ProcessEffects.SlotStays | student-distrib/fs.c:189-223 | only its owner's reads, its close and its owner's halt change an open file or directory slot |
| ProcessEffects.CloseUndoesOpen | student-distrib/interrupts/syscall_handler.c:112-135 | closing what was just opened succeeds and leaves every other slot and the rest of the state as before |
| ProcessCalls.NamedIff | student-distrib/fs.c:247-281 | a name is compared whole up to its 32nd byte, and the entry must end where it ends |
| ProcessCalls.FindsFirstNamed | student-distrib/fs.c:256-280 | the search finds the first directory entry with the name, or none exactly when there is none |
| ProcessCalls.OpenIff | student-distrib/interrupts/syscall_handler.c:112-124 | open fails exactly when descriptors 2 to 7 are all open or the name does not resolve ("rtc..." is the clock, "." begins a directory of type 1, everything else a file of type 2); otherwise it returns the least closed descriptor and changes that slot alone |
| ProcessCalls.CloseIff | student-distrib/interrupts/syscall_handler.c:132-135 | close succeeds exactly for an open descriptor from 2 to 7, which it closes, and changes nothing else |
| ProcessCalls.BadCallsFail | student-distrib/interrupts/syscall_handler.c:88-104 | reads, writes and closes of closed or impossible descriptors fail, and so do writes to files and directories |
| ProcessCalls.FileReadGives | student-distrib/fs.c:206-223 | a positive read delivers the file's next bytes, as many as asked for or left, and moves behind them; any other size is refused |
| ProcessCalls.ClockWriteGives | student-distrib/interrupts/rtc.c:156-169 | a 4-byte write of 2, 4, ..., 1024 sets period and countdown to 1024 / f and changes nothing else; every other frequency or size is refused |
| ProcessCalls.StoreLands | student-distrib/paging.c:13-52 | a user store changes one byte of physical memory, in the running process's own 4 MB from 8 MB on |
| ProcessCalls.PartsIff | student-distrib/interrupts/syscall_handler.c:161-178 | the command is its name, one space and its arguments, and this is the only way to cut it |
| ProcessCalls.ProgramIs | student-distrib/interrupts/syscall_handler.c:180-188 | the program of a command is the first entry of its name, when that is a regular file beginning with 7F 45 4C 46 |
| ProcessCalls.ExecuteIff | student-distrib/interrupts/syscall_handler.c:156-237 | execute starts a process exactly when a pid is free and the first entry of the command's name is an executable, and otherwise changes nothing |
| ProcessCalls.SpawnMakesChild | student-distrib/interrupts/syscall_handler.c:196-280 | whatever starts a program: lowest free pid, terminal and parent as given, descriptors 0 and 1 the terminal and 2 to 7 closed, its own kernel stack, the file at 0x48000 of its own 4 MB |
| ProcessCalls.ExecuteMakesChild | student-distrib/interrupts/syscall_handler.c:349-351 | the same for execute: the caller is the parent, the terminal is the caller's |
| ProcessCalls.HaltMakesShell | student-distrib/interrupts/syscall_handler.c:374-380 | when a base shell halts, the program "shell" starts afresh on its terminal |
| ProcessCalls.DisplayMakesShell | student-distrib/interrupts/keyboard.c:311-320 | the first switch to a terminal starts the program "shell" there |
| ProcessCalls.DisplayIff | student-distrib/interrupts/keyboard.c:285-320 | a terminal is displayed if it is in use or a pid is free for its shell; otherwise the switch changes nothing |
| ProcessCalls.StackIsOwn | student-distrib/interrupts/syscall_handler.c:66-78 | the kernel stack handed to the processor is the last word of the running process's own 8 KB block, and in no other block |
| ProcessHistories.KernelStacksApart | student-distrib/interrupts/syscall_handler.c:66-78 | in every state of every run the processor holds the running process's own stack; states with different running processes hold stacks in blocks that share no address |
| ProcessHistories.PeriodStays | student-distrib/interrupts/rtc.c:139-169 | a clock keeps its period in every step that neither writes nor closes it |
| ProcessHistories.WrittenRate | student-distrib/interrupts/rtc.c:139-169 | after an accepted write of frequency f, whatever runs in between, a read of the clock is complete exactly when f times the ticks since it began have reached 1024 |
| ProcessHistories.OpenedRate | student-distrib/interrupts/rtc.c:117-145 | a clock not written since its open completes a read exactly when 2 times the ticks have reached 1024 |
| ProcessHistories.ReadContinues | student-distrib/fs.c:206-223 | over every run a positive read continues what was read since the open: the file's next bytes, as many as asked for or left |
| ProcessHistories.ReadsUntilEmptyIff | student-distrib/fs.c:158-223 | over every run a positive read delivers nothing exactly when what was read since the open is the whole first file of that name |
| ProcessHistories.OpensInOrder | student-distrib/fs.c:349-357 | over every run, from six closed descriptors on and while the process closes none, its opens of names that resolve return 2, 3, 4, 5, 6, 7 and then -1 |
| ProcessHistories.StartsWithNoneOpen | student-distrib/interrupts/syscall_handler.c:208-215 | a process that execute has just started has all six closed |
| ProcessHistories.TickTurns | student-distrib/interrupts/rtc.c:76-91 | a tick that ends a turn takes the processor exactly when another terminal is in use, any other tick does not, and a new turn has 8 ticks |
| ProcessHistories.TurnsEndIff | student-distrib/interrupts/rtc.c:76-91 | in every run from boot the k-th tick takes the processor exactly when k is 1, 9, 17, ... and another terminal is in use |
| ProcessClocks.SpawnKeepsTables | student-distrib/interrupts/syscall_handler.c:208-215 | creating a process leaves the tables of all slots above 1 as they were, the new process's stale ones included |
| ProcessClocks.NewProcessHasNoClock | student-distrib/interrupts/syscall_handler.c:208-215 | a new process has no clock table in any slot, whatever its pid was used for before |
| ProcessClocks.ClockTables | student-distrib/interrupts/rtc.c:117-198 | in one step a slot becomes a clock only by an open of the clock and stops being one only by its close or its owner's halt |
| ProcessClocks.ClocksAreOpened | student-distrib/interrupts/rtc.c:55-66 | over every run a slot carries the clock's table exactly when it was opened as a clock and neither closed nor halted since |
| ProcessClocks.BootedRun | student-distrib/kernel.c:172-179 | every state reachable from boot satisfies the invariant, and its clock tables are exactly the open clocks |
| KernelMachine.Kernel.ProcessesInit | student-distrib/interrupts/syscall_handler.c:33-42 | all pids free, no terminal occupied, nothing running |
| KernelMachine.Kernel.GetFreePid | student-distrib/interrupts/syscall_handler.c:50-58 | the scan returns the lowest free pid or -1 |
| KernelMachine.Kernel.SplitCommand | student-distrib/interrupts/syscall_handler.c:161-178 | the loop yields the text before and after the first space |
| KernelMachine.Kernel.FindProgram | student-distrib/interrupts/syscall_handler.c:180-188 | the inode is returned exactly for a regular file that starts with the ELF magic |
| KernelMachine.Kernel.ProcessCreate | student-distrib/interrupts/syscall_handler.c:156-237 | a slot, the page entry, the whole program image and the control block are set up, or no process changes; the message is printed exactly when there is a program and no slot |
| KernelMachine.Kernel.FillSlot | student-distrib/interrupts/syscall_handler.c:196-230 | from the free slot on: pid taken, frame mapped, file loaded, control block filled |
| KernelMachine.Kernel.ClearFds | student-distrib/interrupts/syscall_handler.c:208-215 | slots 0 and 1 become the terminal, the others are closed and keep their stale tables |
| KernelMachine.Kernel.ProcessStart | student-distrib/interrupts/syscall_handler.c:248-298 | the running frame is saved and every cached pointer moves to the new process, the stack pointer to the last word of its block |
| KernelMachine.Kernel.ExecuteHandler | student-distrib/interrupts/syscall_handler.c:349-351 | refines the execute step, printed message included, and keeps the invariant, pushing the pid it returns |
| KernelMachine.Kernel.HaltHandler | student-distrib/interrupts/syscall_handler.c:359-402 | refines the halt step, result included, and keeps the invariant |
| KernelMachine.Kernel.CloseAllFds | student-distrib/interrupts/syscall_handler.c:363-369 | every open slot above 1 is closed through its own table, all others are untouched |
| KernelMachine.Kernel.ReturnToParent | student-distrib/interrupts/syscall_handler.c:382-389 | the parent becomes current and its terminal's top, and all cached pointers become its own, the stack pointer the last word of its block |
| KernelMachine.Kernel.ProcessSwitch | student-distrib/interrupts/syscall_handler.c:308-338 | the interrupted frame is saved in the old process, the resumed one is the new process's, and the stack pointer is the last word of its block |
| KernelMachine.Kernel.CheckValidFd | student-distrib/fs.c:49-53 | valid exactly for a number 0..7 whose slot is open |
| KernelMachine.Kernel.GetFreeFd | student-distrib/fs.c:349-357 | the scan returns the lowest closed slot from 2 on or -1 |
| KernelMachine.Kernel.OpenHandler | student-distrib/interrupts/syscall_handler.c:112-124 | refines open for the clock, directories and files; it fails exactly when all six descriptors are open or the name does not resolve, and returns the least closed one |
| KernelMachine.Kernel.CloseHandler | student-distrib/interrupts/syscall_handler.c:132-135 | refines close: terminal slots and closed slots are refused |
| KernelMachine.Kernel.FileRead | student-distrib/fs.c:206-223 | refines a file read: the user's buffer gets the next bytes, as many as asked for or left, and the position moves behind them |
| KernelMachine.Kernel.DirectoryRead | student-distrib/fs.c:123-149 | one name per call, cut to the caller's size, until the 63 entries are used up |
| KernelMachine.Kernel.RtcRead | student-distrib/interrupts/rtc.c:139-140 | the countdown restarts at the descriptor's own period |
| KernelMachine.Kernel.RtcWrite | student-distrib/interrupts/rtc.c:156-169 | refines the rate change: 4 bytes of a power of two from 2 to 1024 make the period 1024 / f, anything else changes nothing |
| KernelMachine.Kernel.StrNCpy | student-distrib/lib.c:585-596 | the string is copied, the rest up to n is NUL, nothing beyond n changes |
| KernelMachine.Kernel.GetArgsHandler | student-distrib/interrupts/syscall_handler.c:437-444 | fails exactly when arguments and terminator do not fit, and then writes nothing |
| KernelMachine.Kernel.CountDown | student-distrib/interrupts/rtc.c:57-64 | each clock slot above 1 of one process goes down by one, stopping at 0 |
| KernelMachine.Kernel.CountDownTops | student-distrib/interrupts/rtc.c:55-66 | the same for all three terminals' tops |
| KernelMachine.Kernel.TryNext | student-distrib/interrupts/rtc.c:82-87 | one round of the search: the next terminal's top is adopted unless absent or already running |
| KernelMachine.Kernel.RoundRobin | student-distrib/interrupts/rtc.c:81-88 | at most three terminals are tried, the first suitable top is adopted |
| KernelMachine.Kernel.RtcHandler | student-distrib/interrupts/rtc.c:46-92 | refines the tick step and keeps the invariant with the same stacks |
| KernelMachine.Kernel.SwitchTerminal | student-distrib/interrupts/keyboard.c:285-320 | refines the process side of a terminal switch and keeps the invariant |
| KernelMachine.Kernel.Boot | student-distrib/kernel.c:172-179 | establishes the invariant with shell 0 alone on terminal 0 |
| RtcRate.AcceptedArePowers | student-distrib/interrupts/rtc.c:159-164 | the bit test accepts exactly 2, 4, 8, ..., 1024 |
| RtcRate.CyclesAreExact | student-distrib/interrupts/rtc.c:166-167 | the reload value times the frequency is 1024 |
| RtcRate.Log2ForFrequency | student-distrib/interrupts/rtc.c:207-215 | floor of the logarithm for positive even numbers, -1 otherwise |
| RtcRate.RateGivesFrequency | student-distrib/interrupts/rtc.c:100-102 | 32768 Hz divided by 2 to the (rate - 1) gives the frequency back |
| FileSystem.ContentsAreBlocksIff | student-distrib/fs.c:311-338 | a file's bytes are those of its 4096-byte blocks in the order of the inode, up to its length |
| FileSystem.ReadData | student-distrib/fs.c:301-340 | for every offset and length: the count is min(length, size - offset) and exactly that slice of the file's logical bytes is written |
| FileSystem.CopyRun | student-distrib/fs.c:314-338 | one round appends the next run of the file, found through its block number |
| FileSystem.CopyingAdvances | student-distrib/fs.c:318-337 | a round never overruns block, request or file, and the next starts at a block boundary or there is nothing left |
| FileSystem.RunBytes | student-distrib/fs.c:316-331 | consecutive file bytes of one round lie consecutively in one data block |
| FileSystem.LoadFile | student-distrib/interrupts/syscall_handler.c:200-205 | the loader stops with the whole file in memory and nothing else changed |
| FileSystem.StoredNext | student-distrib/interrupts/syscall_handler.c:202-205 | one 4096-byte read of the loader extends the loaded prefix, the last short one and the final empty one included |
| FileSystem.FindFrom | student-distrib/fs.c:256-280 | the first entry whose name equals the (32-byte) name asked for, or -1 when none does |
| FileSystem.SameName | student-distrib/fs.c:260-272 | a prefix comparison and a length check decide equality of names |
| FileSystem.ReadDentryByName | student-distrib/fs.c:247-281 | the scan finds that first entry |
| Tapes.TypedKeeps | student-distrib/lib.c:257-290 | writing keeps the window on the cursor, only ever appends to the tape, and scrolls at most one row |
| Tapes.TypedIs | student-distrib/lib.c:214-232 | bytes 10 and 13 end the row with 1 to 80 blanks, every other byte takes one cell |
| Tapes.ScrollsIff | student-distrib/lib.c:258-262 | the window moves down one row exactly when its 2000 cells are used up |
| Tapes.ErasedUndoesTyped | student-distrib/lib.c:49-61 | a backspace undoes one printed character, across row ends and scrolls |
| Tapes.TypedAllText | student-distrib/lib.c:241-248 | printing characters appends exactly them |
| Tapes.ErasingUndoesTyping | student-distrib/lib.c:49-61 | rubbing out what was printed, up to 24 rows, restores the tape |
| Screen.StoredAtCursor | student-distrib/lib.c:276-277 | a store at the cursor shows the tape with that character appended |
| Screen.BlankBehindCursor | student-distrib/lib.c:267-271 | the padding stores of a newline, column 80 included, change nothing visible |
| Screen.PaddingInvisible | student-distrib/lib.c:219-222 | a line break that stores nothing shows the same as one that pads |
| Screen.StoredErases | student-distrib/lib.c:49-61 | a blank at the last cell shows the tape without its last character |
| Screen.ScrollPage | student-distrib/lib.c:292-300 | the overlapping move and the blanked row show the window one row down; no other page changes |
| Screen.ScrollShows | student-distrib/lib.c:292-300 | the moved rows and the blank row are the next window of the tape |
| ConsoleMachine.Console.PagingInit | student-distrib/paging.c:13-52 | the map invariant for terminal 0, identity elsewhere, and exactly five present pages |
| ConsoleMachine.Console.Translate | student-distrib/paging.c:30-52 | a coherent cache never yields a stale page |
| ConsoleMachine.Console.PadRow | student-distrib/lib.c:267-271 | the newline loop ends at column 81 without a visible change and without leaving the page |
| ConsoleMachine.Console.TPutc | student-distrib/lib.c:257-290 | the terminal's screen shows its tape with the character typed, and no other tape changes; bytes 10 and 13 put the cursor at the start of the next row, the last row scrolling first |
| ConsoleMachine.Console.Putc | student-distrib/lib.c:214-232 | the kernel's own output has the same effect on the displayed terminal's tape and cursor |
| ConsoleMachine.Console.Clear | student-distrib/lib.c:67-76 | the displayed terminal shows an empty tape, the others are unchanged |
| ConsoleMachine.Console.TerminalBackspace | student-distrib/lib.c:49-61 | the displayed tape loses its last cell unless the cursor is at the top left |
| ConsoleMachine.Console.Remap | student-distrib/interrupts/keyboard.c:294-298 | the three entry updates and the flush re-establish the map invariant for the new terminal |
| ConsoleMachine.Console.ExchangePages | student-distrib/interrupts/keyboard.c:294-302 | after remap and two copies every terminal's contents are on the page that now belongs to it |
| ConsoleMachine.Console.SwitchShows | student-distrib/interrupts/keyboard.c:299-302 | two page copies exchange two terminals and leave the third alone |
| ConsoleMachine.Console.SwitchScreen | student-distrib/interrupts/keyboard.c:293-310 | all screens, tapes and cursors survive a terminal switch |
| ConsoleMachine.Console.DisplayShowsTape | student-distrib/lib.c:214-290 | every cell of the display is the displayed terminal's tape, blank behind the cursor, which stands behind the last character |
| ConsoleMachine.Console.Boot | student-distrib/kernel.c:154-155 | establishes the screen invariant with terminal 0 displayed and empty |
| Terminals.StepIsLocalIff | student-distrib/interrupts/keyboard.c:91-276 | one event changes every terminal's tape and line only by that terminal's own acts, exactly unless it is a read or a kernel message not served at home |
| Terminals.TerminalsAreIndependent | student-distrib/interrupts/keyboard.c:285-310 | while every read and message is served at home, each terminal's tape and line are those of its own events alone, wherever switches came |
| Terminals.TerminalsAreIndependentIff | student-distrib/interrupts/keyboard.c:91-310 | terminals are independent throughout a history exactly when each process that is served a read or a message is displayed, or there is nothing to confuse |
| Terminals.KeysType | student-distrib/interrupts/keyboard.c:218-252 | keys are appended to line and tape until the line holds 127 characters; the rest are neither kept nor shown |
| Terminals.RubsErase | student-distrib/interrupts/keyboard.c:266-276 | backspaces drop the last characters of line and tape, and do nothing on an empty line |
| Terminals.RubbingUndoesKeys | student-distrib/interrupts/keyboard.c:218-276 | typing a word and rubbing it out restores line and text |
| Terminals.ReadsOwnLineIff | student-distrib/interrupts/keyboard.c:91-115 | a read delivers and empties the reader's own line, and no other, exactly when it is served at home |
| Terminals.NonNulIs | student-distrib/interrupts/keyboard.c:135-143 | exactly the NUL bytes are dropped from what a process writes |
| InputLines.EnteredIff | student-distrib/interrupts/keyboard.c:91-114 | over every history a terminal's readers are let go exactly when enter was typed on it and no read of it has been served since |
| InputLines.EveryReadNeedsEnter | student-distrib/interrupts/keyboard.c:91-114 | between two reads served for one terminal enter was typed on it |
| InputLines.LinesFit | student-distrib/interrupts/keyboard.c:218-226 | no line outgrows its 128-byte buffer in any history |
| InputLines.LineReachesReader | student-distrib/interrupts/keyboard.c:91-252 | whatever is printed meanwhile and happens on other terminals, when w and enter were typed on a terminal its reader is given w, cut to 127 characters, and the newline, as far as it asked for |
| InputLines.EchoShows | student-distrib/interrupts/keyboard.c:172-252 | keys and enter appear on screen as the text and blanks to the end of its row |
| InputLines.TabTypes | student-distrib/interrupts/keyboard.c:194-196 | tab shows four blanks and enters nothing |
| Systems.Message | student-distrib/interrupts/syscall_handler.c:192-195 | the text the kernel prints about a call, on whichever terminal is displayed |
| Systems.MessagesIff | student-distrib/interrupts/syscall_handler.c:190-195 | an execute types its message on the display exactly for a program without a free pid, and nothing otherwise; the two unimplemented calls always type theirs |
| Systems.ActKeeps | student-distrib/interrupts/keyboard.c:285-320 | every joint step, kernel messages included, keeps both machines sound and agreed on which terminals are displayed and in use |
| Systems.SystemRunKeeps | student-distrib/interrupts/keyboard.c:285-320 | both machines stay sound and agreed in every run, by induction over its steps |
| Systems.BootIsJoint | student-distrib/kernel.c:172-179 | the machines agree when the first shell starts |
| Systems.TerminalCalls | student-distrib/interrupts/syscall_handler.c:88-104 | descriptors 0 and 1 of the running process always reach the terminal, and its terminal is in use |
| Systems.WritesReachOwnTerminal | student-distrib/interrupts/keyboard.c:131-146 | in every run a process's writes reach its own terminal's tape and nothing else, whichever terminal is displayed |
| Systems.SystemProjects | student-distrib/interrupts/keyboard.c:91-320 | what the terminals go through in a run of processes, keys and messages is a history of the terminals alone |
| Systems.HomeIsAtHome | student-distrib/interrupts/syscall_handler.c:190-195 | the condition in terms a caller can check: its terminal is displayed, an execute finds a pid or no program, a read finds both lines empty |
| Systems.LocalAtIff | student-distrib/interrupts/keyboard.c:91-320 | one step of a run leaves every terminal to its own keys and processes exactly when the call in it is made at home |
| Systems.SystemIndependentIff | student-distrib/interrupts/keyboard.c:91-320 | in a run of processes and keys the terminals are independent throughout exactly when every call in it is made at home |
| CrossTalk.HiddenExecuteWritesOnDisplay | student-distrib/interrupts/syscall_handler.c:190-195 | a run from boot in which a process of terminal 1, with every pid taken, fails to execute and types its message on terminal 0 |
| CrossTalk.MisdirectedRead | student-distrib/interrupts/keyboard.c:106-112 | a run from boot in which terminal 1's shell, running while terminal 0 is displayed, reads and empties what was typed on terminal 0 |
| Systems.TakeAtHomeIff | student-distrib/interrupts/keyboard.c:100-114 | a process reads its own line exactly when its terminal is displayed, or both lines are empty |
| KeyboardMachine.Keyboard.Push | student-distrib/interrupts/keyboard.c:225-226 | the displayed line grows by the character, the other two are unchanged |
| KeyboardMachine.Keyboard.KeyPress | student-distrib/interrupts/keyboard.c:218-252 | echo and line grow together, up to 127 characters |
| KeyboardMachine.Keyboard.EnterPress | student-distrib/interrupts/keyboard.c:172-177 | the newline ends the line and releases the displayed terminal's reader |
| KeyboardMachine.Keyboard.BackspacePress | student-distrib/interrupts/keyboard.c:266-276 | nothing on an empty line, else line and tape lose one character |
| KeyboardMachine.Keyboard.ControlL | student-distrib/interrupts/keyboard.c:213-216 | clears the screen and keeps the line |
| KeyboardMachine.Keyboard.TabPress | student-distrib/interrupts/keyboard.c:194-196 | four blanks are shown and none enters the line |
| KeyboardMachine.Keyboard.TPuts | student-distrib/lib.c:241-248 | all characters of a string are typed in order |
| KeyboardMachine.Keyboard.Puts | student-distrib/lib.c:201-208 | a kernel message is typed on the displayed terminal, whichever terminal it is about |
| KeyboardMachine.Keyboard.TerminalWrite | student-distrib/interrupts/keyboard.c:131-146 | the non-NUL bytes are typed on the writer's terminal and counted; descriptors other than 1 are refused |
| KeyboardMachine.Keyboard.ClearTerminalBuffer | student-distrib/interrupts/keyboard.c:116-122 | the displayed line becomes empty, the others are unchanged |
| KeyboardMachine.Keyboard.TerminalRead | student-distrib/interrupts/keyboard.c:91-115 | the first min(nbytes, length) bytes of the displayed line are returned and the line emptied; other descriptors and negative sizes are refused |
| KeyboardMachine.Keyboard.SwitchTerminal | student-distrib/interrupts/keyboard.c:285-320 | tapes, lines and enter flags survive; a terminal shown for the first time is cleared |
| KeyboardMachine.Keyboard.Redirect | student-distrib/interrupts/keyboard.c:303-310 | only the displayed terminal changes: no line, tape or flag does |
| Grep.LineEnd | syscalls/ece391grep.c:30-32 | the first newline, with none before it, or the limit |
| Grep.LinesSpellFile | syscalls/ece391grep.c:28-32 | the lines are the file cut at its newlines: put together again they are the file |
| Grep.PiecesSpellFile | syscalls/ece391grep.c:28-57 | cutting at the buffer size loses nothing but newlines |
| Grep.ReportAt | syscalls/ece391grep.c:45-49 | a reported line is four writes: file name, colon, line, newline |
| Grep.PiecesAreLines | syscalls/ece391grep.c:28-57 | cutting at the buffer size does not change the matches when no line exceeds it |
| Grep.LongLineIsMissed | syscalls/ece391grep.c:28-57 | a line longer than the buffer is not printed for the pattern that is its own first byte |
| Grep.GrepSearchesLinesIff | syscalls/ece391grep.c:9-66 | the program searches lines, for every pattern it can be given (1 to 127 bytes), exactly when no line is longer than the buffer |
| Grep.SameBytes | syscalls/ece391support.c:35-46 | the comparison decides occurrence at a position and stops at the line's end |
| Grep.SearchLine | syscalls/ece391grep.c:41-51 | finds the pattern exactly when the line contains it |
| Grep.CarryDown | syscalls/ece391support.c:14-17 | the overlapping copy moves the partial line to the front intact |
| Grep.FindEnd | syscalls/ece391grep.c:30-32 | the scan stops at the file's next newline or the end of the buffer |
| Grep.LineAccounted | syscalls/ece391grep.c:40-52 | handling one line moves exactly its output from what is owed to what is printed |
| Grep.TakeLine | syscalls/ece391grep.c:40-52 | one round searches a line, prints it when it matches, and leaves the rest of the buffer intact |
| Grep.ScanBuffer | syscalls/ece391grep.c:28-57 | after each buffer, printed plus still owed output is the whole, with the partial line kept at the front |
| Grep.DoOneFile | syscalls/ece391grep.c:9-66 | terminates having printed each matching line once and in order, the last unterminated one included |
| Blinking.ClosedForm | fish/blink.S:64-86 | after k ticks phase and countdown are a function of k modulo the period |
| Blinking.PlainPhaseIff | fish/blink.S:64-86 | on exactly while k mod (on + off) < on, for all k, exactly for lengths 1 to 32768 |
| Blinking.InPhaseForever | fish/blink.S:49-90 | nodes with equal clocks stay equal at every later tick |
| Blinking.SyncDrawsPhaseIff | fish/blink.S:277-285 | the redraw is right exactly for an off phase or equal characters |
| Blinking.InsertKeepsIff | fish/blink.S:131-162 | adding keeps the list sound exactly for non-zero locations |
| Blinking.ZeroLocationLoops | fish/blink.S:139-162 | after a node at location 0 the next add links a node to itself |
| Blinking.UnlinkKeeps | fish/blink.S:206-222 | removing any position leaves a sound list of the others in order and frees the slot |
| Blinking.PokedShows | fish/blink.S:60-92 | a cell whose nodes all come to show one character shows it after the tick, if it did before or one of them is drawn |
| Blinking.PokedElsewhere | fish/blink.S:68-86 | a tick draws only at cells of listed nodes |
| Blinking.PlainClock | fish/blink.S:64-86 | with lengths 1 to 32768 phase and countdown after k ticks are those of k modulo (on + off) |
| BlinkRuns.StepKeeps | fish/blink.S:49-300 | add (at a non-zero location), remove, sync and tick keep the list acyclic, free of duplicates and inside the pool |
| BlinkRuns.RunKeeps | fish/blink.S:49-300 | the list is sound in every state of every run, by induction over its steps |
| BlinkRuns.RunExists | fish/blink.S:49-300 | every sequence of requests has a run, from every sound list |
| BlinkRuns.Found | fish/blink.S:351-379 | the listed node with a location, or NULL exactly when there is none |
| BlinkRuns.FoundIsFirst | fish/blink.S:351-379 | the search finds the first listed node with the location |
| BlinkRuns.AnswersIff | fish/blink.S:105-300 | a request fails exactly for a location off the screen, a full pool or a location no node has, and then changes nothing |
| BlinkRuns.RemoveDropsFirst | fish/blink.S:187-237 | a remove takes the first node with the location off the list, frees its slot and leaves order and screen alone |
| BlinkRuns.StepKeepsNode | fish/blink.S:49-300 | a step that neither removes nor syncs into a node leaves it listed and ticks it exactly when it is a tick |
| BlinkRuns.NodeThroughRun | fish/blink.S:49-300 | over every run a node that is neither removed nor a sync target counts the ticks and nothing else |
| BlinkRuns.AddedNodePhase | fish/blink.S:49-184 | until it is removed or synced, whatever else is added, removed or synced, an added node's phase and countdown are those of the tick count modulo (on + off) |
| BlinkRuns.SyncedTogether | fish/blink.S:240-300 | source and target of a sync blink together over every run until either is removed or a sync target again |
| BlinkRuns.StepShownIff | fish/blink.S:43-300 | a step leaves every node's phase on screen exactly when nodes of one cell agree afterwards and a sync draws what it copied |
| BlinkRuns.ShownThroughoutIff | fish/blink.S:43-300 | every node's phase is on screen throughout a run exactly when, throughout, nodes that share a cell agree on its character and no sync copies an on phase to a node with two characters |
| BlinkRuns.StepApartIff | fish/blink.S:105-184 | nodes stay in cells of their own exactly when an accepted add takes a free one |
| BlinkRuns.FreeCellsShownIff | fish/blink.S:43-300 | when every add takes a free cell, every phase is on screen throughout exactly when no sync copies an on phase to a node with two characters |
| Blinking.TickedKeeps | fish/blink.S:49-90 | ticking moves no pointer and no location |
| Blinking.FullIffNoSlot | fish/fish.c:160-170 | allocation fails exactly when the list holds 2000 nodes |
| BlinkMachine.BlinkList.Malloc | fish/fish.c:160-170 | the first slot with location 0, or NULL |
| BlinkMachine.BlinkList.Add | fish/blink.S:105-184 | refines the add step; fails exactly for a bad location or a full pool; the list stays sound exactly when nothing is added at location 0 |
| BlinkMachine.BlinkList.FindHelper | fish/blink.S:351-379 | the walk finds the first listed node with the location, or NULL |
| BlinkMachine.BlinkList.Remove | fish/blink.S:187-237 | refines the remove step: the first match goes and the rest keep their order, or it fails and changes nothing |
| BlinkMachine.BlinkList.Sync | fish/blink.S:240-300 | refines the sync step: the clock is copied and the target's cell redrawn, or it fails and changes nothing |
| BlinkMachine.BlinkList.Tasklet | fish/blink.S:49-99 | refines the tick step: every listed node ticks exactly once, in list order, with its redraw |
| BlinkMachine.BlinkList.TickNode | fish/blink.S:64-86 | one node's countdown, phase change and redraw |
| Fish.AddFrames | fish/fish.c:78-148 | issues one request for each cell where at least one file has a non-space, with its 16-bit location and both characters, in row-major order |
| Fish.WantedIff | fish/fish.c:98-130 | the cells wanted are those where a byte that is not a space stands in either file, by newlines before it and bytes since the last, at location 80 row + column + 40 |
| Fish.LocationsApart | fish/fish.c:125 | different cells of the 80-column grid are added at different locations, none of them 0, until the location wraps |
| Frames.CellsFit | fish/fish.c:160-170 | the wanted cells of a screen always fit the pool |
| Frames.FramesServed | fish/fish.c:98-148 | serving the requests of add_frames from an empty pool leaves one node per wanted cell, each in a cell of its own, lit and showing the first file's character |
| Fish.FirstRowsMembers | fish/fish.c:98-147 | the requests of the first rows are exactly the wanted cells in them |
| Fish.FirstRowsOrdered | fish/fish.c:98-147 | requests come in row-major order, each once |
| Fish.NothingBelow | fish/fish.c:98 | no cell is wanted below the end of both files |
| Fish.RowEndIsFirst | fish/fish.c:102-116 | a row ends at its first newline or at the end of the file |
| Fish.MergeRow | fish/fish.c:99-130 | the column loop issues the row's requests and leaves both files at their next rows |
| Fish.MergeFiles | fish/fish.c:98-147 | the row loop ends when both files are used up |
| Fish.Advance | fish/fish.c:102-116 | each file yields its row's characters, then newlines for the rest of the row |
| Memory.MemMove | student-distrib/lib.c:518-536 | for every overlap the destination gets the source's old bytes and nothing else changes |
| Memory.MovedUp | student-distrib/lib.c:518-536 | upward copying reads no byte it has overwritten when the source is not below the destination |
| Memory.MovedDown | student-distrib/lib.c:526-530 | downward copying does the same when it is |
| Memory.MemCpy | student-distrib/lib.c:472-509 | alignment prologue, double words and tail together copy exactly n bytes |
| Memory.MemSetWord | student-distrib/lib.c:432-444 | n cells get the character and attribute 0; nothing else changes |
| Numbers.NumeralRoundTrip | student-distrib/lib.c:321-351 | the text of a number is digits of its radix that parse back to it, with no leading zero |
| Numbers.QuotientDigit | student-distrib/lib.c:339-344 | the n-th round of the digit loop emits the n-th digit, and the loop ends after the last |
| Numbers.DigitsShort | student-distrib/lib.c:339-344 | a 32-bit value has at most 32 digits in any radix |
| Numbers.StrRev | student-distrib/lib.c:357-370 | swapping the ends reverses the string in place and changes nothing else |
| Numbers.EmitDigits | student-distrib/lib.c:339-347 | the loop leaves the digits, least significant first, with a terminator |
| Numbers.Itoa | student-distrib/lib.c:321-351 | the buffer holds the number's text in every radix from 2 to 36 |
| Numbers.LeadingZeros | student-distrib/lib.c:136-140 | zeros in front do not change the value |
| Numbers.HexLength | student-distrib/lib.c:135-136 | a 32-bit value has 1 to 8 hexadecimal digits |
| Numbers.PrintHexPadded | student-distrib/lib.c:132-142 | always exactly 8 hexadecimal digits, which parse back to the value |
| Numbers.PrintUnsigned | student-distrib/lib.c:129-131 | prints the number's text |
| Numbers.PrintSigned | student-distrib/lib.c:155-166 | prints sign and magnitude for every int32, the least one included |
| Command.ArgsByPosition | syscalls/ece391emulate.c:85-97 | argument k is the word found from the scan position after k words |
| Command.TakeArgs | syscalls/ece391emulate.c:85-97 | the loop records every word and stops at the end or at a newline where a word could start |
| Command.Tokenize | syscalls/ece391emulate.c:76-98 | at most 512 pointers to NUL-terminated strings in the buffer, exactly the command's words, then a null pointer; longer commands are refused |
| Command.GetArgs | syscalls/ece391emulate.c:128-157 | succeeds exactly when the joined arguments and their terminator fit, and then leaves them in the buffer |
| Command.SplitUndoesJoinIff | syscalls/ece391emulate.c:76-157 | splitting joined words gives them back exactly when none holds a space or newline, no argument is empty and the command has at most 1023 bytes |
| Command.JoinUndoesSplit | syscalls/ece391emulate.c:76-157 | joining what splitting found makes the command no longer, and it splits the same, for every command |

## Left out

- Interleaving inside handlers: every system call and interrupt body is one atomic step, so the window with interrupts enabled in process_create, and preemption within a handler, are not modelled.
- Blocking reads are split in two: `RtcRead` starts a wait, `RtcReadCompletes` and `TerminalRead` describe the end of one; the busy loops themselves are not steps.
- Saved esp and ebp are abstract tokens given with each event; iret, the TSS layout, the IDT, the PIC and port I/O (rates, end-of-interrupt, the hardware cursor) are not part of this model.
- The joint machine of `Systems` is proved on values; the classes `Kernel` and `Keyboard` refine its two halves separately.
- User stores to the video pages that programs may map (the user-accessible page table entries): a program can draw on them without a system call, and tapes and terminal independence are claimed for runs without such stores.
- Exceptions: their handlers print a message and never return.
- Scancodes, modifier keys and key maps: keyboard events arrive decoded.
- The boot image is structured (entries, inodes, data) instead of one flat run of bytes, and well formed: block numbers in range, names of 32 bytes, and no file longer than the 127 blocks that an inode can name.
- User buffers are separate arrays, not parts of the process's own memory frame; NULL pointers passed by programs are not modelled.
- ProcessSteps.StepKeeps: asks for an ELF "shell" in the image, for commands with a name under 32 and arguments under 128 bytes, and for read sizes that are 32-bit signed; the code bounds none of these.
- ProcessSteps.HaltRestarts: asks for an ELF "shell"; without one the kernel would go on with no process at all.
- ProcessSteps.DisplayKeeps: asks for an ELF "shell"; without one a terminal would be marked in use and stay empty.
- ProcessSteps.BootEstablishes: asks for zeroed control blocks, as `Kernel.Boot` does.
- KernelMachine.Kernel.HaltHandler: asks for an ELF "shell", as `HaltRestarts` does.
- KernelMachine.Kernel.SwitchTerminal: asks for an ELF "shell", as `DisplayKeeps` does.
- KernelMachine.Kernel.SplitCommand: asks for command names under 32 and arguments under 128 bytes, the sizes of the two local buffers.
- KernelMachine.Kernel.ExecuteHandler: asks for command names under 32 and arguments under 128 bytes.
- KernelMachine.Kernel.Boot: asks for zeroed control blocks; the kernel never clears that memory itself.
- KernelMachine.Kernel.ProcessCreate: asks for command names under 32 and arguments under 128 bytes, which the code does not check.
- ConsoleMachine.Console.Boot: clears after setting up paging, where the kernel clears before and prints its boot messages in between; both write the same physical page.
- KeyboardMachine.Keyboard.EnterPress: asks for at most 127 waiting bytes; a second Enter on a full line would store into the next terminal's buffer.
- KeyboardMachine.Keyboard.TerminalRead: a good descriptor and size are covered from the moment the reader's enter flag is set.
- Grep.DoOneFile: asks for files and patterns without NUL bytes, for reads that are short only at the end of the file, and for a spare last buffer byte that is not a newline; the three messages for failing open, read and close are not modelled.
- BlinkRuns.StepKeeps: asks for adds at non-zero locations, the exact condition of `InsertKeepsIff`.
- Fish.AddFrames: starts with both files open and takes reads of one byte that do not fail; the add requests it issues are served in `Frames`.
- Memory.MemCpy: asks for ranges where the destination does not lie inside the source from above, the C rule for memcpy.
- KernelMachine.Kernel.GetArgsHandler: asks for a non-negative size; the code compares a negative one as unsigned.
- Command.GetArgs: the buffer has one cell more than the size passed, for the terminator written on a failing path.
- Command.Tokenize: fork, exec and wait, and the result code made from them, are not modelled.
- Attribute bytes: scrolled-in rows get attribute 0 and typed cells another value; only character bytes are claimed.
- vidmap, sigreturn, set_handler, Multiboot parsing, mp1_ioctl_find, the copy of ece391_itoa in the support library, the test file and the smaller programs would add only easy members.
