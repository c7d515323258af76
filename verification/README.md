# A verified model of the kernel and its user programs

This project models the parts of the teaching kernel, and of the programs that
run on it, whose correctness is a matter of logic rather than of hardware
plumbing, and proves what they are meant to do.

| Part | Files | What is modelled |
|---|---|---|
| Processes | `Process`, `Lifecycle`, `Reachable`, `Bracketing`, `Calls`, `Descriptors`, `Fairness`, `ClockDrift`, `Output`, `Kernel`, `Command` | the process queue, PCBs, `sched`, `execute`, `halt32`, descriptors, and every run made of them |
| Memory | `Paging`, `AddressSpace` | page directory and tables, and the two-level walk of section 4.3, "32-Bit Paging", of the Intel SDM, volume 3A |
| Clock | `Rtc` | register A, the cached frequency, the rate each process asked for |
| Terminals | `Layout`, `Screens`, `Independence`, `LineEditor`, `Typing`, `Terminal` | three terminals over one displayed and three backup pages, with the keyboard's line editor |
| Files | `FileSystem`, `Directory` | block-indexed reads, the directory as a file, lookup by name, program loading |
| grep | `Grep`, `GrepExact`, `GrepStale`, `GrepDirectory` | the buffered search with its carry-over, and the whole program |
| Blink | `BlinkList`, `InStep`, `Blink` | the linked list over a fixed pool of 2000 slots and its clock tasklet |
| Text | `Text`, `Limits`, `Numerals`, `Arguments` | C strings and lines, `itoa` and `printf` numbers, splitting and joining arguments |

**How it is built.** What the source updates in place is a class or an array
here, and each method is proved to do what a pure function of the old state
says (`Kernel.Machine` against `Process`, `Terminal.Driver` against `Screens`
and `LineEditor`, `Blink.Blinker` against `BlinkList`). The promises are then
proved about those functions: invariants over every run, and equality with a
definition that does not know how the code works (the lines of a text, the
unbounded layout of a screen, a list editor, a list of blinking characters).
Main results about processes are stated for every run from boot, a sequence of
operations of any length with the states between them (`Lifecycle.FromBoot`);
the bookkeeping that proves them, each live process's terminal, depth and
caller, stays in `Lifecycle.History`.

**What is false of the code, and exactly when it holds.** For a file without
NUL bytes grep searches whole lines exactly when the pattern is not empty and
no line with the pattern is longer than 1024 bytes (`GrepExact.GrepIsExactIff`;
`GrepExact.LongLineIsCut` is a file that fails). That takes for granted that the
stack byte behind the buffer is no newline, which no caller can check; if it is
one, the first full buffer that ends inside a line must also cut no line with
the pattern short (`GrepStale.StaleIsExactIff`,
`GrepStale.StaleNewlineSplitsLine`), and files under 1024 bytes are safe
(`Grep.ShortIsWritten`). The check for an executable tells files with the magic
bytes from files without exactly when the first bytes can be read and are not a
proper beginning of the magic ones, because what the stack held stands in for
the others (`Directory.ValidityIsExactIff`): an empty file may pass
(`Directory.EmptyFilePasses`), and so may one whose first block or inode does
not exist (`Directory.MissingBlockPasses`). Adding a blinking character keeps
the list exactly when its location is not 0 (`Blink.AddKeepsListIff`,
`Blink.ZeroLocationMakesLoop`). Synchronising displays the right character
exactly when the source is off or both characters are the same
(`BlinkList.SyncShowsOff`, `BlinkList.SyncShowsWrong`). Ending a process leaves
the clock at the right rate exactly when its parent wants none or the one
already set (`Bracketing.RateFollowsProcess`), and a run from boot ends with
the wrong one (`ClockDrift.RateCanBeWrong`). The splitter finds every word
exactly when only blanks follow the first newline that ends no word
(`Arguments.ArgvIsAllFieldsIff`), and loses one in `a`, newline, newline, `b`
(`Arguments.SecondNewlineLosesWords`). A reader is shown its own line exactly
when nothing has been typed for it or the displayed terminal's line is the
same (`LineEditor.ReaderShowsOwnLineIff`, `Typing.ReaderIsShownAnotherLine`).

**Assumptions.** Each system call and each clock tick is one atomic step; only
`halt32` disables interrupts (`student-distrib/syscall.c:35`). PCBs start with
every descriptor closed, because the code never clears them. A command passed
to `execute` fits `program[129]` and `argument[128]`. A kernel stack slot that
is read before it is written holds an arbitrary value, which is a parameter.
The image has the shape the kernel relies on: 32-byte names, 1023 block
numbers an inode, 4096-byte blocks, no length beyond what an inode can index;
block numbers may be wrong, and reads then fail as they do in the code. The
shell, and a program that is executed, fit the process page they are loaded
into; nothing is asked of the other files.

**Where comments and code differ** the code is followed: `rtc_write` returns 0
or 1 and not a byte count; `getargs` with a negative size stores an empty
string and succeeds; the low page table's video pages are supervisor pages;
`program_load` writes through the virtual address of the process page.

`dafny verify dfyconfig.toml` checks the whole project.

## Model

| member | source | states |
|---|---|---|
| Text.PiecesAreCutLines | syscalls/ece391grep.c:29-57 | reading a text with a fresh piece after each newline and each n bytes is the same as splitting it into lines and cutting the long ones |
| Text.PiecesExtend | student-distrib/drivers/terminal.c:309-331 | one more byte changes only the last piece, or starts a new one: why printing needs no look back |
| FileSystem.ReadData | student-distrib/drivers/fs.c:237-272 | -1 exactly for a bad inode or a bad block in the range; else the bytes of the file from offset, as many as exist, and nothing else written; a failing read changes no byte that stands for a bad block |
| FileSystem.FileIsItsBlocks | student-distrib/drivers/fs.c:237-272 | the bytes of a file that can be read are those of its blocks in order, cut to its length |
| FileSystem.Descriptor.FsRead | student-distrib/drivers/fs.c:56-77 | a read gives the next slice of the file, short only at its end; a failing one leaves the position |
| FileSystem.ReadDirFile | student-distrib/drivers/fs.c:100-117 | the directory is read as its name fields one after another, and past their end there is nothing |
| FileSystem.Descriptor.DirectoryRead | student-distrib/drivers/fs.c:127-140 | consecutive slices of the listing |
| FileSystem.Descriptor.Read | student-distrib/syscall.c:203-213 | whatever the kind of file, a read gives the next slice of its content |
| FileSystem.ChunksRefineFile | student-distrib/drivers/fs.c:56-77 | slices of any sizes, each taken where the one before ended, put together are the next so many bytes |
| FileSystem.ShortOnlyAtEnd | student-distrib/drivers/fs.c:56-77 | such a slice is short if and only if the content has ended |
| FileSystem.ReadChunks | student-distrib/drivers/fs.c:56-77 | successive reads of any sizes through one descriptor deliver those slices of the file: put together they are its next bytes, and one is short if and only if the file has ended |
| Directory.StrNCmp | student-distrib/lib.c:400-414 | 0 if and only if the strings, cut at n bytes, are equal |
| Directory.StrNCpy | student-distrib/lib.c:437-448 | the first n bytes of the string, padded with NULs |
| Directory.ReadDentryByName | student-distrib/drivers/fs.c:183-201 | finds exactly what the directory holds under the name, with its type and inode |
| Directory.LookupSound | student-distrib/drivers/fs.c:183-201 | the entry found has the name; if none is found no entry has it |
| Directory.LongNameFails | student-distrib/drivers/fs.c:183-201 | names over 32 bytes are never found |
| Directory.ListingByName | student-distrib/drivers/fs.c:100-140 | 32-byte slices of the listing are the names in order, one each, and then nothing for ever |
| Directory.ReadNames | student-distrib/drivers/fs.c:100-140 | successive 32-byte reads of the directory deliver the name fields in order, and then nothing for ever |
| Directory.ListedNameIsFound | student-distrib/drivers/fs.c:183-201 | a listed name looked up finds the first entry of that name, which is its own when names are distinct |
| Directory.ProgramValid | student-distrib/drivers/fs.c:319-337 | accepts an existing file exactly when the header variable holds the four magic bytes once the file's first bytes, if they can be read, are read over what it held |
| Directory.ValidityIsExactIff | student-distrib/drivers/fs.c:328-334 | for any inode of any image, that is the same as starting with the magic bytes, whatever the variable held, if and only if the first bytes can be read and are not a proper beginning of the magic bytes |
| Directory.EmptyFilePasses | student-distrib/drivers/fs.c:328-334 | an empty file is accepted when the variable still holds an earlier header |
| Directory.MissingBlockPasses | student-distrib/drivers/fs.c:328-334 | so is a file whose first block, or whose inode, does not exist |
| Directory.MagicIsInFile | student-distrib/drivers/fs.c:328-334 | for a file that can be read, starting with the magic bytes is a matter of its content |
| Directory.ProgramLoad | student-distrib/drivers/fs.c:286-309 | the whole file is in the page, also when its length is a multiple of 4096, the rest of the page is untouched, and the result is the little-endian word read at 24 over what the variable held: for a file of at least 28 bytes, byte k of it is byte 24 + k of the file |
| Directory.EntryIsInFile | student-distrib/drivers/fs.c:299-300 | for a file of at least 28 bytes that word is bytes 24 to 27 of the file, and byte k of its value byte 24 + k |
| Directory.LittleEndianBytes | student-distrib/drivers/fs.c:299-300 | byte k of the value of a word, the lowest first, is byte k of the word |
| Grep.NCmp | syscalls/ece391support.c:35-46 | 0 if and only if the bytes at that place match the pattern, for text without NULs |
| Grep.StrCpyDown | syscalls/ece391support.c:14-17 | the overlapping copy moves the string down intact and changes nothing past it |
| Grep.SearchLine | syscalls/ece391grep.c:42-51 | writes the line once if the pattern occurs in it, and nothing otherwise |
| Grep.ContainsIff | syscalls/ece391grep.c:42-51 | the pattern occurs in a line if and only if the line is something, the pattern and something |
| Grep.ScanBuffer | syscalls/ece391grep.c:28-57 | what has been written and what is still to be written always add up to the same report |
| Grep.DoOneFile | syscalls/ece391grep.c:9-66 | terminates, succeeds exactly when the file can be read, and then reports the pieces of at most 1024 bytes of a NUL-free file that contain the pattern, whatever the buffer held at first, but for a newline right behind it: that ends the line the first full buffer ends inside of |
| Grep.ShortIsWritten | syscalls/ece391grep.c:21-57 | to a file under 1024 bytes that newline makes no difference |
| GrepExact.GrepIsExact | syscalls/ece391grep.c:15-66 | for any name, that report is the list of all lines containing the pattern, whole, once, in order, if the pattern is not empty and no such line exceeds 1024 bytes |
| GrepExact.GrepIsExactIff | syscalls/ece391grep.c:15-66 | and only if, for a name without newlines |
| GrepExact.LongLineIsCut | syscalls/ece391grep.c:28-57 | a line of 1025 bytes with the pattern is not reported as it stands |
| GrepStale.StaleIsExactIff | syscalls/ece391grep.c:31-41 | with a newline behind the buffer the report is that list if and only if, besides, the first full buffer that ends inside a line takes the end off no line with the pattern |
| GrepStale.StaleNewlineSplitsLine | syscalls/ece391grep.c:31-41 | a line of 1024 bytes behind an empty one is reported whole without that newline and not with it |
| GrepExact.ReportInjective | syscalls/ece391grep.c:45-48 | the report determines the lines reported |
| GrepDirectory.Search | syscalls/ece391grep.c:68-98 | the program as the running process: its argument, read by the kernel's getargs, is the pattern; without one it says so and searches nothing, else it does what SearchAll says |
| GrepDirectory.SearchAll | syscalls/ece391grep.c:79-97 | the exit status says exactly whether every visible file could be read; for files without NUL bytes the output is the reports on all of them in directory order, each as its buffer was found |
| GrepDirectory.ReportsWhenSealed | syscalls/ece391grep.c:79-97 | those are the plain reports when every file is under 1024 bytes or found no newline behind the buffer |
| GrepDirectory.DotIsSkipped | syscalls/ece391grep.c:89-90 | a name that begins with a dot is not searched, every other one is |
| Rtc.SetFreqReachesHardware | student-distrib/drivers/rtc.c:49-101 | a supported request is what the hardware then runs at, early return included; the cache keeps agreeing with register A |
| Rtc.InitIsConsistent | student-distrib/drivers/rtc.c:33-41 | initialisation establishes that agreement for any register contents |
| Rtc.Device.SetFrequency | student-distrib/drivers/rtc.c:49-101 | the register and cache become what SetFreq says; the result tells refused, already set and set apart |
| Paging.PageTables.InitPages | student-distrib/page.c:9-80 | establishes the mapping user mode is meant to have |
| Paging.PageTables.MapUser | student-distrib/page.c:88-94 | only the process page's frame changes |
| Paging.PageTables.Map4kb | student-distrib/page.c:105-114 | only one entry of the video table changes |
| Paging.TranslationIsExact | student-distrib/page.c:9-94 | user mode reaches the running frame and the three video pages, at the right physical bytes, and nothing else |
| Paging.FramesDisjoint | student-distrib/page.c:88-94 | no address of one process's program page reaches another process's frame |
| Lifecycle.BootEstablishes | student-distrib/schedule.c:141-177 | the state after boot has three shells, one chain each |
| Lifecycle.NextIsCloser | student-distrib/schedule.c:67-74 | the scan finds a scheduled process other than the running one, none nearer in cyclic order |
| Lifecycle.SchedKeeps | student-distrib/schedule.c:42-104 | a tick keeps the chains and never falls through the scan |
| Lifecycle.ExecuteKeeps | student-distrib/syscall.c:97-193 | a successful execute extends one terminal's chain by the new process |
| Lifecycle.ExecuteFailureKeeps | student-distrib/syscall.c:97-145 | a failing one keeps every chain |
| Lifecycle.HaltKeeps | student-distrib/syscall.c:20-68 | a halt shortens the chain by one, or restarts a shell in place |
| Lifecycle.CallKeeps | student-distrib/syscall.c:240-305 | open, close, clock writes and reads keep everything |
| Lifecycle.StepKeeps | student-distrib/syscall.c:20-305 | every kernel operation keeps the invariant |
| Lifecycle.RunKeeps | student-distrib/schedule.c:42-177 | and so does every run |
| Reachable.EveryReachableState | student-distrib/schedule.c:27-177 | in every reachable state live pids form three acyclic parent chains rooted at 0, 1, 2, one per terminal, with one runnable leaf each and loaded ancestors; no two share a parent; free pids have all descriptors closed and live ones 0 and 1 open; the running process is scheduled and its stack and frame are set; the clock cache is right |
| Reachable.RunnerStays | student-distrib/schedule.c:67-87 | from the first tick on some process is always running |
| Bracketing.OthersUntouched | student-distrib/syscall.c:97-190 | no operation changes the PCB of a live process that is not running |
| Bracketing.ExecuteReturnsToCaller | student-distrib/syscall.c:48-65 | whatever all terminals do in between, when a child ends its caller runs again, out of the execute call that started the child, with its own stack, frame and PCB |
| Bracketing.ChildKeepsArgument | student-distrib/syscall.c:130-141 | as long as a child lives its argument is the one on its command line |
| Bracketing.SleepThenWake | student-distrib/schedule.c:50-104 | a process put to sleep by a tick, whenever it next runs, resumes with exactly the registers saved then |
| Calls.ChildStartsAtEntry | student-distrib/schedule.c:90-104 | over every run, a process started by an execute is, when it first runs, at the entry point of its program |
| Calls.ShellStartsAtEntry | student-distrib/schedule.c:90-104 | and a shell, when it first runs, at the entry point it was loaded with |
| Calls.ShellRestarts | student-distrib/syscall.c:28-33 | a shell that ends runs again from the shell's entry point, and nothing else changes |
| Calls.ExecuteFills | student-distrib/syscall.c:118-190 | the new process's PCB: pid, parent, terminal, argument, entry point, the execute call's registers, never run, no clock rate |
| Bracketing.NewProcessHasStdio | student-distrib/syscall.c:161-166 | a new process has descriptors 0 and 1 open and no others |
| Bracketing.FailedExecuteChangesNothing | student-distrib/syscall.c:97-145 | a failing execute touches no live process, queue, mapping or clock |
| Bracketing.OpenTakesLowest | student-distrib/syscall.c:240-278 | open takes the lowest closed descriptor, always 2 to 7, and no other changes; a failing open changes nothing |
| Calls.OpenSucceedsIff | student-distrib/syscall.c:240-278 | open succeeds if and only if one of descriptors 2 to 7 is closed and the name stands for the clock, a directory or a file |
| Calls.OpenFillsDescriptor | student-distrib/syscall.c:262-276 | the new descriptor has the entry's inode and operations; opening the clock sets process and hardware to 2 Hz, opening anything else leaves both alone |
| Calls.CloseClosesOne | student-distrib/syscall.c:286-305 | close closes exactly the open descriptor from 2 to 7 it is given, with the clock's the process's rate is given up, and any other close changes nothing |
| Calls.EndGivesUp | student-distrib/syscall.c:37-46 | a process that ends has all eight descriptors closed and, if one was the clock's, no rate; its PCB keeps the rest |
| Calls.WriteSetsRate | student-distrib/drivers/rtc.c:147-154 | writing one of the ten rates makes it the process's and the hardware's, any other changes nothing |
| Bracketing.RateFollowsProcess | student-distrib/schedule.c:89-90 | after each reschedule the hardware runs at the process's rate, all calls keep that, and a halt does if and only if the parent's rate is unset or already programmed |
| ClockDrift.RateCanBeWrong | student-distrib/syscall.c:35-65 | that failing case is reached: eight operations from boot a parent runs on with the clock at its child's rate |
| Descriptors.PositionsInFile | student-distrib/syscall.c:203-278 | in every state of every run on an image descriptors 0 and 1 of a live process are the terminal's, and the others, when open, belong to the clock, the directory or a file, at a position within what the image holds there |
| Descriptors.ReadsAreConsecutive | student-distrib/drivers/fs.c:56-77 | whatever all processes do in between, the reads of one process from one descriptor deliver, put together, the bytes the image holds between the positions before and after them, and nothing else about the descriptor changes while it is open |
| Descriptors.OpenedFileIsReadInOrder | student-distrib/syscall.c:203-278 | so a process that opens a name and reads on has, whenever it stops, read exactly the beginning of the file or directory the image has under that name |
| Descriptors.ShortReadEndsFile | student-distrib/syscall.c:203-278 | and all of it once a read has come back short |
| Bracketing.StacksDisjoint | student-distrib/process.c:27-36 | PCB and stack blocks of distinct pids never overlap and lie in the kernel's page |
| Bracketing.BlocksTile | student-distrib/process.c:27-36 | the blocks tile the memory below 8 MB, 8 KB each, one after the other downwards |
| Fairness.TurnComesCloser | student-distrib/schedule.c:67-87 | every reschedule runs a waiting process or brings it closer to its turn |
| Fairness.BoundedWaiting | student-distrib/schedule.c:67-87 | a scheduled process runs within as many reschedules as it is behind the running one in cyclic order, at most five, and five more for each process that ends meanwhile |
| Fairness.TicksCycle | student-distrib/schedule.c:67-87 | three ticks run the three terminals' leaves once each and come back |
| Kernel.Machine.GetAvailablePid | student-distrib/schedule.c:27-34 | the lowest free pid, or -1 when there is none |
| Kernel.Machine.SchedQueueProcess | student-distrib/schedule.c:118-133 | one process leaves the round, to wait or for good, and another enters it |
| Kernel.Machine.FindNext | student-distrib/schedule.c:67-77 | the loop computes the next process of the cyclic scan |
| Kernel.Machine.Sched | student-distrib/schedule.c:42-107 | the whole new state of a reschedule, page directory included |
| Kernel.Machine.ExecuteSh | student-distrib/schedule.c:151-177 | one shell's PCB, queue slot, mapping and loaded program |
| Kernel.Machine.InitShells | student-distrib/schedule.c:141-149 | boot leaves three shells loaded and ready, each with standard input and output and no other descriptor, and with the entry point of the shell: the state all results start from |
| Kernel.ParseName | student-distrib/syscall.c:118-132 | the name copied is the command's program, the rest its argument |
| Kernel.Machine.StoreArgument | student-distrib/syscall.c:134-141 | the PCB's argument is the rest of the command line, terminated |
| Command.ParseIsReading | student-distrib/syscall.c:118-141 | name and argument are a reading of the command line as blanks, word, blanks, rest |
| Command.ReadingIsUnique | student-distrib/syscall.c:118-141 | there is no other such reading |
| Kernel.Machine.Execute | student-distrib/syscall.c:87-193 | the whole new state of an execute, success or failure; the program lies in the child's frame and every other frame is untouched |
| Kernel.HeldAt | student-distrib/drivers/fs.c:292-306 | the program's file stands 0x48000 bytes into the frame, byte for byte |
| Kernel.Machine.Halt32 | student-distrib/syscall.c:20-68 | the whole new state of a halt; a shell is loaded afresh, and its page then holds the shell |
| Kernel.Machine.CloseAll | student-distrib/syscall.c:37-46 | all eight descriptors end closed, the clock rate given up with an open clock |
| Kernel.Machine.OpenFile | student-distrib/syscall.c:240-278 | the descriptor, its operations and inode, or -1 and no change |
| Kernel.Machine.CloseFile | student-distrib/syscall.c:286-305 | 0 exactly for an open descriptor other than 0 and 1 |
| Kernel.Machine.WriteClock | student-distrib/drivers/rtc.c:147-154 | the process's rate and the hardware's change together or not at all |
| Kernel.Machine.ReadFile | student-distrib/drivers/fs.c:56-77 | -1 exactly for a bad inode or a bad block in the range; else the bytes the image has at the descriptor's position, as many as there are, and a step of the runs that moves the running process's position by their number |
| Kernel.Machine.ReadDirectory | student-distrib/drivers/fs.c:127-140 | the same for the listing of the directory |
| Kernel.Machine.Read | student-distrib/syscall.c:203-213 | -1 for no buffer, a descriptor out of range or a closed one; else the read of the descriptor's own kind, as a step of the runs |
| Kernel.Machine.GetArgs | student-distrib/syscall.c:314-334 | the argument, terminated, exactly when there is one and it fits |
| Kernel.Machine.Vidmap | student-distrib/syscall.c:342-356 | succeeds exactly for pointers in the process page and gives the address of the caller's terminal |
| AddressSpace.RunningProcessSeesItsFrame | student-distrib/page.c:88-94 | after every run, with any printing, clearing and switching between its operations, user addresses 128 MB to 132 MB reach exactly the running process's frame, each terminal's address the page it is drawn on at that moment, and nothing else is open; the stack in the TSS is the process's |
| AddressSpace.ProgramIsMapped | student-distrib/page.c:88-94 | and there user address 0x08048000 finds it |
| AddressSpace.VidmapReachesDrawnPage | student-distrib/syscall.c:342-356 | the address vidmap hands out reaches the page the caller's terminal is drawn on, displayed or not |
| AddressSpace.SwitchKeepsPagesShared | student-distrib/drivers/terminal.c:98-114 | switching keeps the kernel's and user mode's page of every terminal the same |
| Layout.PrintChar | student-distrib/drivers/terminal.c:316-331 | a printed character appears at the end of the layout and nowhere else |
| Layout.PrintedIs | student-distrib/drivers/terminal.c:301-304 | what is printed of a text is all of it but its NULs and carriage returns |
| Layout.PutEffect | student-distrib/drivers/terminal.c:301-334 | writing one cell, moving on and scrolling is printing on the layout seen through a 25-row window |
| Layout.ScreenIsLastRows | student-distrib/drivers/terminal.c:162-187 | the window always shows the last 25 rows |
| Layout.ScreenCell | student-distrib/drivers/terminal.c:162-187 | each cell is the layout's character there or a blank, in the normal attribute |
| Independence.ShowIsInvisible | student-distrib/drivers/terminal.c:86-120 | switching changes no terminal's screen or cursor |
| Independence.TerminalsAreIndependent | student-distrib/drivers/terminal.c:86-334 | under any interleaving each terminal is as its own operations alone would leave it |
| Independence.ScreenRefinement | student-distrib/drivers/terminal.c:129-334 | a terminal cleared and printed on, whatever happens elsewhere, shows the last 25 rows of the 80-column layout of its text with the cursor at the end |
| Independence.PutKeepsAttributes | student-distrib/drivers/terminal.c:162-182 | on any screen a byte changes no attribute but that of the cell it is written to, and scrolling moves every character up a row |
| Independence.AnyScreenShows | student-distrib/drivers/terminal.c:52-77 | no clearing is needed to begin with: a screen in the normal attribute that is blank from the cursor on shows the text in it |
| LineEditor.BackspaceEdits | student-distrib/drivers/terminal.c:229-252 | backspace undoes one character in buffer, screen and column, across row ends; the corner refusal loses nothing |
| LineEditor.TypingRefinesEditor | student-distrib/drivers/terminal.c:195-252 | any run of characters, tabs, backspaces and redraws does to buffer, screen and cursor what the editor of a line of at most 127 bytes and a column does; the text before the line stays as it was until a redraw clears it |
| LineEditor.TypingFromScratch | student-distrib/drivers/terminal.c:195-252 | and it does so from any screen on which no line has been begun |
| LineEditor.TabReachesStop | student-distrib/drivers/terminal.c:214-221 | a tab adds one to four blanks and ends on a multiple of four, or fills the line |
| LineEditor.LineStandsBeforeCursor | student-distrib/drivers/terminal.c:195-206 | the edited line stands in the cells just before the cursor |
| LineEditor.BlanksFollowCursor | student-distrib/drivers/terminal.c:229-252 | and blanks follow it |
| LineEditor.OthersLeaveLineAlone | student-distrib/drivers/terminal.c:301-334 | output on other terminals, and switching, do not disturb a line being typed |
| Typing.TypingAmongOthers | student-distrib/drivers/terminal.c:86-252 | however keys, switching, and the output, lines and reads of the other terminals follow each other, a terminal's line, screen and cursor are what the editor makes of the keys pressed while it was displayed |
| Typing.ReaderWaits | student-distrib/drivers/terminal.c:261-277 | and its reader waits on, whatever terminal is displayed, until Enter is pressed for it |
| Typing.ReaderGetsItsLine | student-distrib/drivers/terminal.c:261-390 | a read on any terminal that shows its own line or none, then anything but Enter for that terminal: the first Enter for it ends the read with the line as edited and its newline |
| Typing.ReaderGetsItsBuffer | student-distrib/drivers/terminal.c:261-390 | on a terminal that shows another's line it ends the read with what the terminal's own buffer holds, and the newline |
| LineEditor.ReadTakesAllOrNothing | student-distrib/drivers/terminal.c:378-390 | a read with room for the line empties the buffer, a shorter one gets the first bytes and leaves the whole line for the next; no screen or other line changes |
| LineEditor.EnterDelivers | student-distrib/drivers/terminal.c:261-277 | Enter hands a waiting reader the line and its newline, at most 128 bytes, and the next line starts empty |
| LineEditor.ReaderShowsTypedLine | student-distrib/drivers/terminal.c:356-371 | on the displayed terminal a reader that comes late shows what was typed and editing goes on |
| LineEditor.ReaderShowsOwnLineIff | student-distrib/drivers/terminal.c:280-371 | on any terminal a reader is shown its own line if and only if nothing has been typed for it or the displayed terminal's line is the same |
| Typing.ReaderIsShownAnotherLine | student-distrib/drivers/terminal.c:280-371 | "a" typed for one terminal and "b" for the next: a reader on the first is shown "b" |
| Terminal.Driver.TermInit | student-distrib/drivers/terminal.c:52-77 | three empty terminals, the first displayed; the hardware cursor is left where it was, which is right if it was at the top |
| Terminal.Driver.TermClear | student-distrib/drivers/terminal.c:129-141 | every cell of that terminal's page, and its cursor, and nothing else |
| Terminal.Driver.ScrollPage | student-distrib/drivers/terminal.c:162-182 | characters move up a row, the last row is blanked, attributes stay |
| Terminal.Driver.TermPutc | student-distrib/drivers/terminal.c:301-334 | the whole new state of printing a byte |
| Terminal.Driver.ShowTerminal | student-distrib/drivers/terminal.c:86-120 | pages swapped, pointers, page-table entries and cursor redirected, or nothing |
| Terminal.Driver.TerminalWrite | student-distrib/drivers/terminal.c:402-417 | every byte printed in order on the terminal given |
| Output.ChainIsTerminal | student-distrib/process.c:47-61 | a live process is in the parent chain of exactly one terminal's shell, that of the terminal in its PCB |
| Output.OutputStaysInChain | student-distrib/process.c:47-61 | over every run from boot, with the running process writing to its own terminal and the user switching in between, a terminal shows what it did at first and then exactly what the processes of its own chain wrote |
| Terminal.Driver.KeyboardChar | student-distrib/drivers/terminal.c:195-206 | buffer and screen together, refused at 127 bytes |
| Terminal.Driver.KeyboardTab | student-distrib/drivers/terminal.c:214-221 | blanks to the next tab stop, as far as the buffer allows |
| Terminal.Driver.KeyboardBackspace | student-distrib/drivers/terminal.c:229-252 | the whole new state of a backspace |
| Terminal.Driver.KeyboardEnter | student-distrib/drivers/terminal.c:261-277 | the whole new state of Enter |
| Terminal.Driver.CtrlL | student-distrib/drivers/keyboard.c:171-180 | the screen is cleared and the line shown again |
| Terminal.Driver.TerminalReadBegin | student-distrib/drivers/terminal.c:362-371 | the reader waits and the typed line is shown |
| Terminal.Driver.TerminalReadEnd | student-distrib/drivers/terminal.c:378-390 | the reader gets the first bytes of the line; the buffer is emptied if it got them all |
| BlinkList.BlinksPeriodically | fish/blink.S:64-86 | n ticks after an add, for any lengths, an entry is on exactly when n modulo its period is below what its on-length lasts, with the matching countdown; a length of 0 or above 32768 lasts one tick |
| BlinkList.ScreenFollowsPhase | fish/blink.S:68-86 | an entry added where nothing blinks stands, after any further actions at other locations, where its ticks alone put it, and the screen shows the character its phase says |
| BlinkList.SyncShowsOff | fish/blink.S:267-286 | synchronising shows the right character if and only if the source is off or the characters are equal |
| InStep.SyncedBlinkTogether | fish/blink.S:267-286 | after synchronising, and any actions at other locations, the two characters have equal lengths, countdown and status after any number of ticks; the source goes on as if nothing had happened |
| InStep.RemoveUndoesAdd | fish/blink.S:105-237 | removing undoes adding in the list, and leaves the screen alone |
| InStep.NothingThere | fish/blink.S:187-300 | removing from, or synchronising with, a location without entries changes nothing |
| BlinkList.OtherCellsStay | fish/blink.S:49-300 | no action touches an attribute, or a cell without entries that it is not about |
| BlinkList.LastPokesLast | fish/blink.S:49-99 | of several entries at one place the last in the list pokes last |
| BlinkList.SyncShowsWrong | fish/blink.S:267-286 | a source that is on leaves a blank where the destination's "on" character should be |
| Blink.FullPool | fish/fish.c:160-170 | the pool has a free slot if and only if fewer than 2000 characters blink |
| Blink.AddKeepsListIff | fish/blink.S:105-170 | adding keeps the list if and only if the location is not 0 |
| Blink.ZeroLocationMakesLoop | fish/blink.S:159-162 | after an addition at location 0 the next one links its node to itself |
| Blink.Blinker.Malloc | fish/fish.c:160-170 | the first free slot |
| Blink.Blinker.FindHelper | fish/blink.S:351-379 | the newest node at the location |
| Blink.Blinker.Add | fish/blink.S:105-184 | the new entry is on and first; -1 exactly for a bad location or a full pool, and then nothing changes |
| Blink.Blinker.Remove | fish/blink.S:187-237 | exactly the newest node at the location is unlinked and its slot freed |
| Blink.Blinker.Find | fish/blink.S:302-349 | the newest entry at the location |
| Blink.Blinker.Tasklet | fish/blink.S:49-99 | every entry ticks once and the screen gets the changes in list order |
| Blink.Blinker.Sync | fish/blink.S:240-300 | the newest entry at one location takes over the timing of the newest at another |
| Numerals.StrRev | student-distrib/lib.c:208-221 | the string is reversed in place and nothing else is touched |
| Numerals.Itoa | student-distrib/lib.c:172-202 | the buffer holds the numeral, terminated, and nothing else is touched |
| Numerals.NumeralIsProper | student-distrib/lib.c:172-202 | the numeral has only digits of the radix, no leading zero, and evaluates to the value |
| Numerals.DigitIs | student-distrib/lib.c:173 | the digits are 0 to 9 and A to Z |
| Numerals.NumeralIsUnique | student-distrib/lib.c:172-202 | no other proper numeral does |
| Numerals.NumeralLength | student-distrib/lib.c:71-86 | a number below the n-th power of the radix has at most n digits, so the conversion buffers suffice |
| Numerals.PrintAlternateHex | student-distrib/lib.c:80-86 | `%#x` writes the eight-digit form, found by where the padding must start |
| Numerals.HexadecimalIsExact | student-distrib/lib.c:80-86 | that is the only string of eight hexadecimal digits with the value |
| Numerals.PrintPlain | student-distrib/lib.c:73-99 | `%x` and `%u` write the numeral |
| Numerals.PrintDecimal | student-distrib/lib.c:102-115 | `%d` writes a sign and the numeral, the least integer included |
| Numerals.DecimalIsExact | student-distrib/lib.c:102-115 | which reads back as the value, with a sign exactly when it is negative |
| Arguments.Split | syscalls/ece391emulate.c:66-101 | refused exactly over 1023 bytes; else inside the 1026-byte buffer, at most 512 of the slots, each holding one argument, closed by the null slot |
| Arguments.RestIsFields | syscalls/ece391emulate.c:84-99 | the arguments are the non-empty fields between blanks, up to the first newline that does not end a word |
| Arguments.ArgvIsAllFieldsIff | syscalls/ece391emulate.c:66-101 | they are all the words of the command if and only if only blanks follow that newline |
| Arguments.SecondNewlineLosesWords | syscalls/ece391emulate.c:84-99 | a second newline in a row makes the splitter lose the word behind it |
| Arguments.CommandIsFields | syscalls/ece391emulate.c:76-99 | so a newline-free command is split into all its space-separated words |
| Arguments.SlotsSuffice | syscalls/ece391emulate.c:66-101 | at most 512 arguments, all words, which joined again fit any 1024-byte buffer |
| Arguments.GetArgs | syscalls/ece391emulate.c:131-157 | succeeds exactly when the joined arguments and a terminator fit, and then stores them |
| Arguments.SplitJoin | syscalls/ece391emulate.c:76-157 | splitting joined arguments gives the same arguments |
| Arguments.JoinSplit | syscalls/ece391emulate.c:76-157 | executing a name with its joined arguments is executing the original command |

## Left out

- Kernel.Machine.Halt32: saved contexts are tokens, the base pointer of the execute call or of the scheduler's frame; register and stack switching, `iret` and the TLB are not modelled, and `halt_ret`'s stack pointer is the one its `leave` overwrites.
- Kernel.Machine.Execute: commands must fit the kernel's buffers and the program named its page, which the code does not check; the branch for a missing parent is not modelled, because boot starts the shells another way.
- Kernel.Machine.Read: reading the terminal is `Terminal.Driver`'s part, and is excluded here with buffers shorter than the count.
- Bracketing.SleepThenWake: a saved base pointer of 0 means "never run", so it is excluded; `Calls.ChildStartsAtEntry` is about that case.
- AddressSpace.RunningProcessSeesItsFrame: read-only, cache and global bits of page-table entries are not modelled; nor are accesses by the kernel itself.
- Terminal.Driver.KeyboardEnter: requires room for the newline, which keys between one Enter and the reader's drain can use up, as a second Enter behind a full line does.
- Terminal.Driver.TermShowbuf: prints the displayed terminal's line whatever terminal is asked for, as the code does; what is proved about typing is about the displayed terminal.
- Terminal.Driver.TermClear: a page is a sequence of cells, a character and an attribute, not of bytes.
- Grep.DoOneFile: what is written for a file with NUL bytes, or before a read fails midway, is not stated; reading the real-time clock as a file delivers no bytes.
- GrepDirectory.SearchAll: takes the entry "." to be a directory, if there is one.
- Directory.ProgramLoad: requires the name to exist, as its callers make sure, and the file to fit the process page.
- FileSystem.ReadData: the image is given by its structure, not by its raw bytes.
- Blink.Blinker.Add: keeps the list only for locations other than 0; the copy from and to user memory always succeeds.
- Arguments.GetArgs: the buffer has one byte more than the size given, since an argument that fills the room exactly has its terminator written past it.
- Numerals.PrintDecimal: the negation of the least integer is taken to wrap round.
- Preemption inside a system call, and keys that arrive while a read drains the buffer.
- `process_arr`, which is written but never consulted.
- The dispatch of write over the descriptors' operations beyond the clock and the terminal; `rtc_read`'s waiting; the stub operations that return a constant.
- Port input and output, interrupt controller, timer, descriptor tables, multiboot parsing, exceptions and signals.
- `printf`'s scan of the format string, its string and character conversions, and the assembly bodies of `memset`, `memcpy` and `memmove`.
- The keyboard's scan code tables, and `fork`, `exec` and `mmap` in the emulation layer.
- The other user programs.
