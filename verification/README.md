# SrirachOS, modelled and proved in Dafny

SrirachOS is a small x86 teaching kernel: three text terminals share one video page, six
process slots are scheduled round robin, paging gives every program its own 4 MB frame, and a
read-only block file system holds the programs. A user program, "fish", keeps a pooled linked
list of blinking characters. This project models that behaviour and proves what the parts
promise together, for all inputs and over whole runs.

How the files fit together:

- `Terminal` is one terminal as a value and the unbounded paper its text lies on; `Display` is
  video memory updated in place, with one page shown and three pages behind it.
- `Processes` is the process table as a value; `ProcessTable` updates it in place. `Ancestry`,
  `SevenSlots`, `Stacks` and `Fairness` prove what its runs keep.
- `Paging` is the two-level address translation and what the kernel writes into its tables;
  `Mmu` fills the tables in place.
- `System` puts table, terminals, paging and memory together as one state machine; `Kernel` is
  the imperative kernel, each of whose operations takes exactly one of its steps. `Screens`,
  `VideoAim` and `Isolation` are the theorems about all its runs.
- `CommandLine` is the parsing of the command given to `execute`, `Arguments` what becomes of its
  argument until a program asks for it.
- `FileImage` (raw image bytes, `read_data` with its 32-bit arithmetic), `Names` (lookup and
  autocompletion), `Files` and `Descriptors` (descriptor table), `StaleInode` (a run that shows
  one of its quirks), `Cat` and `Ls` (client programs).
- `DiskImage` writes out an image byte by byte, knowing nothing of how it is read; `ReadBack`
  proves that what is stored is found again, `Packing` that any list of files can be stored,
  `StoredPrograms` what reads through a descriptor, `cat` and `ls` then give.
- `LineDiscipline` is line editing and mailboxes as values, `Session` the whole system with keys
  and reads among the kernel's steps, `EchoedLine` the law between what is typed and what is seen,
  and `Keyboard` the driver updating buffers in place.
- `SystemRead` follows `read` from file or terminal into the memory of the process that asked,
  `VidmapWord` the address `vidmap` hands out back to the screen.
- `BlinkClock`, `BlinkList` and `BlinkRun`: the fish program's timers, its list, and what a cell
  shows over any run.
- `Numbers`: `itoa`, `strrev` and the `%#x` conversion.

Page-table entries are integers: an aligned address joined by `|` to flags below 0x1000 is
written as their sum. Characters are bytes; a C string is the sequence before its NUL. The
memory of the state machine is what lies outside video memory and outside the kernel's own
variables: its tables, control blocks, stacks and buffers are modelled as what they stand for,
and the claims about the kernel's page concern the rest of that page.

Where the code differs from what one expects, the model follows the code:

- The parent of a new process is the greatest lower slot of the displayed terminal, not the
  caller; the program starts in the displayed terminal even if a background process asked.
- Process frames are 16 MB apart, because the address is computed in words.
- `read_data` misreads for offsets or lengths near 2^32; `PlanCorrect` says exactly when.
- A clock descriptor stays open for ever; a reopened directory takes the first free descriptor
  and goes on where that one was last left.
- `read`, `getargs` and `vidmap` write wherever the caller's pointer leads in kernel mode, and
  `execute` copies name and argument into arrays of 128 bytes without a check, even when it then
  fails. A pointer into the kernel's own page, or a name or argument of 128 bytes or more,
  overwrites the kernel; `KernelKeptIff` says exactly when, and runs are followed only as far as
  nobody gives either. No line typed at a terminal is long enough.
- A file that nobody has open can be refused, because the inode number a closed file leaves
  behind counts again once a clock or directory takes its descriptor; `StaleClockRefuses` shows it.
- Countdown lengths of 0 or above 0x8000 last one tick.
- ADD accepts location 0, after which the node in the list also counts as free.
- SYNC always draws the off-character, even for a cell that is on.
- The kernel keeps one argument for all terminals, so a program that has not asked for its own
  loses it when another command is executed, even one that fails, or a terminal is shown for the
  first time; `ArgumentKept` says exactly what the kernel holds, `ArgumentLost` gives a run.
- The vidmap page can be aimed at another terminal than the running process's own;
  `AimKeptIff` says which steps cause it, `WrongTerminal` gives a run.

## Model

| member | source | states |
|---|---|---|
| Terminal.RenderingCorrect | student-distrib/lib.c:928-983 | From a blank screen, after any text, the 80x25 grid is the last 25 rows of the text laid out on unbounded paper with wrap at column 80, and the cursor is where the text ends |
| Terminal.PaperChar | student-distrib/lib.c:942-957 | On paper, a character changes one cell of the last row and starts a fresh row exactly at column 79 |
| Terminal.PaperNewline | student-distrib/lib.c:932-941 | On paper, a newline adds one blank row below everything written so far |
| Terminal.BackspaceUndoesEcho | student-distrib/lib.c:772-797 | Backspace after the echo of any non-newline into a blank cell restores grid and cursor, shifted by one row when the echo scrolled |
| Terminal.EraseUndoesLine | student-distrib/lib.c:772-1027 | Typing a line and erasing all of it gives back the same paper cell by cell, wraps and scrolls included |
| Terminal.NothingAfterCursor | student-distrib/lib.c:772-1027 | Printing and erasing keep everything from the cursor on blank |
| Display.Console.ScrollDown | student-distrib/lib.c:971-983 | The in-place scroll moves every row's characters up, blanks the last row, and touches no attribute byte and no other page |
| Display.Console.MyPutc | student-distrib/lib.c:928-961 | Acts on the writing process's terminal as on a terminal alone, wherever its page is; the other two terminals do not change |
| Display.Console.MyPuts | student-distrib/lib.c:840-850 | Prints exactly the given bytes, in order, on one terminal |
| Display.Console.KeyPutc | student-distrib/lib.c:994-1027 | Echoes on the displayed terminal only |
| Display.Console.Backspace | student-distrib/lib.c:772-797 | The double step back through an echoed blank is one step back and one blanked cell |
| Display.Console.ExchangePages | student-distrib/syscall.c:91-132 | Saving one page and showing another changes no terminal's screen |
| Display.Console.CopyPage | student-distrib/lib.c:574-611 | Copies one page's characters to another page and nothing else |
| Screens.TerminalsIndependent | student-distrib/syscall.c:85-136 | Over every interleaving of writes, keys, switches, ticks, program starts, stores and filled buffers, each terminal shows the result of its own operations and of the bytes that arrive on its page |
| Screens.ScreenIsPaper | student-distrib/lib.c:928-1027 | After any run in which nothing is erased and processes write to their program page only, a terminal that was blank shows the last 25 rows of its own text |
| Screens.ScreensKept | student-distrib/syscall.c:85-136 | A switch, a halt and a tick change no terminal's screen |
| Screens.BlankAfterCursor | student-distrib/lib.c:772-1027 | Every screen reached without bytes arriving in video memory is blank from the cursor on |
| VideoAim.OwnTerminalIff | student-distrib/paging.c:144-176 | A store into video memory lands on the storing process's own terminal iff the vidmap page is aimed at that terminal's screen page |
| VideoAim.AimKeptIff | student-distrib/syscall.c:85-136 | A well-aimed vidmap page stays so iff no program starts while the process is in the background, no terminal is shown again that is, or replaces, the process's own, none is opened from the background, and the vidmap call comes from the displayed terminal |
| VideoAim.RunAimIff | student-distrib/syscall.c:85-136 | Over a whole run the page is well aimed throughout iff every step keeps the aim |
| VideoAim.WrongTerminal | student-distrib/syscall.c:85-136 | A concrete run from boot (vidmap call, terminal 1, terminal 0, store) in which the process of terminal 1 paints terminal 0 |
| VideoAim.TickAims | student-distrib/scheduler.c:79-81 | After every hand-over of the CPU the vidmap page is aimed at the new process's terminal |
| ProcessTable.Table.FindParentProcess | student-distrib/syscall.c:161-176 | Returns the greatest lower slot of the terminal, or -1 |
| ProcessTable.Table.TakeSlot | student-distrib/syscall.c:358-379 | Finds and marks the first slot the displayed terminal may use |
| ProcessTable.Table.CreatePcb | student-distrib/syscall.c:289-301 | Records the recomputed parent and puts the process in front of the displayed terminal |
| ProcessTable.Table.Execute | student-distrib/syscall.c:358-405 | The table after starting a program, or unchanged when it is full |
| ProcessTable.Table.Halt | student-distrib/syscall.c:564-590 | The table after any halt: slot freed, terminals fall back to the parent, a shell starts again; it stays consistent when a shell halts only while displayed |
| ProcessTable.Table.CheckTasks | student-distrib/syscall.c:690-702 | The doubly incremented loop finds the next terminal's front process |
| ProcessTable.Table.SwitchTask | student-distrib/scheduler.c:30-64 | A tick makes that process the running one and changes nothing else |
| Processes.ParentFound | student-distrib/syscall.c:161-176 | Whenever a common slot is picked, the search for a parent succeeds |
| Processes.ShellReturns | student-distrib/syscall.c:582-586 | A shell that halts while displayed leaves the table as it was |
| Ancestry.AncestryHolds | student-distrib/syscall.c:289-301 | In every reachable state of the six slots each open terminal's front process is live and its own, and its parents lead down through live slots of that terminal to its shell; the running process is such a front |
| Ancestry.HaltConsistentIff | student-distrib/syscall.c:564-586 | A halt leaves a consistent table iff it is not a shell halting while another terminal is displayed |
| Ancestry.HaltBreaksTable | student-distrib/syscall.c:564-586 | A concrete run from boot (terminal 1 opened, one tick) after which the halt of the first shell leaves the table inconsistent |
| Ancestry.StepKin | student-distrib/syscall.c:161-176 | The inductive invariant behind it: slot 4 never outlives a parent in slot 3, slot 5 is never adopted |
| SevenSlots.SevenSlotsBreakAncestry | student-distrib/syscall.c:168-172 | With one slot more a concrete run gives a front process a grandparent from another terminal |
| Stacks.StackDiscipline | student-distrib/syscall.c:289-301 | For any number of slots, when new processes land above their terminal's front, live slots are exactly the parent chains, driven as three push/pop stacks |
| Stacks.ParentIsCaller | student-distrib/syscall.c:161-176 | The recorded parent is the caller iff the new slot lies above it |
| Stacks.CallReturns | student-distrib/syscall.c:564-590 | Starting a program and its halt are back at the caller with nothing else changed |
| Stacks.OneTerminalOrdered | student-distrib/syscall.c:358-379 | While one terminal is in use every process lands above its caller |
| Fairness.NextTaskIs | student-distrib/syscall.c:690-702 | The loop's order is the next terminal, the running one, the one after |
| Fairness.TickCloser | student-distrib/scheduler.c:30-64 | Each tick brings every waiting terminal exactly one turn closer |
| Fairness.BoundedFairness | student-distrib/scheduler.c:52-64 | From any reachable state, with programs started in their own terminal, every open terminal runs within one tick less than there are open terminals |
| Paging.UserReach | student-distrib/paging.c:57-85 | A user write at any 32-bit address faults, or lands in the running process's frame, or through the vidmap page on one video page |
| Paging.KernelReach | student-distrib/paging.c:57-85 | A kernel-mode write at any 32-bit address faults, or lands in the running process's frame, in the kernel's page at that very address, or in video memory |
| Paging.LandingsStay | student-distrib/paging.c:57-85 | A kernel-mode copy that starts outside the kernel's page never reaches it |
| Paging.LandingsInPage | student-distrib/paging.c:57-85 | What a copy leaves in the frame is exactly the part of it that lies in the program page |
| Paging.FramesApart | student-distrib/syscall.c:399 | Frames of different processes, video memory and the memory below 8 MB are disjoint |
| Mmu.PageTables.constructor | student-distrib/paging.c:94-116 | The three set-up loops leave exactly the intended directory and table |
| Mmu.PageTables.InitPageMap | student-distrib/paging.c:72-85 | Enters table, kernel page and the four video pages, nothing else |
| Mmu.PageTables.MapPage | student-distrib/paging.c:128-134 | Replaces one directory entry by a user page |
| Mmu.PageTables.MapVid | student-distrib/paging.c:144-151 | Replaces the first table entry |
| Mmu.PageTables.GetVidmapPage | student-distrib/paging.c:162-176 | Opens the table to user mode at 136 MB and aims it at the screen |
| Isolation.MemoryIsolation | student-distrib/paging.c:128-176 | Over every run, while a process does not halt, its frame holds what it held plus its own stores and what system calls put into its own buffers, in order |
| Isolation.FilePlusOwnWrites | student-distrib/syscall.c:399-403 | From its start on, a program's frame holds its file byte for byte, as far as there is room, with the process's own writes on top |
| Isolation.LoadedLands | student-distrib/syscall.c:401-403 | Byte j of a program file lies at offset 0x48000 + j of the frame, for every byte that has room |
| Isolation.KernelUntouched | student-distrib/paging.c:57-85 | No run changes memory below 8 MB other than video memory and the kernel's own variables |
| Isolation.KernelKeptIff | student-distrib/syscall.c:327-344 | A step leaves the kernel's page, its own variables apart, as it is, whatever memory holds, iff it gives no system call a buffer that starts in that page and no command whose name or argument has 128 bytes or more |
| Isolation.ArgumentOverruns | student-distrib/syscall.c:337-344 | An argument of 128 characters puts its NUL behind the array, even if there is no program of that name |
| Isolation.SpillLies | student-distrib/syscall.c:327-344 | Everything of a name or argument that does not fit its array, and the NUL, lies behind it byte for byte |
| Isolation.LongCommandsOverwrite | student-distrib/syscall.c:327-344 | Every longer name or argument overwrites something as well |
| Isolation.TypedCommandsFit | student-distrib/syscall.c:327-344 | No command of a line typed at a terminal does |
| Isolation.KernelPageOverwritten | student-distrib/syscall.c:468-474 | Reading a byte to 0x400000, or to where the page table lies, replaces what is there |
| Isolation.StepStays | student-distrib/syscall.c:399-403 | A step changes memory only in the one frame it is about, in video memory, and in the kernel's own variables |
| Isolation.StepSpares | student-distrib/syscall.c:564-590 | A live process survives every step but its own halt |
| System.NextGood | student-distrib/syscall.c:315-465 | Every step keeps table, terminals and page tables consistent, with the running process's frame mapped |
| System.RunProcs | student-distrib/syscall.c:315-465 | The table inside the system runs exactly as the table alone |
| Kernel.Machine.constructor | student-distrib/kernel.c:177-185 | Boots into the shell of terminal 0 |
| Kernel.Machine.LoadImage | student-distrib/syscall.c:401-403 | Copies a program through the page tables to where they lead, up to the first byte that faults |
| CommandLine.ParseCommand | student-distrib/syscall.c:320-344 | The copying loops find the first word as the name and everything behind the spaces after it as the argument |
| CommandLine.ParseText | student-distrib/syscall.c:320-344 | A name and an argument written with a space between them are found again |
| Kernel.Machine.SystemExecute | student-distrib/syscall.c:315-405 | Copies name and argument, spilling what does not fit; then fails without a program of that name, or starts it in the displayed terminal, or prints that there is no slot |
| Kernel.Machine.SystemHalt | student-distrib/syscall.c:564-590 | Returns to the parent's memory or loads the shell anew |
| Kernel.Machine.SwitchTerminal | student-distrib/syscall.c:85-136 | Shows another terminal, starting its shell on the first visit, and changes no screen |
| Kernel.Machine.SchedulerHandler | student-distrib/scheduler.c:52-100 | Hands over the CPU, the program page and the vidmap page |
| Kernel.Machine.FillBuffer | student-distrib/syscall.c:468-474 | Fills the caller's buffer through the page tables wherever it lies; only a null pointer is refused |
| Kernel.Machine.SystemGetArgs | student-distrib/syscall.c:618-630 | Copies the argument of the last command with its NUL through the page tables, whatever size was given other than 0 |
| SystemRead.SystemReadFile | student-distrib/syscall.c:468-474 | Reading a file puts its next part where the pointer leads and moves the position; of a read that fails, the part before the bad block arrives |
| SystemRead.FileArrives | student-distrib/filesys.c:526-564 | Byte pos + j of the file is found at va + j of the process that read it there |
| SystemRead.LineArrives | student-distrib/keyboard.c:142-182 | The delivered line and its line feed are found in the memory of the process that read them |
| Arguments.ArgumentKept | student-distrib/syscall.c:336-344 | After `execute` the kernel holds the command's argument, whether there is such a program and a slot or not; a shell that halts or is started by a first visit leaves none; no other step changes what it holds |
| Arguments.ArgumentArrives | student-distrib/syscall.c:618-630 | After `execute` and any run in which nothing else is executed, `getargs` puts the command's argument byte for byte, and its NUL, at the pointer of the running process |
| Arguments.ArgumentLost | student-distrib/syscall.c:85-136 | A run from boot (a program started, terminal 1 shown for the first time, a tick) at whose end the program runs again and `getargs` fails, its argument gone |
| VidmapWord.VidmapIsScreen | student-distrib/syscall.c:640-660 | The little-endian word `vidmap` leaves at the pointer is the address of the displayed screen: a store at twice i above it replaces cell i and nothing else |
| VidmapWord.OwnCellPainted | student-distrib/paging.c:144-176 | While the open vidmap page is aimed at the running process's terminal, displayed or not, a store at twice i paints cell i of that terminal and nothing else |
| Kernel.Machine.SystemVidmap | student-distrib/syscall.c:640-660 | Refuses a null pointer and 0x400000, otherwise opens the vidmap page and stores its address through the pointer |
| Kernel.Machine.TerminalWrite | student-distrib/keyboard.c:194-204 | Prints on the running process's terminal, and fails unchanged on a descriptor other than 1 |
| Kernel.Machine.RunAll | student-distrib/syscall.c:85-136 | Any sequence of operations takes the in-place kernel where the state machine goes |
| FileImage.PlanCorrect | student-distrib/filesys.c:360-382 | The 32-bit arithmetic yields the intended blocks and bytes iff no wrap-around interferes, for all 32-bit offsets and lengths |
| FileImage.PlanWraps | student-distrib/filesys.c:360-382 | At offset 2^32 - 50, asked for 100 bytes, it copies the first 100 bytes of a file of one block |
| FileImage.CopyBlock | student-distrib/filesys.c:403-423 | One block is copied or skipped byte by byte to where the walk should stand |
| FileImage.WalkBlocks | student-distrib/filesys.c:384-425 | -1 iff one of the walked block numbers, even a skipped one, is out of range, and then exactly the planned bytes before that block; otherwise exactly the planned bytes; the rest of the buffer untouched |
| FileImage.ReadData | student-distrib/filesys.c:360-430 | Copies exactly the planned slice of the flat file; an inode number past the end fails without a trace |
| ReadBack.EntryRead | student-distrib/filesys.h:18-38 | Name, type and inode number of every directory entry are read from where the format puts them |
| ReadBack.InodeRead | student-distrib/filesys.h:26-29 | So are the length of every file and the numbers of its data blocks, in order |
| ReadBack.ImageFilesNamed | student-distrib/filesys.h:18-38 | Every image written out in the format is well-formed, and its files have inodes |
| ReadBack.ContentsRead | student-distrib/filesys.c:384-425 | The flat contents read of a file are what its data blocks, laid end to end and cut at its length, were written with, for any allocation of blocks |
| ReadBack.ReadStored | student-distrib/filesys.c:360-430 | `read_data` on a stored file returns contents[offset..offset+length], cut at the end of the file, for every offset and length that do not wrap around, and leaves the rest of the buffer |
| ReadBack.LookUpStored | student-distrib/filesys.c:162-201 | Both lookups find a stored name, with the type and the inode number it was stored with |
| ReadBack.LookUpMissing | student-distrib/filesys.c:272-313 | Neither finds a name that is not stored |
| Packing.PackedContents | student-distrib/filesys.h:18-38 | Any list of files that fits can be stored, each in the next blocks, and the image holds its contents |
| Packing.FetchPacked | student-distrib/filesys.c:360-430 | Looking up a file of such an image by name and reading from its inode gives the part of its contents asked for |
| Names.SameName | student-distrib/filesys.c:286-301 | The comparison loop finds equality of whole names, never a prefix |
| Names.GetFiletype | student-distrib/filesys.c:162-201 | The type of the first entry with exactly that name of 1 to 32 characters, or -1 |
| Names.ReadDentryByName | student-distrib/filesys.c:272-313 | Succeeds iff an entry has exactly that name, and returns the first such entry |
| Names.ReadDentryByIndex | student-distrib/filesys.c:326-346 | Copies entry 0 to 62, answers -1 above 63, and for 63 copies what lies behind the boot block |
| Names.LookupsAgree | student-distrib/syscall.c:497-542 | The two lookups open makes for one name succeed on the same names, the empty one excepted, with the same type, at the first entry of exactly that name |
| Names.WordMatches | student-distrib/filesys.c:239-244 | Matches iff the entry extends the word, whatever lies behind the buffer |
| Names.FsSearch | student-distrib/filesys.c:212-260 | Replaces the line by its completion, keeping the rest of the buffer, within 127 characters |
| Names.ExtendsIsProperPrefix | student-distrib/filesys.c:239-244 | An entry extends a word iff the word is a proper prefix of its name |
| Names.CompletionSound | student-distrib/filesys.c:212-260 | The last word becomes the first name having it as a proper prefix, or as much as fits; an untruncated completion is then found by lookup; with no such name nothing changes |
| Files.OpenSane | student-distrib/syscall.c:497-542 | An open fails without a trace, or takes the first free descriptor, 2 to 7, binds it to the clock, the directory or the file, a file at position 0, and changes no other |
| Files.CloseSane | student-distrib/syscall.c:551-556 | A close changes at most its own descriptor; an open one is free afterwards iff it is not 0 or 1 and not a clock |
| Files.ClockStays | student-distrib/rtc.c:63-66 | Over all opens, closes and reads an open clock descriptor stays as it is |
| Files.CloseThenOpen | student-distrib/filesys.c:442-498 | A closed regular file opens again at its start iff no other open entry carries its inode number |
| StaleInode.StaleClockRefuses | student-distrib/filesys.c:442-498 | A run of a new process after which a file that nobody has open is refused although a descriptor is free |
| Files.DescriptorsSane | student-distrib/syscall.c:497-556 | Over all opens, closes and reads of files and directories 0 and 1 stay open, open files have distinct inodes, and positions stay within the readable part of their files and within the directory |
| Files.ChunksReassemble | student-distrib/filesys.c:526-564 | Reads of any sizes of any open file together return exactly the part of it between old and new position, which never passes the end; a failed read moves nothing |
| Files.ReadsAtEnd | student-distrib/filesys.c:526-564 | At the end every further read returns nothing and stays there |
| Files.DirectoryListed | student-distrib/filesys.c:661-688 | Successive directory reads return the names in order and then nothing for ever |
| Files.DirectoryAdvances | student-distrib/filesys.c:661-688 | Reading a directory descriptor n times changes its position only, by n but not past the number of entries |
| Files.DirectoryReopens | student-distrib/filesys.c:576-634 | A directory closed and opened again takes the first free descriptor and goes on where that one was left; it is the same one iff all before it are in use |
| Descriptors.Process.constructor | student-distrib/syscall.c:268-287 | A new process has the terminal on 0 and 1 and nothing else open |
| Descriptors.Process.SystemOpen | student-distrib/syscall.c:497-542 | Takes the table to its state after the open |
| Descriptors.Process.FileOpen | student-distrib/filesys.c:442-473 | Refuses an inode already open, otherwise takes the first free entry at position 0 |
| Descriptors.Process.DirOpen | student-distrib/filesys.c:576-610 | Opens the first entry's directory without resetting the position |
| Descriptors.Process.SystemClose | student-distrib/syscall.c:551-556 | Takes the table to its state after the close |
| Descriptors.Process.FileRead | student-distrib/filesys.c:526-564 | Returns the next bytes of the file and moves the position past them; a failed read moves nothing but leaves the bytes before the bad block; the rest of the buffer stays |
| Descriptors.Process.DirRead | student-distrib/filesys.c:661-688 | Returns the whole name at the position, or its first nbytes bytes if it is longer, moves on, and leaves the rest of the buffer; a negative number counts as a huge one; at the end it returns 0 although it copies what lies there |
| Ls.ReadNames | student-distrib/filesys.c:661-688 | n reads of 32 bytes in a row return the whole names of the directory from the position on, in order, and then nothing |
| Ls.RunLs | syscalls/ece391ls.c:8-29 | Writes the names from the position on, one a line, up to the first empty one, or that the directory cannot be opened |
| StoredPrograms.ReadThrough | student-distrib/filesys.c:526-564 | Reading an open stored file through its descriptor returns the next bytes of its contents, as many as wanted and left, and moves the position past them |
| StoredPrograms.CatStored | syscalls/ece391cat.c:6-31 | In a new process, `cat` of a stored file writes exactly its contents |
| StoredPrograms.LsStored | syscalls/ece391ls.c:8-29 | In a new process, `ls` writes all stored names in order |
| Cat.CopyOut | syscalls/ece391cat.c:21-28 | The loop ends having written exactly the file, or, iff a block number is bad, exactly what comes before the first bad block and the complaint |
| Cat.RunCat | syscalls/ece391cat.c:6-31 | Missing arguments, missing file and the copied file, with their exit codes |
| LineDiscipline.DesksIndependent | student-distrib/keyboard.c:334-393 | A terminal's line, mailbox and deliveries depend only on the keys typed and reads made while it is displayed |
| LineDiscipline.LinesDelivered | student-distrib/keyboard.c:142-182 | Every delivered line was handed in on that terminal, is delivered at most once and in order, has at most 127 characters and no line feed or NUL |
| LineDiscipline.TypingAppends | student-distrib/keyboard.c:342-353 | Typing any text that fits appends it to the line and changes nothing else |
| LineDiscipline.KeysIgnored | student-distrib/keyboard.c:342-346 | Character 128 is ignored, and so is a backspace in an empty line |
| LineDiscipline.BackspacesTakeBack | student-distrib/keyboard.c:292-298 | n backspaces take back the last n characters of the line, and nothing else |
| LineDiscipline.TabCompletes | student-distrib/keyboard.c:306-309 | A tab completes the last word of the line to the first name having it as a proper prefix, as far as it fits, and otherwise changes nothing |
| LineDiscipline.TypedLineDelivered | student-distrib/keyboard.c:334-393 | A text typed, a slip typed and taken back, Enter and a read: exactly the text is delivered |
| EchoedLine.LineIsShown | student-distrib/keyboard.c:292-391 | Over every run of the whole system in which a terminal is typed at and nobody else writes on it, its screen is what it was when the line was empty, then exactly the line being edited, then nothing, wraps and scrolls included |
| EchoedLine.EnterDelivers | student-distrib/keyboard.c:353-391 | Enter hands in the line as it stands, empties it and moves to the next row; the read gets it with its line feed |
| EchoedLine.DeliveredIsShown | student-distrib/keyboard.c:142-182 | Whatever was typed and rubbed out, the line a process is given is the one that stood before the cursor when Enter was pressed |
| Session.LinesInRun | student-distrib/keyboard.c:292-393 | Over every run of the whole system the lines go as keys, reads and switches of terminals say, whatever the kernel does in between |
| Session.KernelInRun | student-distrib/keyboard.c:292-393 | Over every run of the whole system the kernel goes where its own steps and the echoes of the keys lead |
| Session.DeliveredInRun | student-distrib/keyboard.c:142-182 | Over every run of the whole system each delivery is a line handed in on that terminal, once, in order |
| LineDiscipline.EditPlain | student-distrib/keyboard.c:292-353 | No key, completion included, makes a line too long or brings in a line feed |
| Keyboard.MyStrcpy | student-distrib/lib.c:723-731 | Copies up to and including the first line feed and nothing more |
| Keyboard.MyStrlen | student-distrib/lib.c:738-744 | Counts up to and including the first line feed |
| Keyboard.Lines.PressKey | student-distrib/keyboard.c:334-393 | A key changes one terminal's buffers as its line editor says, and the others not at all |
| Keyboard.Driver.KeyboardHandler | student-distrib/keyboard.c:334-393 | A key edits the displayed terminal's line, Enter moves it to the mailbox, the echo is the one step it should be, other terminals are untouched |
| Keyboard.Driver.TerminalRead | student-distrib/keyboard.c:142-182 | Delivers the waiting line with its line feed, within 128 bytes, once, and only to a process of the displayed terminal |
| Keyboard.Driver.RunAll | student-distrib/keyboard.c:142-182 | Any keys, reads into buffers and kernel steps take driver and kernel in place where the whole system goes |
| BlinkClock.ClosedForm | fish/blink.S:64-86 | After k ticks status and countdown are given by k modulo the period, for all 16-bit lengths |
| BlinkClock.BlinkTiming | fish/blink.S:49-99 | A fresh cell with its own location shows its on-character iff k modulo the period is below the on-time, whatever other cells do |
| BlinkRun.BlinkOverRun | fish/blink.S:49-300 | Whatever cells are added, removed and synchronised elsewhere, an added cell shows its on-character iff the ticks since modulo its period are fewer than its on-time |
| BlinkRun.SyncKeepsCharacters | fish/blink.S:267-275 | SYNC gives the target the source's lengths, countdown and status; its place, its two characters and all other cells stay |
| BlinkRun.CharactersStay | fish/blink.S:240-300 | Over any run that neither adds nor removes a cell at its place, SYNC to it included, an added cell keeps its two characters and one of them is shown |
| BlinkRun.SyncOverRun | fish/blink.S:240-300 | After SYNC the target shows its off-character until the source's time is up, and from then on its own characters in the source's phase, whatever is done elsewhere |
| BlinkClock.StayInStep | fish/blink.S:267-275 | Cells with equal lengths, countdown and status stay equal at every later tick |
| BlinkList.Conservation | fish/fish.c:160-175 | List length and free entries add up to the pool size |
| BlinkList.Fish.Malloc | fish/fish.c:160-170 | Finds a free entry iff there is one |
| BlinkList.Fish.FindHelper | fish/blink.S:351-379 | Finds the most recently added cell at a location |
| BlinkList.Fish.Add | fish/blink.S:105-184 | Puts the cell in front and draws it; fails unchanged iff off screen or full; the pool stays accounted for iff the location is not 0 |
| BlinkList.Fish.Remove | fish/blink.S:187-237 | Deletes the most recently added cell at a location, or fails unchanged |
| BlinkList.Fish.Find | fish/blink.S:302-349 | Returns the most recently added cell at a location |
| BlinkList.Fish.Sync | fish/blink.S:240-300 | One cell takes over another's lengths, countdown and status and shows its off-character; nothing else changes |
| BlinkList.Fish.Tasklet | fish/blink.S:49-99 | Every cell ticks once and draws itself when its time is up |
| BlinkList.Fish.RunAll | fish/blink.S:101-379 | Under any calls the pooled list is the plain list and video memory what the calls draw |
| BlinkList.RemoveUndoesAdd | fish/blink.S:105-237 | What was just added is found and removed again |
| BlinkList.RemoveTakesFirst | fish/blink.S:187-237 | A remove takes the most recently added cell at its place out of the list and keeps the others in order |
| BlinkList.SyncKeepsBeat | fish/blink.S:240-275 | After SYNC the two cells stay in step at every later tick |
| Numbers.TextRoundTrip | student-distrib/lib.c:423-453 | The digits are valid for the radix, have no leading zero and evaluate back to the number |
| Numbers.Itoa | student-distrib/lib.c:423-453 | Leaves exactly those digits and a NUL, highest digit first |
| Numbers.StrRev | student-distrib/lib.c:459-472 | Reverses the string in place and nothing else |
| Numbers.PaddedHex | student-distrib/lib.c:155-165 | `%#x` prints exactly eight digits with the number's value |

## Left out

- Register and stack switching, the TSS, GDT and IDT, interrupt wrappers: every system call, tick and key is one atomic step.
- PIC, PIT and RTC port I/O, the hardware cursor, multiboot parsing, scan codes and modifier keys: keys arrive decoded.
- `putc`, `printf` to the screen, Ctrl-L and Ctrl-C: they bypass the per-terminal cursors or do not return; the screen echo of a completion goes through `putc` and is not modelled either.
- Attribute bytes and colours beyond the fact that scrolling does not touch them; `last_buf`, which is written and never read.
- Checking that a program file is executable, and its entry point: a program start takes the bytes of the program of that name, if there is one, and the shell is taken to be in the file system.
- Ancestry.AncestryHolds: a shell halting while another terminal is displayed is excluded, because the table is inconsistent after it, as HaltConsistentIff shows.
- Kernel.Machine.SystemHalt: a shell halting while another terminal is displayed is excluded for the same reason.
- Kernel.Machine.SystemExecute: whether there is a program of that name is a parameter, not looked up in the image; and what an overrun does to the loop that causes it is not modelled, only that the bytes go on behind the array.
- Isolation.MemoryIsolation: runs are followed only while no system call is given a buffer in the kernel's page or a command that overruns, because nothing can be said of an overwritten kernel; KernelKeptIff is the exact condition.
- Isolation.KernelKeptIff: of memory other than the kernel's own variables; a failed open's store just below the descriptor table (student-distrib/syscall.c:519-532) stays among these.
- FileImage.ReadData: an inode number equal to the inode count passes the code's check although no such inode exists; the model requires it not to be given.
- Descriptors.Process.SystemOpen: a failed open also stores a table pointer just below the descriptor table; the model leaves the table alone.
- Descriptors.Process.SystemClose: closing an entry never bound to any operations calls through a stray pointer; the model requires that it is bound.
- Cat.RunCat: on a directory or the clock the loop reads something else than a file; only files and missing names are modelled.
- Names.FsSearch: the echo of the completed characters goes through `putc`, outside the per-terminal cursors, and is not modelled.
- BlinkList.Fish.RunAll: an ADD at location 0 is excluded, because its node counts as free afterwards and may be handed out again; Add says so.
- Keyboard.Driver.TerminalRead: one pass of the polling loop; waiting is not modelled. It hands the line over in memory apart from the kernel's, from where ReadEvent takes it to where the pointer leads.
- ReadBack.ReadStored: written-out images hold no block number that is out of range; what reading one does is said by FileImage.WalkBlocks.
- EchoedLine.LineIsShown: a completion that adds characters ends the law, because its echo is not modelled; so does anything else written on the terminal.
- Screens.ScreenIsPaper: for runs without erasing and without writing to video memory past the terminal calls.
- Page faults: a faulting store changes nothing, a copy by the kernel ends at the first byte that faults, and what the handler does next is not modelled; so for a program file above 0x3B8000 bytes, whose loading faults in the kernel. Translation through any table but the kernel's own is a fault.
- `file_write`, `dir_write`, the Linux emulation layer, grep, syserr and the other demo programs: constants or clients that add little.
