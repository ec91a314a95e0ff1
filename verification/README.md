# Operating-systems lab programs: models and proofs

The repository is a set of lab programs for an operating-systems course. Seven
of them hold an algorithm or a protocol of their own. Each is modelled here in
one or more modules, with the hard-coded sizes turned into parameters, and what
the program is for is proved of the model for all inputs, all runs or all
interleavings.

| files | program |
|---|---|
| `Semop.dfy` | the `semop()` system call on an array of operations: a loop with roll-back that equals one guarded update |
| `BoundedBuffer.dfy`, `BufferMachine.dfy`, `BufferEnds.dfy` | producers and consumers over one array and three semaphores |
| `ReadersWriters.dfy`, `ReadersWritersMachine.dfy` | readers and writers of one integer, admitted by four semaphore arrays |
| `DirTree.dfy`, `LinkedStack.dfy`, `StackWalk.dfy` | the iterative directory walker and its linked stack |
| `DoPath.dfy`, `WalkersAgree.dfy` | the recursive directory walker, and the two walkers against each other |
| `Pagemap.dfy`, `MapsParser.dfy`, `CutReads.dfy` | the parser of `/proc/<pid>/maps`, the walk over the pages of a mapping, and lines cut by a read |
| `SpiralWalk.dfy`, `SpiralSort.dfy` | sorting a matrix along its inward spiral |
| `MemoryProbe.dfy` | the probe of physical memory and the hex printer in protected mode |
| `SelectServer.dfy` | the select loop and its table of clients |
| `SharedOffset.dfy`, `SharedOffsetMachine.dfy` | two buffered streams over one file offset |
| `Offers.dfy` | orders in which processes get their turns, fair ones among them |
| `Hex.dfy`, `Tallies.dfy`, `Common.dfy` | base-16 numerals, sums over process tables, shared small things |

Concurrent programs are step relations over any number of processes, each with
a program counter. A schedule says who moves; a state is reachable when some
schedule leads to it. Beside each relation a class makes the same steps in
place, on arrays and fields. Its `Run` is given an order of offers; a process
moves at its offer exactly when the state then lets it, and the schedule is made of
those that moved. So the theorems about schedules are about its runs.

## Results worth knowing

- **Bounded buffer.** All work gets done in every maximal run exactly when the
  counts are balanced: with p values to produce and c to consume, c <= p <= c + N,
  and N >= 1 unless p = 0 (`MaximalRun`, `DeadlockFree`). Every order that gives
  each process a turn often enough gets there (`FairRunEnds`). The program's own
  counts (9 and 9, N = 9) are balanced (`MainBalanced`): after 72 rounds of turns, in
  any order, its nine values have each been produced and consumed once (`Launch`).
- **Readers and writers.** `start_read` has five entries and three of them are
  passed. Semaphore 3 is raised and lowered within one array, so no process ever
  sees it other than zero and a waiting writer never holds a reader back
  (`Admission`).
- **Spiral.** The fourth inner loop is guarded by `l < mat->cols`, which always
  holds. The walk is the inward spiral exactly when the number of columns is even
  or there is at most one row more than there are columns; otherwise the index
  into the array goes below zero (`WalkIsSpiral`, `Trace`; 3 by 1 is such a size,
  `ThreeByOne`). `main` only lets square matrices through, which are all right.
- **cmpint.** The comparator tells the order of two ints exactly when their
  difference is an int (`CmpIntExact`; 2147483647 and -1 come out the wrong way
  round, `CmpIntWraps`); the sort asks for that.
- **Page loop.** It ends exactly when its 64-bit counter gets past the end without
  wrapping, which page-aligned bounds guarantee (`EndsIffNoWrap`,
  `AlignedNoWrap`); from 1 to the last word it runs forever (`NeverEnds`).
- **Maps parser.** `offset` is never moved, so a read that ends inside a line
  loses the first part of it. When every read ends at a line end or inside the
  low bound of a line, what is done is what the file's lines ask for exactly when
  the parts lost are nothing but zeros (`CutFile`, `ParseListing`; `CutLine` has an
  input that fails). With reads that all end at line ends it always is
  (`WholeLines`).
- **Memory probe.** The comment at `os_01/lab_02/prog.asm:235` takes the last
  address to be 4 GB; the counter ends one short of it, at FFFFFFFFh. The number
  of megabytes is right exactly for sizes from 1 MB up to, but not including,
  4 GB (`ProbeExact`).
- **Walkers.** With failing entries the recursive walker stops and the iterative
  one goes on; and of a link given as the root only the iterative one lists what
  it leads to. Their counters agree, but for the root, exactly when every visit
  behind the first failure fails too or has no counter, and the root is not a link
  to an openable directory with something countable in it (`AgreeIff`;
  `LinkDiffers` has an input that fails).
- **Working directory.** `dopath` comes back by `chdir("..")`. That restores the
  working directory exactly when the directory entered is a direct child of it
  (or both are the root); for a name of one component, exactly when it is not "."
  or "..", or the working directory is the root (`RestoredIff`, `RestoredOne`,
  `DotNotRestored`). The names that the recursion passes always are restored.

## Model

| member | source | states |
|---|---|---|
| Semop.Run | os_01/lab_05/02.c:25-48 | carrying out an array entry by entry and taking everything back when one would block is one atomic update: it succeeds exactly when every entry passes on the value it finds, and then adds all deltas; otherwise nothing changes |
| Semop.RollBack | os_01/lab_05/02.c:25-48 | taking back the entries done so far restores the whole set |
| Semop.NeverNegative | os_01/lab_05/02.c:25-48 | an admitted array drives no semaphore below zero at any point of its execution |
| BoundedBuffer.Gates | os_01/lab_05/01.c:27-37 | the four pairs as guards and effects on SB, SE and SM |
| BoundedBuffer.InitInv | os_01/lab_05/01.c:61-83 | the initial memory and semaphore values satisfy the invariant |
| BoundedBuffer.StepInv | os_01/lab_05/01.c:94-122 | every step of every process keeps conservation, the contents of the slots, the counts owed and each process's share |
| BoundedBuffer.Conservation | os_01/lab_05/01.c:27-37 | in every reachable state SB plus the processes inside is 1, SE + SM plus those inside is N, at most one is inside, and pos_prod - pos_consum lies between 0 and N |
| BoundedBuffer.Fifo | os_01/lab_05/01.c:94-122 | in every interleaving the consumed values are a prefix of the produced ones, each slot is used once by each side, and one producer's values are consumed in growing order |
| BoundedBuffer.EachShare | os_01/lab_05/01.c:124-156 | producer i has produced exactly its own consecutive values so far, consumer i has consumed exactly as many as its loop counts |
| BoundedBuffer.SlotsInOrder | os_01/lab_05/01.c:100-116 | no slot is read before it is written, none is written twice, none lies at or past the number of values to produce |
| BoundedBuffer.DeadlockFree | os_01/lab_05/01.c:71-83 | with balanced counts every reachable unfinished state has a process that can move |
| BoundedBuffer.MainBalanced | os_01/lab_05/01.c:71-83 | the counts that main() hands out are balanced |
| BoundedBuffer.MaximalRun | os_01/lab_05/01.c:71-86 | every run is bounded by the work handed out; a run that cannot go on is finished exactly when the counts are balanced, and then positions, semaphores and its length are known |
| BufferMachine.Machine.constructor | os_01/lab_05/01.c:61-83 | memory and semaphores as main() sets them stand for the initial state |
| BufferMachine.Machine.Pass | os_01/lab_05/01.c:96-106 | the semop of a process either updates the set and moves the process, or changes nothing |
| BufferMachine.Machine.Store | os_01/lab_05/01.c:100-101 | the producer writes its value at its position and prints it |
| BufferMachine.Machine.Load | os_01/lab_05/01.c:115 | the consumer prints the value at its position |
| BufferMachine.Machine.Move | os_01/lab_05/01.c:94-122 | in place, a process moves exactly when the model lets it, to the model's next state, inside the array |
| BufferMachine.Machine.Run | os_01/lab_05/01.c:124-155 | for any order of offers, each process moves at its offer exactly when the state reached by then lets it; the schedule is those that moved, legal, and ends in the model's state |
| BufferEnds.FairRunEnds | os_01/lab_05/01.c:71-86 | with balanced counts, every order that gives each process a turn in as many rounds as there are steps to make ends with all values produced and consumed |
| BufferEnds.AllShown | os_01/lab_05/01.c:124-155 | in the end each value was printed by producers, and by consumers, as often as it was handed out |
| BufferEnds.Launch | os_01/lab_05/01.c:44-92 | the program with its own processes and nine places makes exactly the moves that its order of turns lets it make; after 72 rounds the values 0-2, 10-12 and 100-102 have each been produced and consumed once and all places are empty |
| ReadersWriters.ReadGates | os_01/lab_05/02.c:25-35 | the three passed entries of start_read and stop_read as guards and effects |
| ReadersWriters.WriteGates | os_01/lab_05/02.c:37-48 | start_write and stop_write as guards and effects; semaphore 3 comes out unchanged |
| ReadersWriters.SemaphoresCount | os_01/lab_05/02.c:25-48 | in every reachable state semaphore 0 counts readers inside, semaphore 1 writers, semaphore 2 is 1 minus writers, semaphore 3 is 0; a writer inside is alone |
| ReadersWriters.NoLostIncrement | os_01/lab_05/02.c:122-139 | with the increment as separate load and store, the shared value is the number of increments done, writers print 1, 2, 3, ... and a reader prints the last of them |
| ReadersWriters.WriterRound | os_01/lab_05/02.c:122-129 | while a writer is inside nobody else can move, and its way to the exit raises the value by one and prints the new one |
| ReadersWriters.RoundsDone | os_01/lab_05/02.c:122-139 | over every run each process has printed one line a round, readers with the second of three steps and writers with the fourth of five, and the shared value is the number of increments that the writers' steps make |
| ReadersWriters.StableStep | os_01/lab_05/02.c:132-137 | while any reader is inside, no step of any process changes the shared value, and a line printed by it shows that value |
| ReadersWriters.StableWhileReading | os_01/lab_05/02.c:132-137 | the shared value is the same over any run in which some reader is inside whenever a process moves, the readers' own steps and hand-overs included, and nothing else is printed |
| ReadersWriters.Admission | os_01/lab_05/02.c:122-139 | a reader is let in exactly when no writer is inside, a writer exactly when nobody is |
| ReadersWriters.NeverStuck | os_01/lab_05/02.c:122-139 | no reachable state is stuck |
| ReadersWritersMachine.Machine.constructor | os_01/lab_05/02.c:67-79 | the shared integer and the new semaphore set stand for the initial state |
| ReadersWritersMachine.Machine.Move | os_01/lab_05/02.c:122-139 | in place, a process moves exactly when the model lets it, to the model's next state |
| ReadersWritersMachine.Machine.Run | os_01/lab_05/02.c:122-139 | for any order of offers, each process moves at its offer exactly when the state reached by then lets it; the schedule is those that moved |
| DirTree.LookupJoin | os_02/lab_dir_of_catalog/lab_own/main.c:66-79 | the path made by join_path leads to the child of that name in the directory that the base path opens |
| DirTree.LastPartJoin | os_02/lab_dir_of_catalog/lab_own/main.c:142 | what follows the last slash of a joined path is the name joined to it |
| DirTree.BaseNameSplits | os_02/lab_dir_of_catalog/lab_own/main.c:142-143 | the name printed for a directory is what follows the last slash of its path, or all of a path without one |
| DirTree.CountAddsOne | os_02/lab_dir_of_catalog/lab_own/main.c:168-196 | an entry adds one to the counter of its sort and to no other |
| DirTree.CountTotal | os_02/lab_dir_of_catalog/lab_own/main.c:32 | the sum of the counters grows by one for every entry that has a counter |
| LinkedStack.Node.constructor | os_02/lab_dir_of_catalog/lab_own/stack_t.c:19-31 | a new node holds its contents and has no next node |
| LinkedStack.Node.Free | os_02/lab_dir_of_catalog/lab_own/stack_t.c:50-57 | a node is freed at most once |
| LinkedStack.Stack.Push | os_02/lab_dir_of_catalog/lab_own/stack_t.c:33-48 | prepends the node to the sequence that the list stands for |
| LinkedStack.Stack.Pop | os_02/lab_dir_of_catalog/lab_own/stack_t.c:59-68 | removes the head, returned or freed |
| LinkedStack.Stack.IsFree | os_02/lab_dir_of_catalog/lab_own/stack_t.c:70-73 | tells whether the sequence is empty |
| LinkedStack.Stack.FreeAll | os_02/lab_dir_of_catalog/lab_own/stack_t.c:75-79 | frees every node that is left |
| StackWalk.Walker.ProcEntry | os_02/lab_dir_of_catalog/lab_own/main.c:81-105 | an entry is counted by its sort; a file is printed, a directory pushed, an entry that lstat fails on does neither |
| StackWalk.KeptStep | os_02/lab_dir_of_catalog/lab_own/main.c:107-117 | one entry read moves its lines, its count and its subtree from what is to come to what is done, losing and doubling nothing |
| StackWalk.Walker.ProcDir | os_02/lab_dir_of_catalog/lab_own/main.c:107-117 | over a whole listing, that of the target where the path is a link, lines printed, counters and stack together stay what the specification says; the work left does not grow |
| StackWalk.Walker.VisitTop | os_02/lab_dir_of_catalog/lab_own/main.c:137-150 | one round keeps lines and counts and makes the number of tree nodes under the stack smaller |
| StackWalk.Walker.Drain | os_02/lab_dir_of_catalog/lab_own/main.c:137-150 | the main loop ends, with an empty stack, all pending lines printed in order, and as many frees as pushes |
| StackWalk.Walker.MyftwN | os_02/lab_dir_of_catalog/lab_own/main.c:119-154 | prints a header for the root and then exactly the recursive listing of what opening it leads to, a link followed (leaves in read order, subdirectories in reverse read order, true depths), counts everything in it, frees every pushed node once |
| StackWalk.OutDue | os_02/lab_dir_of_catalog/lab_own/main.c:107-154 | each line is printed as often as there are trees to be reached at its depth with its name and inode number, without passing . or .. |
| DoPath.Walker.Counter | os_02/lab_dir_of_catalog/temp/main.c:95-129 | prints and counts one entry; counters and printed lines always agree |
| DoPath.Walker.Dopath | os_02/lab_dir_of_catalog/temp/main.c:55-93 | lines and counters are those of the preorder before the first failure; -1 comes back exactly if there is one; a directory that was read is left to its parent, which for a name of one component restores the working directory exactly if the name is not a dot name or the root was the working directory |
| DoPath.StatEntry | os_02/lab_dir_of_catalog/temp/main.c:62-83 | the name of an entry, in its own directory, leads to that entry |
| DoPath.StatMissing | os_02/lab_dir_of_catalog/temp/main.c:62-63 | a name that a directory does not list cannot be examined |
| DoPath.AbsolutePath | os_02/lab_dir_of_catalog/temp/main.c:33-62 | a path that begins with a slash stands for the same tree in every working directory |
| DoPath.FromRoot | os_02/lab_dir_of_catalog/temp/main.c:33-62 | /a is the entry a of the root, /a/b the entry b in it or, if it is a link to a directory, in what it leads to |
| DoPath.BelowFirst | os_02/lab_dir_of_catalog/temp/main.c:62-77 | a/b is the entry b of the directory a, or of what the link a leads to |
| DoPath.LocateJoin | os_02/lab_dir_of_catalog/temp/main.c:62-77 | one more component is looked up in the directory that the path before it leads to, a link followed |
| DoPath.PartsJoined | os_02/lab_dir_of_catalog/temp/main.c:62 | the components of a path name with slashes between them are the path name |
| DoPath.RestoredIff | os_02/lab_dir_of_catalog/temp/main.c:77-87 | chdir in and chdir("..") restore the working directory exactly when the directory entered is a direct child of it, or both are the root |
| DoPath.RestoredOne | os_02/lab_dir_of_catalog/temp/main.c:77-87 | for a name of one component, exactly when it is not "." or "..", or the working directory is the root |
| DoPath.RestoredPlain | os_02/lab_dir_of_catalog/temp/main.c:77-87 | a relative name that meets no link and has no dot component leaves all but its last component behind, so it is restored exactly if it has one |
| DoPath.DotNotRestored | os_02/lab_dir_of_catalog/temp/main.c:77-87 | called with "." it ends one directory up, with ".." two |
| DoPath.Walker.Entries | os_02/lab_dir_of_catalog/temp/main.c:78-85 | the reading loop stops at the first failure and passes it up, in the directory it started in |
| WalkersAgree.CleanMeansNoFailure | os_02/lab_dir_of_catalog/temp/main.c:62-75 | a walk meets no failure exactly when every entry can be examined and every directory opened |
| WalkersAgree.AgreeIff | os_02/lab_dir_of_catalog/temp/main.c:55-129 | the two walkers' counters agree, but for the root, exactly when every visit behind the first failure fails or has no counter, and the root is not a link to an openable directory with something countable in it |
| WalkersAgree.UncountedIff | os_02/lab_dir_of_catalog/temp/main.c:95-129 | visits leave all counters at zero exactly when each is a failure or of a sort without a counter |
| WalkersAgree.LinkDiffers | os_02/lab_dir_of_catalog/lab_own/main.c:130-145 | for a link to a directory with one file the recursive walk counts a link, the iterative one a file |
| WalkersAgree.AgreeOnClean | os_02/lab_dir_of_catalog/temp/main.c:55-129 | without failures all counters are equal, but ndir is one larger in the recursive walk |
| WalkersAgree.SamePlaces | os_02/lab_dir_of_catalog/lab_own/main.c:119-154 | every depth and name is in the recursive listing of a tree as often as in the preorder of the recursive walker |
| WalkersAgree.OrderOfListing | os_02/lab_dir_of_catalog/lab_own/main.c:107-150 | leaves come in the order of the listing and subdirectories in the opposite one; the recursive walk takes all in the order of the listing |
| WalkersAgree.SampleWalks | os_02/lab_dir_of_catalog/lab_own/main.c:107-150 | the lines of both walkers for one directory, written out |
| WalkersAgree.OpensWithSlash | os_02/lab_dir_of_catalog/lab_own/main.c:108 | what opening a path name shows is what the name with a slash at its end stands for, any link followed |
| WalkersAgree.WalkBoth | os_02/lab_dir_of_catalog/temp/main.c:33-93 | both programs, on any path name in one file system with links, end with the counters that the specifications give, equal under the stated condition and only then |
| Hex.NumeralValue | os_01/lab_02/prog.asm:298-327 | a numeral with enough digits reads back as its number |
| Hex.SampleNumerals | os_01/lab_02/prog.asm:298-327 | 500 is shown as 000001F4, 2571 as 00000A0B |
| Pagemap.HandleVirtualRange | os_02/lab_04/src/part_01/pagemap.c:29-42 | asks for one entry after the other up to the first read that fails and prints those read, without wrap of the counter |
| Pagemap.PagesInOrder | os_02/lab_04/src/part_01/pagemap.c:32-40 | page after page from start on, the eight bytes at (address / 4096) * 8 are asked for and printed with the address, up to the end or the first read that fails, which is asked for but not printed |
| Pagemap.FullRange | os_02/lab_04/src/part_01/pagemap.c:32-40 | with aligned bounds and full reads each page of the range is asked for and printed once |
| Pagemap.EndsIffNoWrap | os_02/lab_04/src/part_01/pagemap.c:32 | with all reads full the loop ends exactly when its counter does not wrap |
| Pagemap.NeverEnds | os_02/lab_04/src/part_01/pagemap.c:32 | from address 1 to the last word it never ends |
| Pagemap.AlignedNoWrap | os_02/lab_04/src/part_01/pagemap.c:32 | page-aligned 64-bit bounds never make the counter wrap |
| Pagemap.EveryPageOnce | os_02/lab_04/src/part_01/pagemap.c:32-35 | for aligned bounds the offsets asked for are 8p for p from low/4096 to high/4096 - 1, ascending, once each |
| Pagemap.NoPageTwice | os_02/lab_04/src/part_01/pagemap.c:113 | over ascending disjoint mappings no page is looked up twice |
| MapsParser.LineStart | os_02/lab_04/src/part_01/pagemap.c:66-69 | going back from a newline finds the start of its line |
| MapsParser.ParseHex | os_02/lab_04/src/part_01/pagemap.c:71-81 | up to sixteen digits are accumulated to their value with no 64-bit wrap, stopping at the separator |
| MapsParser.SkipFields | os_02/lab_04/src/part_01/pagemap.c:100-103 | four fields are passed over |
| MapsParser.SkipSpaces | os_02/lab_04/src/part_01/pagemap.c:104 | stops at the first character of the name |
| MapsParser.LineEnd | os_02/lab_04/src/part_01/pagemap.c:106-107 | finds the newline behind the name |
| MapsParser.CStringIs | os_02/lab_04/src/part_01/pagemap.c:108-110 | with the newline overwritten by NUL, the C string at the name is the name |
| MapsParser.ParseBounds | os_02/lab_04/src/part_01/pagemap.c:71-96 | reads both bounds of a line |
| MapsParser.ReportLine | os_02/lab_04/src/part_01/pagemap.c:63-118 | a line yields its bounds, its name and the pages from its low to its high bound, and leaves the buffer as it was |
| MapsParser.ScanChunk | os_02/lab_04/src/part_01/pagemap.c:63-119 | every whole line in the buffer is handled once, in order; what follows the last newline is passed over |
| MapsParser.ParseMaps | os_02/lab_04/src/part_01/pagemap.c:44-124 | over all reads, the lines of each read in order: for each its report and, in the same order, the requests and printed pages of its range |
| MapsParser.ReportsInOrder | os_02/lab_04/src/part_01/pagemap.c:113 | the k-th report is the bounds and the name of the k-th line |
| MapsParser.OutcomePages | os_02/lab_04/src/part_01/pagemap.c:113 | requests and printed pages are those of the first line's range, then those of the second, and so on |
| MapsParser.SampleLine | os_02/lab_04/src/part_01/pagemap.c:63-118 | a line as the system prints it, with its bounds and its name |
| CutReads.SameLines | os_02/lab_04/src/part_01/pagemap.c:63-66 | a text has one list of lines only, so a file's lines are determined by it |
| CutReads.CutInLow | os_02/lab_04/src/part_01/pagemap.c:71-81 | a line that lost the front of its low bound is reported the same exactly when only zeros were lost |
| CutReads.CutWellFormed | os_02/lab_04/src/part_01/pagemap.c:63-81 | what is left of a line with page-aligned bounds is again a line, with page-aligned bounds |
| CutReads.CutFile | os_02/lab_04/src/part_01/pagemap.c:55-63 | with reads that end at line ends or inside low bounds, all that is done is what the file's lines ask for exactly when every unfinished tail is all zeros |
| CutReads.WholeLines | os_02/lab_04/src/part_01/pagemap.c:57-61 | reads that end at line ends give the lines of the file, however it is cut |
| CutReads.ParseListing | os_02/lab_04/src/part_01/pagemap.c:44-124 | the parser run on the listing of any mappings reports exactly these mappings in order if and only if its reads cut off nothing but leading zeros of low bounds; then the pages of each mapping are looked up and printed in order, all of them once when the reads are full, up to the first failure otherwise |
| CutReads.CutLine | os_02/lab_04/src/part_01/pagemap.c:55-61 | a read that ends inside a line makes 10-20 come out as 0-20 |
| MapsParser.RoundTrip | os_02/lab_04/src/part_01/pagemap.c:63-118 | the line printed for a mapping is parsed to its bounds and name |
| SpiralWalk.SpiralShape | os_01/lab_04/docs/report.tex:404-442 | the spiral visits each cell of any matrix once, in unit steps, ring after ring inwards from the top left |
| SpiralWalk.Advance | os_01/lab_04/docs/report.tex:412-440 | each inner loop is one side of the spiral, also where nothing is left |
| SpiralWalk.WalkIsSpiral | os_01/lab_04/docs/report.tex:404-442 | exactly the sizes for which the walk of the code is the spiral; for the others it is longer than the matrix |
| SpiralWalk.Trace | os_01/lab_04/docs/report.tex:404-442 | for every size the loops write the cells of the walk, and the index into the array ends at -1 exactly for the sizes that fit, below it for the others |
| SpiralWalk.ThreeByOne | os_01/lab_04/docs/report.tex:404-442 | three rows of one column take four writes |
| SpiralSort.FillMatrix | os_01/lab_04/docs/report.tex:404-442 | stays in bounds, uses each array element once, ends with d = -1, and the matrix along the spiral, which is the walk of the loops, is the array backwards |
| SpiralSort.FillArray | os_01/lab_04/docs/report.tex:444-453 | the array is the matrix row by row |
| SpiralSort.CmpIntExact | os_01/lab_04/docs/report.tex:399-402 | the comparator is right exactly when the difference fits an int |
| SpiralSort.CmpIntWraps | os_01/lab_04/docs/report.tex:399-402 | for the largest int and -1 it is wrong |
| SpiralSort.Qsort | os_01/lab_04/docs/report.tex:461 | a non-decreasing permutation |
| SpiralSort.SpiralIsPermutation | os_01/lab_04/docs/report.tex:404-453 | the spiral and the rows visit the same cells equally often |
| SpiralSort.SortSnakeLike | os_01/lab_04/docs/report.tex:455-465 | keeps the multiset of entries and leaves them non-increasing along the inward spiral |
| MemoryProbe.CountMemory | os_01/lab_02/prog.asm:223-260 | stops at the size of the RAM, cut to the range it can reach, with every byte restored |
| MemoryProbe.ProbeExact | os_01/lab_02/prog.asm:232-269 | exactly the sizes that are found, and exactly those whose number of megabytes is right |
| MemoryProbe.RotateNumeral | os_01/lab_02/prog.asm:299-324 | ror eax, 4 moves the last digit of the numeral to its front |
| MemoryProbe.PrintCount | os_01/lab_02/prog.asm:291-330 | eight cells show the uppercase numeral of eax, no other byte of the screen changes, and eax is unchanged after the rotations |
| MemoryProbe.PrintText | os_01/lab_02/prog.asm:118-127 | a label is shown on its cells only |
| MemoryProbe.ShowMemory | os_01/lab_02/prog.asm:117-286 | label, number and unit stand side by side in the first 18 cells, and the number is the probed size in megabytes |
| SelectServer.TableSize | os_02/lab_08/src/net/server.c:91-97 | a free slot is left exactly when fewer clients are open than there are slots |
| SelectServer.Server.WatchSet | os_02/lab_08/src/net/server.c:45-58 | the set given to select() is the listener and the open clients, max_sd its largest member |
| SelectServer.Server.HandleConnection | os_02/lab_08/src/net/server.c:83-102 | a new client takes the first free slot; a failure or a full table ends the program and leaves the table alone |
| SelectServer.Server.HandleClient | os_02/lab_08/src/net/server.c:104-118 | a client at its end is closed and its slot freed, no other slot changes |
| SelectServer.Server.ServeReady | os_02/lab_08/src/net/server.c:68-72 | each ready client is read from once, in the order of the slots, and those at their end are closed |
| SelectServer.Server.Round | os_02/lab_08/src/net/server.c:44-73 | the program goes on exactly if select() works and a newcomer can be accepted and has a slot; only clients that this select() reported are read from, each once, also when one was accepted in the same round |
| SelectServer.Server.Serve | os_02/lab_08/src/net/server.c:44-74 | over every run the non-zero slots are exactly the open clients, each once, every round was served rightly, and rounds are made until the program ends |
| SelectServer.NeverTooMany | os_02/lab_08/src/net/server.c:11-14 | no run ever has more clients open than there are slots |
| SharedOffset.StepInv | os_02/lab_05/src/01_thread.c:8-18 | every step of every thread keeps each byte in exactly one place: unread, in one stream's hands, or printed |
| SharedOffset.ChunksPartition | os_02/lab_05/src/01_thread.c:11-16 | in every schedule the chunks read are consecutive, disjoint and cover what lies before the offset |
| SharedOffset.ChunksFit | os_02/lab_05/src/01_thread.c:12-13 | no read takes more than a buffer full |
| SharedOffset.OwnBytesInOrder | os_02/lab_05/src/01_thread.c:15-17 | each thread prints true bytes of the file, from its own chunks, in file order |
| SharedOffset.EveryByteOnce | os_02/lab_05/src/01_thread.c:20-31 | no byte is printed twice, and when all threads have ended every byte was printed once |
| SharedOffset.NeverStuck | os_02/lab_05/src/01_thread.c:16-17 | a thread that has not met the end of the file can go on |
| SharedOffset.Terminates | os_02/lab_05/src/01_thread.c:16-17 | no schedule is longer than three steps a byte and one a thread |
| SharedOffsetMachine.Machine.Read | os_02/lab_05/src/01_thread.c:13-16 | a read takes the next piece of the file, as much as is wanted or left, and moves the shared offset past it |
| SharedOffsetMachine.Machine.Move | os_02/lab_05/src/01_thread.c:16-17 | in place, a thread that has not ended makes the model's next step |
| SharedOffsetMachine.Machine.Run | os_02/lab_05/src/01_thread.c:8-31 | for any order of offers each thread moves unless it has ended; the schedule is those that moved, legal, and ends in the model's state |
| SharedOffsetMachine.FairRunEnds | os_02/lab_05/src/01_thread.c:20-31 | every order that gives each thread a turn in three rounds a byte and one a thread ends with all threads ended and each byte of the file printed once |

## Taken from outside the programs

- `semop()` carries out its array all or nothing, in order (POSIX.1-2017 XSH).
  Semaphores that are never set start at 0, as on Linux. The flag 1 in
  `os_01/lab_05/02.c` is neither IPC_NOWAIT nor SEM_UNDO.
- `init_stack` leaves `top` unset; the new stack is taken as empty, which is what
  `push` and `is_free` rely on.
- A directory listing, an `lstat` result and the success of `opendir` come from a
  finite tree whose names are not empty, hold no slash and differ within a
  directory; "." and ".." may stand anywhere in a listing.
- `chdir` succeeds where `opendir` does, and every directory may be passed through.
  A symbolic link leads to a place whose own path holds no link, or nowhere; the
  walker starts at such a place. Path names are resolved as in section 4.13 of
  POSIX.1-2017 XBD; `lstat` does not follow a link in the last component, `opendir`
  does.
- Addresses behind the RAM never read back as the signature. `select` only clears
  members of its set, and `accept` returns a positive descriptor that is not in
  use, or -1.
- A `read` on the shared file description is atomic with the move of the offset
  (POSIX.1-2017 XSH sections 2.5.1 and 2.9.7) and may be shorter than the buffer.

## Left out

- MapsParser.ParseMaps: asks for lines in the format of proc(5); on other text the field loop can leave the buffer, which the model does not follow.
- CutReads.CutFile: asks that no read ends in a line behind its low bound; what is left of such a line is no longer a line, and the parser's result for it is not followed.
- SpiralSort.FillMatrix: asks for the sizes of `Fits`; for the others the program reads before the array.
- Semop.Run: the upper limit of a semaphore value (ERANGE) is not modelled; by `Conservation` and `SemaphoresCount` the values stay within N and the number of processes.
- ReadersWriters.NoLostIncrement: the shared integer is unbounded, so overflow of `(*shm)++` is not modelled.
- StackWalk.Walker.MyftwN: counters are unbounded, and the buffer sizes for path names are not modelled.
- SelectServer.Server.HandleClient: the message and its terminating NUL are not modelled, nor is the limit of an fd_set.
- Process, signal, pipe, daemon and socket-client programs: sequences of system calls without an invariant of their own.
- `os_01/lab_06/main.c`: exclusion is not kept by the code.
- `os_02/lab_04/src/part_02`, `os_02/lab_07`, `os_02/lab_03`, `os_02/lab_09`: kernel modules; the kernel code they rest on is not part of this model.
- `os_02/lab_04/src/part_01/main.c`: copying and printing of files.
- The linked-list program in `os_01/lab_04/docs/report.tex`.
- Printing formats, the bit fields of `print_page`, sleep, failing fork, shared-memory addressing, memory exhaustion, mode switching, ports and interrupt handlers.
