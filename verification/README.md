# System-call tests, modelled and proved

The repository is a collection of Linux Test Project system-call tests. Most are one call
and one errno check, but some contain real algorithms, protocols and even bytecode
programs. This project models those together with the small part of the kernel they rely
on, and proves what they promise for every initial state, size, limit and interleaving
rather than for the values in the test tables.

| File | What it models |
|---|---|
| `Words`, `BpfMachine`, `BpfAlu`, `BpfBlocks`, `BpfPrograms` | an eBPF machine after RFC 9669 (sections 3.2, 4.1, 4.3 and 5.4) with tagged values, blocks of bytecode, and the programs of `bpf_prog01` to `bpf_prog05` |
| `Eventfd`, `SemPlayers` | the 64-bit eventfd counter, and two players over two semaphore counters |
| `Handshake`, `Pieces`, `VectoredCopy` | the checkpoint hand-shake around a remote read or write, and the copy between two partitions of a buffer |
| `CopyFileRange` | the loop around a copy that may come back short, and its checks |
| `SparseFile`, `FallocateTests`, `BlockAllocator` | bytes with an allocation map, and blocks on a filesystem that is full |
| `FdTable`, `CloseRange` | lowest-free descriptor allocation, and tables shared between two processes |
| `FanotifyBuffer`, `FanotifyMatch`, `FanotifyQueue` | walking, matching and queueing fanotify events |
| `KeyQuota` | the byte and key quotas of `add_key` |
| `Options` | a value that may be absent |

Code that works step by step is modelled as classes and methods with loops (`Machine.Run`,
`ReadV`, `DupUntilFull`, `Match15`, ...), each proved against a specification whose own
properties are lemmas. Calls the tests treat as infallible are infallible here; random
numbers, short copies, event merging, scheduling and what a filler leaves free are
arbitrary choices, so the theorems hold for all of them. `dafny verify dfyconfig.toml`
checks everything.

## Where the code is narrower than it looks

These are results about the code as it is; each is proved as an exact condition, and the
less obvious ones have an instance.

- `BPF_MAP_ARRAY_STX` stores what its register held on entry if and only if the register is
  r6 or above, because the lookup destroys r1-r5 and replaces r0
  (`BpfBlocks.SavesEntryValueIff`).
- `get_event_info` passes over a last record that is a bare header
  (`FanotifyBuffer.GetEventInfo`, with an example in `BareLastIsMissed`).
- `fetch_event` rewinds its position when there is nothing to read but keeps the old length,
  so a call after the first NULL returns the last batch again unless nothing was ever read
  (`Reader.FetchPastEnd`, with every queue of one event in `StaleEvent`).
- `fanotify23` does not notice expected events that never arrive, `fanotify15` does
  (`FanotifyMatch.LooseExactly` and `StrictExactly`, with an example in `MissingUnnoticed`).
- `dup06` takes entry 0 of its array to mean "unused" and so never closes descriptor 0: later
  passes succeed if and only if descriptor 0 was in use at the start (`FdTable.Dup06`, with an example in
  `SecondPassFails`).
- `close_range01` accepts a limit of 1000 descriptors, but `dup2` to 1000 needs more
  (`CloseRange.Run`).
- `test_one` of `copy_file_range01` can finish if and only if the source holds all bytes
  asked for (`CopyFileRange.LoopEndsIff`), and for an empty copy it can fail because
  `check_file_content` always compares one byte (`Files.TestOne`, with an example in
  `EmptyCopyFails`).
- `fcntl01` gets the numbers it expects on every table, even where they are -1, but reports
  every open that fails, so it passes exactly with eight free slots (`FdTable.Fcntl01`).
- `add_key05` passes exactly when there is room for the keys it adds
  (`KeyQuota.VerifyMaxBytes`, `VerifyMaxKeys`).
- Comments that disagree with the code, where the model follows the code: `bpf_prog02.c:48`
  says 2^61 for 2^60; `bpf_prog05.c:117-119` and `:132-134` number the entries 1 to 4 where the
  code uses 0 to 3; `bpf_prog03.c:58` moves r0 to itself, where r0 is already 0.

## Model

| member | source | states |
|---|---|---|
| `Words.TruncateAndShift` | original tests/bpf/bpf_prog04.c:44-47 | Cutting a 64-bit value to 32 bits before a right shift by s agrees with cutting it afterwards if and only if the s lowest bits of the high half are zero |
| `Words.ShrDivides` | original tests/bpf/bpf_prog04.c:46-46 | The bit-by-bit right shift divides by a power of two, rounding down |
| `Words.Shl64Multiplies` | original tests/bpf/bpf_prog04.c:45-45 | The bit-by-bit left shift multiplies by a power of two up to a multiple of 2^64 |
| `Words.LittleEndian` | original tests/bpf/bpf_common.h:35-35 | Byte i of a stored word counts 256 to the power i |
| `BpfAlu.Shift32Agrees` | original tests/bpf/bpf_prog04.c:46-46 | The same exact condition for the machine's 32-bit against its 64-bit shift, for every value and every shift below 32 |
| `BpfAlu.ZeroDivisor32` | original tests/bpf/bpf_prog05.c:107-137 | A 32-bit division yields zero for every dividend if and only if the divisor's low half is zero, whatever its high half; the remainder then is the zero-extended low half, which is the old value exactly when the high half was clear |
| `BpfAlu.AddAndSub` | original tests/bpf/bpf_prog02.c:49-63 | 64-bit addition wraps at most once and subtraction undoes it, for all operands |
| `BpfAlu.DivAndMod` | original tests/bpf/bpf_prog05.c:115-130 | Quotient and remainder make up the dividend, a zero divisor included |
| `BpfAlu.LowHalves` | original tests/bpf/bpf_prog05.c:115-130 | Every 32-bit operation of the programs is the 64-bit one on the low halves, cut to 32 bits |
| `BpfAlu.Shifts` | original tests/bpf/bpf_prog03.c:66-66 | 64-bit shifts by the low six bits of the count multiply and divide by powers of two |
| `BpfAlu.LowShifts` | original tests/bpf/bpf_prog04.c:46-46 | 32-bit shifts by the low five bits of the count multiply and divide the low half |
| `BpfAlu.PointersMove` | original tests/bpf/bpf_prog03.c:71-82 | A pointer moves by a signed amount added on either side and back by subtracting it; every other use of it in arithmetic is refused |
| `BpfAlu.StackStore` | original tests/bpf/bpf_common.h:35-35 | A stack store inside the 512 bytes is read back and changes nothing else; any other is refused |
| `BpfAlu.MapStore` | original tests/bpf/bpf_common.h:39-39 | A map store hits exactly its entry, and is done only at the entry's beginning |
| `BpfAlu.LookupReadsKey` | original tests/bpf/bpf_common.h:36-36 | The lookup reads the key from where r2 points and gives that entry's address, or null past the map |
| `BpfAlu.ReturnsImmediate` | original tests/bpf/bpf_prog02.c:63-64 | Exit hands back r0, for every immediate |
| `BpfAlu.Branches` | original tests/bpf/bpf_prog02.c:46-58 | A branch compares with the sign-extended immediate and counts from the next slot; not taken, it falls through |
| `BpfAlu.MapLoads` | original tests/bpf/bpf_common.h:32-32 | A map load gives the map, and wants a zero second half |
| `BpfAlu.Stops` | original tests/bpf/bpf_common.c:108-128 | Which steps are faults: leaving the program, half an instruction, writing the frame pointer, values not fit for use |
| `BpfMachine.Halts` | original tests/bpf/bpf_common.c:108-128 | A program whose wide loads are well formed, whose jumps go forward to an instruction inside it and whose last slot is exit halts within as many steps as it has slots left, and never leaves the program or lands inside a wide load |
| `BpfBlocks.LoadableEnds` | original tests/bpf/bpf_common.c:108-128 | The run by pc of every loadable program ends before it passes the last slot |
| `BpfMachine.Machine.StepOnce` | original tests/bpf/bpf_prog02.c:38-65 | The in-place machine (registers, stack, map entries, pc) makes exactly the transition of the instruction at the pc, faults included |
| `BpfMachine.Machine.Run` | original tests/bpf/bpf_common.c:130-143 | A run of the in-place machine on a loadable program ends, not by bad control flow, in the outcome of the transition function iterated as often as there are slots |
| `BpfBlocks.WholeRun` | original tests/bpf/bpf_common.c:130-143 | Stopping a run by pc (used for reasoning about blocks) and stopping it by step count (the machine) give the same outcome on every loadable program |
| `BpfBlocks.Relocation` | original tests/bpf/bpf_common.h:17-39 | A closed block placed anywhere in any forward program has the outcome it has on its own, moved by its position |
| `BpfBlocks.Composition` | original tests/bpf/bpf_common.h:17-39 | Two closed blocks in a row do what the first does and then, if it falls through, what the second does from the state the first left |
| `BpfBlocks.ClosedAppend` | original tests/bpf/bpf_common.h:17-39 | Closed blocks (whole instructions, jumps staying inside or to the end) are closed under concatenation |
| `BpfBlocks.ShortJumps` | original tests/bpf/bpf_common.h:37-39 | Jumps to the next instruction or to the end keep a block closed, further or backward ones do not |
| `BpfBlocks.StoreBlockMeaning` | original tests/bpf/bpf_common.h:31-39 | The outcome of one store block for every state, index and register: out of range exits with r0 = 0, a register the lookup destroyed faults, otherwise exactly that entry is written and control falls through |
| `BpfBlocks.SavesEntryValueIff` | original tests/bpf/bpf_common.h:17-39 | Run on its own, the block stores the value its register had on entry, in every state and for every index in range, if and only if the register is r6 or above |
| `BpfBlocks.InRange` | original tests/bpf/bpf_common.h:17-39 | The number of saves before the first whose index is outside the map |
| `BpfBlocks.LastSave` | original tests/bpf/bpf_common.h:17-39 | The last save in a list that names a given entry, or none if no save does |
| `BpfBlocks.BlocksMeaning` | original tests/bpf/bpf_common.h:17-39 | For any list of saves of call-preserved registers the concatenated blocks write exactly the saves before the first bad index, the last writer winning; they fall through if there is no bad index and otherwise exit with r0 = 0; r6-r10, the other entries and the stack outside the key word are kept |
| `BpfBlocks.BlocksAnywhere` | original tests/bpf/bpf_common.h:17-39 | The same, for the list of blocks standing at any position of any forward program |
| `BpfPrograms.Prog01Ends` | original tests/bpf/bpf_prog01.c:36-68 | From any registers, stack and map the program is loadable and ends with r0 = 0 and entry 0 equal to 1, or the map unchanged if it is empty; the key is stored as a double word and read back as a word |
| `BpfPrograms.Run01` | original tests/bpf/bpf_prog01.c:77-99 | Reading the map back after the run finds the expected value, from every initial register and stack contents |
| `BpfPrograms.Prog02Jumps` | original tests/bpf/bpf_prog02.c:46-64 | The only jumps are at slots 7 and 19 and both land on slot 25, counting wide loads as two slots |
| `BpfPrograms.Prog02Ends` | original tests/bpf/bpf_prog02.c:38-65 | From any state the run ends with r0 = 0, entry 0 = 2^60+1 and entry 1 = 2^60-1, as far as these entries exist |
| `BpfPrograms.Run02` | original tests/bpf/bpf_prog02.c:77-107 | Reading the two entries back finds both expected values, from every initial state |
| `BpfPrograms.LookupThroughR8Meaning` | original tests/bpf/bpf_prog03.c:48-59 | The lookup with the key address kept across the call in r8 leaves a pointer to entry 0, or exits with 0 when there is none |
| `BpfPrograms.WideOneMeaning` | original tests/bpf/bpf_prog03.c:61-66 | The 32-bit move of -1, the 64-bit add and the 64-bit shift leave 64 in r1 and change nothing else |
| `BpfPrograms.WriteBelowMeaning` | original tests/bpf/bpf_prog03.c:68-82 | The store 64 bytes below the entry is refused by the machine |
| `BpfPrograms.WriteBelowLater` | original tests/bpf/bpf_prog03.c:76-82 | The three later stores are of r3 through r2, each 64 bytes further down |
| `BpfPrograms.Prog03Ends` | original tests/bpf/bpf_prog03.c:47-87 | The program is loadable; its run exits with 0 on an empty map and is refused at the out-of-bounds store otherwise |
| `BpfPrograms.MangleMeaning` | original tests/bpf/bpf_prog04.c:44-47 | 64-bit shift left, 32-bit shift right and 32-bit subtract leave 2^32-2 in r8 |
| `BpfPrograms.StoreFarAwayMeaning` | original tests/bpf/bpf_prog04.c:49-58 | For any scalar in r8 the store through the moved pointer is carried out if and only if r8 is zero, when there is an entry; each entry is bounded on its own, as in the map of one entry that the test creates |
| `BpfPrograms.Prog04Ends` | original tests/bpf/bpf_prog04.c:43-62 | The program is loadable, exits with 0 on an empty map and is refused at the far store otherwise |
| `BpfPrograms.SetupMeaning` | original tests/bpf/bpf_prog05.c:108-115 | After loading r6 = 2^32 and r7 = -1 the 32-bit operation leaves r6 alone and gives 0 (division) or 2^32-1 (remainder) in r7 |
| `BpfPrograms.HalfMeaning` | original tests/bpf/bpf_prog05.c:108-121 | Set-up and two store blocks write r6 and r7 to two neighbouring entries as far as they exist, and exit with 0 at the first that does not |
| `BpfPrograms.Prog05Ends` | original tests/bpf/bpf_prog05.c:107-141 | For every map size the run ends with r0 = 0 and entries 0..3, as far as they exist, hold 2^32, 0, 2^32 and 2^32-1, all others unchanged |
| `BpfPrograms.Checker.ExpectRegVal` | original tests/bpf/bpf_prog05.c:148-162 | Compares the entry at the shared key and advances the key, counting exactly the mismatches |
| `BpfPrograms.Run05` | original tests/bpf/bpf_prog05.c:170-192 | The four comparisons find no mismatch, from every initial state |
| `Eventfd.Conservation` | original tests/eventfd/eventfd01.c:86-562 | Over every run of reads, writes and kernel increments, of a counter or a semaphore: initial value plus everything put in equals final value plus everything read, with both totals computed from the answers alone |
| `Eventfd.Refusals` | original tests/eventfd/eventfd01.c:197-285 | EINVAL and EAGAIN occur exactly for short buffers, the value 2^64-1, an empty counter and a sum past 2^64-2, and change nothing |
| `Eventfd.Transfers` | original tests/eventfd/eventfd01.c:132-191 | What a read hands out leaves the counter and what a write or a signal puts in enters it, and how much that is in each mode |
| `Eventfd.AnswerAt` | original tests/eventfd/eventfd01.c:86-562 | Answer i of any run, kernel increments included, is that of the counter the first i operations leave |
| `Eventfd.UserRunsStayBelow` | original tests/eventfd/eventfd01.c:197-217 | Without kernel increments no prefix of any run leaves the counter above 2^64-2, and an acceptable write is refused exactly when it would |
| `Eventfd.PollMeansProgress` | original tests/eventfd/eventfd01.c:290-418 | Readable means a read hands something out, writable means a unit is accepted, overflowed means above 2^64-2 and is read as 2^64-1 |
| `Eventfd.OverflowNeedsSignal` | original tests/eventfd/eventfd01.c:502-562 | A run that ends in overflow contains a kernel increment |
| `Eventfd.Counter.Read` | original tests/eventfd/eventfd01.c:132-172 | Answer and new counter value are those of the transition function: EINVAL, EAGAIN, the whole value, or one unit of a semaphore |
| `Eventfd.Counter.Write` | original tests/eventfd/eventfd01.c:177-217 | Answer and new counter value are those of the transition function: EINVAL for short buffers and for 2^64-1, EAGAIN when the sum would pass 2^64-2 |
| `Eventfd.Counter.ClearCounter` | original tests/eventfd/eventfd01.c:86-100 | Never fails and leaves zero, whether or not there was anything to read |
| `Eventfd.Counter.SetCounter` | original tests/eventfd/eventfd01.c:112-127 | Succeeds exactly for values other than 2^64-1 and then leaves that value, whatever was there |
| `Eventfd.Counter.ReadTest` | original tests/eventfd/eventfd01.c:132-148 | Passes exactly when the counter held the required non-zero value, and empties it |
| `Eventfd.Counter.ReadEagainTest` | original tests/eventfd/eventfd01.c:153-172 | Passes from every counter value |
| `Eventfd.Counter.WriteTest` | original tests/eventfd/eventfd01.c:177-191 | Passes from every counter value |
| `Eventfd.Counter.WriteEagainTest` | original tests/eventfd/eventfd01.c:197-217 | Passes from every counter value and leaves 2^64-2 |
| `Eventfd.Counter.TriggerOverflow` | original tests/eventfd/eventfd01.c:502-562 | One kernel increment after setting 2^64-2 gives exactly 2^64-1: overflowed, readable, not writable |
| `Eventfd.SelectTests` | original tests/eventfd/eventfd01.c:290-418 | The four select tests pass from every counter value |
| `Eventfd.EinvalTests` | original tests/eventfd/eventfd01.c:223-285 | The tests of short buffers and of the value 2^64-1 pass from every counter value |
| `Eventfd.OverflowTests` | original tests/eventfd/eventfd01.c:570-650 | After each overflow select, poll and read report it, from every counter value |
| `SemPlayers.InvStep` | original tests/eventfd2/eventfd2_03.c:58-103 | Every step of either player keeps the accounts: units in a counter plus waits taken from it equal units posted to it |
| `SemPlayers.OnePhaseApart` | original tests/eventfd2/eventfd2_03.c:80-103 | In every state satisfying the invariant the players are at most one batch apart |
| `SemPlayers.CounterBound` | original tests/eventfd2/eventfd2_03.c:80-103 | A counter never holds more than two consecutive batches |
| `SemPlayers.DeadlockFree` | original tests/eventfd2/eventfd2_03.c:80-103 | A state in which neither player can go is exactly one in which both have finished |
| `SemPlayers.MadeStep` | original tests/eventfd2/eventfd2_03.c:58-103 | Every step adds exactly one to the number of calls made, so no interleaving runs for ever |
| `SemPlayers.EveryRun` | original tests/eventfd2/eventfd2_03.c:80-139 | For any list of positive batches and any interleaving: one batch apart, bounded counters, at most two calls for each post and wait, stuck exactly when all calls are made, and then both finished with both counters zero |
| `SemPlayers.Process.XsemWait` | original tests/eventfd2/eventfd2_03.c:58-68 | A wait on a non-zero semaphore succeeds and takes exactly one unit |
| `SemPlayers.Process.XsemPost` | original tests/eventfd2/eventfd2_03.c:70-78 | A post that fits succeeds and adds exactly its count |
| `SemPlayers.Process.Go` | original tests/eventfd2/eventfd2_03.c:80-103 | The process object's next call on the shared counters is the player's step of the protocol |
| `SemPlayers.Play` | original tests/eventfd2/eventfd2_03.c:110-139 | Two process objects scheduled in any order run to the end and leave both counters at zero, for every list of batches |
| `Handshake.InvStep` | original tests/cma/process_vm_writev02.c:26-115 | Every step of allocator, parent or accessor, and every rendezvous, keeps the invariant that ties each process's position to what the buffers hold |
| `Handshake.AccessIsSafe` | original tests/cma/process_vm_writev02.c:37-71 | The remote access happens only after the pointer is published and while the allocator waits; verification sees every byte written; no process ever counts a wrong byte |
| `Handshake.PlainBytes` | original tests/cma/process_vm_writev02.c:26-71 | In plain numbers: 'a' before and 'w' after the write test, the position mod 256 throughout the read test, in both buffers |
| `Handshake.VerifyCounts` | original tests/cma/process_vm_writev02.c:37-47 | Whatever the buffer holds, the allocator's loop ends with the number of bytes that are not 'w' |
| `Handshake.CheckCounts` | original tests/cma/process_vm_readv03.c:121-135 | Whatever the copy holds, the accessor's loop ends with the number of bytes that differ from their position mod 256 |
| `Handshake.DeadlockFree` | original tests/cma/process_vm_writev02.c:90-115 | A reachable state is stuck exactly when all three processes are done |
| `Handshake.AheadShrinks` | original tests/cma/process_vm_writev02.c:26-115 | Every step shrinks a non-negative measure, so every interleaving ends |
| `Handshake.EveryRun` | original tests/cma/process_vm_readv03.c:154-188 | For both the write and the read test, any buffer size, any initial contents and any interleaving: safe access, at most 5n+14 steps, stuck exactly when done, and then no error counted and every byte in place |
| `VectoredCopy.CreateDataSize` | original tests/cma/process_vm_readv03.c:54-66 | For any random numbers each size is one of them cut to half of what is left, the sizes are non-negative and sum to the buffer size, and the last one is positive if the buffer is not empty |
| `VectoredCopy.ChildAlloc` | original tests/cma/process_vm_readv03.c:68-86 | The pieces have the given sizes and, laid end to end, byte k is k mod 256 across piece boundaries |
| `VectoredCopy.ReadV` | original tests/cma/process_vm_readv03.c:112-119 | For any two partitions the copy keeps the local sizes, returns the smaller total, and lays the remote bytes in order over the local ones, leaving the rest |
| `VectoredCopy.BadCountsPositions` | original tests/cma/process_vm_readv03.c:121-135 | The running error count is the number of positions whose byte differs from its position mod 256, and is zero exactly when none does |
| `VectoredCopy.CountErrors` | original tests/cma/process_vm_readv03.c:121-135 | For arbitrary local bytes and any partition the loop returns exactly the number of wrong positions |
| `VectoredCopy.Run` | original tests/cma/process_vm_readv03.c:154-188 | For every buffer size, numbers of pieces, random partitions and initial local contents: all bytes are transferred and no error is counted |
| `Pieces.FlatAt` | original tests/cma/process_vm_readv03.c:76-84 | Piece i of a partition sits at its offset in the pieces laid end to end |
| `Pieces.FlatReplace` | original tests/cma/process_vm_readv03.c:112-119 | Replacing a piece by one of the same length changes those bytes and no others |
| `CopyFileRange.CheckFileContent` | original tests/copy_file_range/copy_file_range01.c:36-61 | Returns 0 if and only if the first max(len,1) reads of the two files agree, the end of a file being a value that can agree |
| `CopyFileRange.ComparesBytes` | original tests/copy_file_range/copy_file_range01.c:51-60 | While both files last, the check compares the two byte strings |
| `CopyFileRange.ComparesEnds` | original tests/copy_file_range/copy_file_range01.c:51-60 | It fails whenever only one file has ended within the reads |
| `CopyFileRange.CheckFileOffset` | original tests/copy_file_range/copy_file_range01.c:63-98 | Returns 0 if and only if an explicit offset advanced by len and the descriptor's stayed 0, or without one the descriptor's is len |
| `CopyFileRange.WriteTwice` | original tests/copy_file_range/copy_file_range01.c:129-139 | Writing b behind a is writing a + b at once, also when the first write starts in a gap past the end |
| `CopyFileRange.LoopEnds` | original tests/copy_file_range/copy_file_range01.c:129-139 | With enough source every sequence of short copies keeps position plus remainder constant and shrinks the remainder at every pass |
| `CopyFileRange.EveryShortRun` | original tests/copy_file_range/copy_file_range01.c:125-139 | No way of coming back short is left out: any positive sizes that fit are the passes of some run of the loop |
| `CopyFileRange.LoopStalls` | original tests/copy_file_range/copy_file_range01.c:129-139 | With too little source no sequence of copies ever brings the remainder to zero |
| `CopyFileRange.LoopEndsIff` | original tests/copy_file_range/copy_file_range01.c:129-139 | The loop can finish if and only if nothing was asked for or the source holds all the bytes asked for |
| `CopyFileRange.Files.SysCopyFileRange` | original tests/copy_file_range/copy_file_range01.c:129-131 | A copy may be short but not empty while source is left; an offset argument given is advanced and the descriptor's offset is not, and conversely |
| `CopyFileRange.Files.CopyAll` | original tests/copy_file_range/copy_file_range01.c:129-139 | However short the copies, the loop ends with the remainder 0, all len bytes written once, and each side's position moved by len |
| `CopyFileRange.Files.TestOne` | original tests/copy_file_range/copy_file_range01.c:100-157 | Destination bytes are the source's over len and unchanged or zero-filled elsewhere, each side has moved its offset or its descriptor but not both, and the test fails exactly for an empty copy whose first reads differ |
| `CopyFileRange.ContentArrived` | original tests/copy_file_range/copy_file_range01.c:141-147 | After the copy the content check passes if and only if something was copied or the first reads happen to agree |
| `CopyFileRange.EmptyCopyFails` | original tests/copy_file_range/copy_file_range01.c:36-61 | An instance: an empty copy from a file with a byte in it to a new file fails |
| `CopyFileRange.WriteSource` | original tests/copy_file_range/copy_file_range.h:67-70 | The source file is the content repeated four times for each byte of a page, 128 pages in all |
| `CopyFileRange.CopyFileRangeVerify` | original tests/copy_file_range/copy_file_range01.c:173-212 | All 4 x 6 x 6 combinations of lengths and offsets are within the source and none fails |
| `SparseFile.CollapseInsertIsPunch` | original tests/fallocate/fallocate04.c:189-265 | On every valid file, collapsing a block-aligned inner range and inserting it again equals punching it, in bytes and in the allocation map |
| `SparseFile.InsertCollapseIsIdentity` | original tests/fallocate/fallocate04.c:189-265 | Inserting a range and collapsing it again is allowed and gives back the same file |
| `SparseFile.PunchExactly` | original tests/fallocate/fallocate06.c:212-240 | A punch of allocated space, aligned or not, zeroes exactly its bytes and frees exactly the whole blocks inside it |
| `SparseFile.PunchBytes` | original tests/fallocate/fallocate06.c:212-216 | On any file, a punch zeroes exactly its bytes and frees exactly the blocks that lie wholly in its range |
| `SparseFile.AllocateExactly` | original tests/fallocate/fallocate04.c:84-85 | Preallocation keeps every byte, adds zeros up to its end and allocates exactly the blocks that share a byte with the range |
| `SparseFile.WriteBytes` | original tests/fallocate/fallocate06.c:207-208 | At any offset a write stores exactly its bytes, keeps the others, fills a gap with zeros, and allocates like fallocate |
| `SparseFile.ZeroRangeIsWrite` | original tests/fallocate/fallocate04.c:160-161 | Zeroing a range is writing zeros to it |
| `SparseFile.CollapseBytes` | original tests/fallocate/fallocate04.c:197-198 | What lies behind a collapsed range moves down by its length, bytes and blocks |
| `SparseFile.InsertBytes` | original tests/fallocate/fallocate04.c:237-238 | What lies behind an inserted range moves up by its length, and the range is a hole |
| `SparseFile.PunchKeeps` | original tests/fallocate/fallocate04.c:106-107 | Punching keeps the file valid: holes read as zeros and the map has one answer for each block |
| `SparseFile.AllocateKeeps` | original tests/fallocate/fallocate04.c:84-85 | Preallocation keeps the file valid, growing it if needed |
| `SparseFile.ZeroAndWriteKeep` | original tests/fallocate/fallocate04.c:160-161 | Zeroing and writing keep the file valid |
| `SparseFile.InsertKeeps` | original tests/fallocate/fallocate04.c:237-238 | Inserting keeps the file valid |
| `SparseFile.CollapseKeeps` | original tests/fallocate/fallocate04.c:197-198 | Collapsing keeps the file valid |
| `FallocateTests.FillTstBuf` | original tests/fallocate/fallocate04.c:53-60 | The buffer holds a block each of a, b and c |
| `FallocateTests.ExpectedBytes` | original tests/fallocate/fallocate04.c:99-265 | The four states of the file byte by byte: which letter or zero, and which blocks are allocated |
| `FallocateTests.OpenFile.Test01` | original tests/fallocate/fallocate04.c:80-97 | From an empty file, for every block size: three allocated blocks holding the three letters |
| `FallocateTests.OpenFile.Test02` | original tests/fallocate/fallocate04.c:99-145 | The hole is found where it was punched, one block less is allocated, only the hole reads as zeros, and the test passes |
| `FallocateTests.OpenFile.Test03` | original tests/fallocate/fallocate04.c:147-187 | Zeroing a byte past the hole on either side allocates one block more, and the expected bytes are found |
| `FallocateTests.OpenFile.Test04` | original tests/fallocate/fallocate04.c:189-227 | Collapsing the middle block gives one block less and the expected seam |
| `FallocateTests.OpenFile.Test05` | original tests/fallocate/fallocate04.c:229-265 | Inserting and zeroing it again gives one block more and the file as it was before the collapse |
| `FallocateTests.RunFallocate04` | original tests/fallocate/fallocate04.c:267-274 | The five tests in order pass for every block size |
| `FallocateTests.FillCounting` | original tests/fallocate/fallocate06.c:130-132 | Byte i of the write buffer is i + 1 wrapped to a byte |
| `FallocateTests.CountsUp` | original tests/fallocate/fallocate06.c:130-132 | The buffer starts at 1 and goes from 255 back to 0 |
| `FallocateTests.CheckResultAccepts` | original tests/fallocate/fallocate06.c:135-164 | Besides the expected answer only ENOSPC with copy-on-write on a full filesystem passes |
| `FallocateTests.RangeCleared` | original tests/fallocate/fallocate06.c:226-246 | The three-part check accepts a read buffer if and only if it is the written data with exactly the range zeroed |
| `FallocateTests.ThreeParts` | original tests/fallocate/fallocate06.c:226-240 | A buffer is the data with the range zeroed if and only if the range is zero and the parts before and after agree |
| `FallocateTests.PreallocationCovers` | original tests/fallocate/fallocate06.c:187-210 | A write of up to the preallocated length, aligned or not, on any valid file changes neither the allocation map nor the file's length |
| `FallocateTests.PreallocationNeeded` | original tests/fallocate/fallocate06.c:187-210 | Without the preallocation the same write past the end would not fit on a full filesystem |
| `FallocateTests.AllocateAgain` | original tests/fallocate/fallocate06.c:187-210 | Allocating part of an allocated range again is the identity |
| `FallocateTests.MisalignedPunchFreesTwo` | original tests/fallocate/fallocate06.c:212-216 | The misaligned punch of three blocks' length frees exactly the two whole blocks inside it |
| `FallocateTests.RunFallocate06` | original tests/fallocate/fallocate06.c:140-251 | For every block size, all four rows of the table and whatever space is left: the write and the punch are reported as passes, and the range is cleared and checked unless copy-on-write on a full filesystem refuses the punch |
| `FallocateTests.WriteMisaligned` | original tests/fallocate/fallocate06.c:183-210 | The write into the preallocated range needs no block, so it fails only if copy-on-write on a full filesystem wants more than is left; if it succeeds its bytes are found at the offset, and the data before stays as it was |
| `BlockAllocator.FirstBlocks` | original tests/fallocate/fallocate05.c:62-62 | The first n blocks' worth of bytes lie in exactly n blocks |
| `BlockAllocator.TouchedExactly` | original tests/fallocate/fallocate05.c:62-132 | The blocks of a range are the aligned ones that share a byte with it, also where it begins or ends inside a block |
| `BlockAllocator.FullVolumeFits` | original tests/fallocate/fallocate05.c:105-136 | On a full volume a write fits if and only if every block it shares a byte with is owned |
| `BlockAllocator.InsideFirst` | original tests/fallocate/fallocate05.c:116-124 | The whole blocks inside the first n blocks' worth of bytes are exactly those n |
| `BlockAllocator.Volume.Fallocate` | original tests/fallocate/fallocate05.c:62-70 | Succeeds if and only if the blocks the range lacks are free; takes exactly those; free plus owned plus others is constant |
| `BlockAllocator.Volume.Write` | original tests/fallocate/fallocate05.c:105-136 | Fails if and only if not even one byte fits; otherwise writes between 1 and len bytes, takes exactly the blocks they lack, and conserves the total |
| `BlockAllocator.Volume.PunchFront` | original tests/fallocate/fallocate05.c:116-124 | Frees exactly the owned blocks wholly inside the range and conserves the total |
| `BlockAllocator.Volume.ExtendUntilFull` | original tests/fallocate/fallocate05.c:87-103 | The loop ends with nothing free, and after the correction the size extended by is exactly the free blocks times the block size |
| `BlockAllocator.Volume.WriteAll` | original tests/fallocate/fallocate05.c:105-112 | Into owned space the short-write loop never fails, ends, writes exactly the size and takes no block |
| `BlockAllocator.FirstWrite` | original tests/fallocate/fallocate05.c:73-81 | The first write stays in the preallocated range and cannot fail with a full filesystem |
| `BlockAllocator.PunchAndWrite` | original tests/fallocate/fallocate05.c:116-136 | Punching the first n of m blocks frees exactly n, after which the final write stores something at any position |
| `BlockAllocator.Run` | original tests/fallocate/fallocate05.c:55-140 | For every volume, filler and short writes: no space exactly with fewer than 256 free blocks; otherwise no write fails, the extension is exactly the blocks the filler left, the first write is reported full exactly if it was, 64 blocks (on btrfs all) are freed, the final position is the first write plus the extension plus one to ten bytes, and the total is conserved |
| `FdTable.Lowest` | original tests/fcntl/fcntl01.c:63-95 | The lowest number not below a bound that is not in use, or none if all are (section 2.14 of POSIX.1-2017 System Interfaces) |
| `FdTable.Table.Install` | original tests/dup/dup06.c:72-80 | The new descriptor takes the lowest free number and nothing else changes; -1 exactly when there is none |
| `FdTable.Table.DupFd` | original tests/fcntl/fcntl01.c:77-95 | F_DUPFD: lowest free number from the bound on, referring to the same file; -1 and no change on a bad descriptor, bound or a full table |
| `FdTable.Table.Dup2` | original tests/dup2/dup205.c:44-45 | dup2: the target refers to the same file, -1 and no change on a bad descriptor or a target past the limit |
| `FdTable.DupedExactly` | original tests/dup2/dup205.c:44-45 | The target gets the file of the descriptor, unmarked unless it is that descriptor; nothing else changes |
| `FdTable.Table.CntFreeFds` | original tests/dup/dup06.c:40-49 | Counts exactly the free slots below the limit |
| `FdTable.DupUntilFull` | original tests/dup/dup06.c:72-80 | For every initial table the entry that fails has the number of slots that were free, every free slot was handed out once, and all refer to the file |
| `FdTable.CloseAll` | original tests/dup/dup06.c:94-99 | The clean-up closes every descriptor recorded except descriptor 0, and clears the array |
| `FdTable.Dup06Pass` | original tests/dup/dup06.c:69-100 | The verdict of a pass compares the free slots with the count made at the start; afterwards only slot 0 may be left open, exactly if it was free |
| `FdTable.Dup06` | original tests/dup/dup06.c:54-104 | Any number of passes on any table, with the exact verdict of each: pass k succeeds if and only if something was free and it is the first pass or slot 0 was in use initially |
| `FdTable.VerdictsExactly` | original tests/dup/dup06.c:83-91 | Success, too few files and a failed open are told apart by the free slots alone; too many files is never reported |
| `FdTable.SecondPassFails` | original tests/dup/dup06.c:94-99 | An instance: on an empty table of two slots the first pass succeeds and the second finds too few files |
| `FdTable.Dup2Chain` | original tests/dup2/dup205.c:41-52 | For every table with a free slot the chain starts at the lowest one, stops at exactly the table size, and every slot from the first one refers to the file |
| `FdTable.Dup205` | original tests/dup2/dup205.c:37-76 | Passes if and only if a slot was free; the clean-up closes every slot from the first one on, except slot 0 |
| `FdTable.Reopened` | original tests/fcntl/fcntl01.c:72-79 | After closing, the lowest free number from any bound not above it is the number that was handed out first among the closed ones |
| `FdTable.OpensExactly` | original tests/fcntl/fcntl01.c:63-70 | Open number k of the eight succeeds if and only if more than k slots were free |
| `FdTable.MissingCounts` | original tests/fcntl/fcntl01.c:63-70 | As many opens fail as slots are short of eight |
| `FdTable.ReportDups` | original tests/fcntl/fcntl01.c:77-95 | No report on the three numbers if and only if each is a descriptor and the one expected, or above it where the test allows that |
| `FdTable.Fcntl01` | original tests/fcntl/fcntl01.c:63-95 | On every table the three calls return fd2[2], fd2[3] and fd2[5]; all of these are descriptors if and only if six slots were free; the number of reports, failed opens included, is an exact function of the free slots and is zero if and only if there were eight |
| `CloseRange.DoCloseRange` | original tests/close_range/close_range01.c:36-52 | Closes or marks exactly the descriptors from the bound on; with unshare in a private copy, the shared table staying as it was |
| `CloseRange.RangedExactly` | original tests/close_range/close_range01.c:36-52 | Closing takes away exactly the numbers from the bound on; marking takes none away, keeps every file and sets exactly those flags |
| `CloseRange.CheckClosed` | original tests/close_range/close_range01.c:82-90 | Counts exactly the descriptors from the given index on that are still open |
| `CloseRange.Child` | original tests/close_range/close_range01.c:92-125 | In each of the four cases every check of the child passes, and the table it shared is left as that case says, untouched by what follows an unshare |
| `CloseRange.ParentChecks` | original tests/close_range/close_range01.c:163-182 | The number of failures is that of the descriptors which are not as the case must have left them |
| `CloseRange.ExpectedExactly` | original tests/close_range/close_range01.c:163-182 | Case by case, which of the three descriptors must be open, closed or marked |
| `CloseRange.Run` | original tests/close_range/close_range01.c:127-191 | From standard descriptors only: below 1000 not supported; exactly 1000 accepted by the set-up but broken off at descriptor 1000; above 1000 every check holds and the table is as before |
| `CloseRange.RunAll` | original tests/close_range/close_range01.c:127-191 | Any sequence of cases has no failure and returns to the starting table |
| `FanotifyBuffer.FirstOf` | original tests/fanotify/fanotify.h:276-291 | The first record of a type in a list, or none exactly if no record has it |
| `FanotifyBuffer.HeaderAt` | original tests/fanotify/fanotify.h:284-289 | The bytes at a record's offset are its header, and its length leads to the next record |
| `FanotifyBuffer.LastHeader` | original tests/fanotify/fanotify.h:284-285 | The loop's test fails before the end of the event exactly at a last record that is a bare header |
| `FanotifyBuffer.GetEventInfo` | original tests/fanotify/fanotify.h:276-291 | On every event tiled by records the walk ends and returns the first record of the type; it returns NULL exactly if there is none, or if the first one is the last record and a bare header |
| `FanotifyBuffer.BareLastIsMissed` | original tests/fanotify/fanotify.h:284-285 | A concrete 28-byte event whose only record is missed for that reason |
| `FanotifyBuffer.Reader.FetchEvent` | original tests/fanotify/fanotify10.c:733-758 | Until the queue is empty the calls return the events in order across refills; the call that finds nothing rewinds but keeps the old length, so that events are left to return again unless that length is zero |
| `FanotifyBuffer.Reader.FetchPastEnd` | original tests/fanotify/fanotify10.c:739-747 | Of two calls after the events have run out the first is NULL, and the second is NULL if and only if the stored length is zero |
| `FanotifyBuffer.StaleEvent` | original tests/fanotify/fanotify10.c:739-747 | For every queue of one event: the event, NULL, and the same event again |
| `FanotifyBuffer.InspectedExactly` | original tests/fanotify/fanotify10.c:822-828 | What a loop sees that stops behind the first bad event: the first events, all good but the last, which is bad unless nothing was left out |
| `FanotifyBuffer.Reader.CountEvents` | original tests/fanotify/fanotify10.c:820-830 | For any verdicts of verify_event the counting loop sees every queued event once and in order, up to and including the first bad one, and counts what it saw |
| `FanotifyMatch.AccountsFront` | original tests/fanotify/fanotify15.c:186-263 | A group accounts for an event exactly if its first entry is good and, with that entry's bits cleared, the rest of the group accounts for what is left |
| `FanotifyMatch.NoFailureHasMatching` | original tests/fanotify/fanotify15.c:186-270 | A run without failures yields a monotone assignment of the entries to the events in which every entry adds a bit and every bit is accounted for |
| `FanotifyMatch.MatchingHasNoFailure` | original tests/fanotify/fanotify15.c:186-270 | Conversely, if there is such an assignment neither loop reports a failure |
| `FanotifyMatch.MatchingCounts` | original tests/fanotify/fanotify15.c:186-270 | If the first n entries match the first m events and one side is used up, exactly the rest of the other is reported: events by both loops, entries by fanotify15 |
| `FanotifyMatch.FailsExactly` | original tests/fanotify/fanotify15.c:186-270 | For any events and entries the number of failures is one for each entry that meets an event it does not go with (or none, for fanotify15) plus one for each event left over |
| `FanotifyMatch.UnionExactly` | original tests/fanotify/fanotify15.c:259-262 | The bits of a group are exactly those of its entries |
| `FanotifyMatch.StrictExactly` | original tests/fanotify/fanotify15.c:186-270 | fanotify15 reports no failure if and only if all expected entries match all events |
| `FanotifyMatch.LooseExactly` | original tests/fanotify/fanotify23.c:181-216 | fanotify23 reports no failure if and only if some first part of the expected entries matches all events: missing ones go unnoticed |
| `FanotifyMatch.MissingUnnoticed` | original tests/fanotify/fanotify23.c:181-216 | An instance: of two expected events one arrives; fanotify15 reports one failure, fanotify23 none |
| `FanotifyMatch.AnyMergingPasses` | original tests/fanotify/fanotify15.c:186-270 | However neighbours with disjoint masks are merged into events, both loops accept the result |
| `FanotifyMatch.TwoMerge` | original tests/fanotify/fanotify15.c:186-270 | Any two entries with non-empty disjoint masks and one identity are such a merging |
| `FanotifyMatch.Match15` | original tests/fanotify/fanotify15.c:186-270 | The loop that clears bits in the buffer ends and reports one failure for each entry that meets no event it goes with and one for each event left over |
| `FanotifyMatch.Match23` | original tests/fanotify/fanotify23.c:181-216 | The two loops of fanotify23 end and report one failure for each entry that meets an event without its bits and one for each event left over |
| `FanotifyQueue.FirstRound` | original tests/fanotify/fanotify05.c:86-105 | The queue after i opens of different files, for every limit: the files in order, cut at the limit and followed by one overflow event if it was passed |
| `FanotifyQueue.WhatMayHappen` | original tests/fanotify/fanotify05.c:86-105 | What one open may do to a queue: merging exactly with a pending event of its file, and otherwise an event or an overflow event exactly by the limit |
| `FanotifyQueue.LaterRound` | original tests/fanotify/fanotify05.c:126-129 | Once a bounded queue has overflowed, nothing changes it, however events are merged |
| `FanotifyQueue.LaterRoundUnlimited` | original tests/fanotify/fanotify05.c:126-129 | An unlimited queue keeps what it holds in front and never holds an overflow event |
| `FanotifyQueue.TwoRounds` | original tests/fanotify/fanotify05.c:118-129 | After both rounds, for every limit m and any choice of merging: files 0..m-1 in order and one overflow event; unlimited: the first m+1 in order and no overflow |
| `FanotifyQueue.Group.GenerateEvents` | original tests/fanotify/fanotify05.c:86-105 | The loop makes one round of opens of the files in order |
| `FanotifyQueue.DrainAccepts` | original tests/fanotify/fanotify05.c:131-183 | The drain reports no failure if and only if the first events come in order and the number of overflow events is the one expected |
| `FanotifyQueue.DrainExactly` | original tests/fanotify/fanotify05.c:131-183 | The number of failures is that of the opens out of order among the events read plus that of the overflow events too many or too few |
| `FanotifyQueue.SeenExactly` | original tests/fanotify/fanotify05.c:131-183 | A drain reads the whole queue unless a second overflow event cuts it short |
| `FanotifyQueue.Group.Drain` | original tests/fanotify/fanotify05.c:131-183 | The reading loop ends, reports exactly that many failures and counts exactly the events read |
| `FanotifyQueue.TestFanotify` | original tests/fanotify/fanotify05.c:107-186 | For every limit and every merging, bounded and unlimited, no failure is reported; bounded, exactly m+1 events are counted |
| `KeyQuota.ByOneByte` | original tests/add_key/add_key05.c:101-130 | For every quota the first computed request exceeds the limit by exactly one byte and the second reaches it exactly; the first is the longer |
| `KeyQuota.Admission` | original tests/add_key/add_key05.c:98-125 | A key is refused with EINVAL exactly for a payload length outside 1 to 32767, and added exactly when both quotas have room besides |
| `KeyQuota.DecimalIsNumber` | original tests/add_key/add_key05.c:152-153 | The description ends in the number of the key, in digits without leading zeros |
| `KeyQuota.VerifyMaxBytes` | original tests/add_key/add_key05.c:82-142 | All three passes happen if and only if there is room for the small keys and a last key of 1 to 32767 bytes; then the use equals the limit and the request fits the buffer. In every other case too the report, the lengths computed and the keys added are determined |
| `KeyQuota.VerifyMaxKeys` | original tests/add_key/add_key05.c:144-177 | The loop ends with the used keys at the limit, and one more refused, if and only if the bytes of the keys it adds fit the byte quota; otherwise it stops at the first key that does not fit |
| `KeyQuota.FillingGrows` | original tests/add_key/add_key05.c:152-159 | The bytes the loop needs grow with every key, so the first refusal decides |

## Left out

- The LTP library, real system calls, sockets, signals, timing, mounts and `/proc`: only the kernel state a property needs is kept.
- The many tests that are one call and one errno check, and the scripts (`convert.py`, `misc/`, `brain.py`): they would only add easy members.
- Encoding of instructions as bytes: `lapi/bpf.h` is not part of this model, so slots are symbolic and every macro is read by its name and RFC 9669.
- The in-kernel eBPF verifier, and with it `ensure_ptr_arithmetic`, `bpf_prog06` and `bpf_prog07`: helpers and verifier are not in the repository.
- Machine memory: one array map per program, whose entries are stored whole as double words; storing a pointer on the stack and accesses by byte or half-word are refused, and stack alignment is not checked.
- Errno values of the descriptor table: EBADF, EINVAL and EMFILE are all -1.
- BpfPrograms.WriteBelowMeaning: the refused store ends the run, so the three stores after it are not carried out; what lies before a map entry is not modelled.
- BpfPrograms.Prog03Ends: likewise says nothing of what would follow the refused store.
- BpfPrograms.StoreFarAwayMeaning: the machine bounds each entry on its own; that an offset of eight from entry 0 of a longer map would reach entry 1 is not modelled, and `bpf_prog04` has a map of one entry.
- Eventfd.SelectTests: poll and select are reduced to the three conditions they report; the test of inheritance by a child is left out as easy.
- SemPlayers.Play: processes are scheduled one call at a time; a post that would have to wait for room cannot occur for C int batches.
- Handshake.EveryRun: waking and waiting on a checkpoint is a rendezvous, so time-outs are not modelled; bytes are copied one at a time on values.
- VectoredCopy.ReadV: works on sequences of pieces rather than on memory shared by address, so overlap of local and remote pieces is not modelled.
- CopyFileRange.Files.TestOne: asks for a source that holds the bytes requested, the case `LoopEndsIff` shows to be the one that ends; a call that returns -1 is not modelled.
- CopyFileRange.CopyFileRangeVerify: asks for a page of at least two bytes, so that none of the four lengths is zero; the cross-filesystem set-up is left out.
- FallocateTests.RunFallocate06: how much a filesystem with copy-on-write wants besides, and what it has left, are arbitrary numbers; a failure is always ENOSPC.
- FallocateTests.OpenFile.Test01: refusals for lack of support by the filesystem or kernel version are left out.
- BlockAllocator.Volume.FillFs: other files only take blocks, and blocks for metadata are not counted.
- FdTable.Fcntl01: the flag and lock blocks after `fcntl01.c:95` are left out.
- FdTable.Dup205: one pass; that repeated passes lose descriptor 0 is shown on `dup06`, whose clean-up has the same form.
- FanotifyBuffer.GetEventInfo: needs records that tile the event; a record of length zero, on which the loop would not move, does not occur in such an event.
- FanotifyBuffer.Reader.CountEvents: what `verify_event` compares is left out; its verdicts are arbitrary.
- FanotifyMatch.Match15: descriptor, process, handle and filesystem comparisons are one comparison of an identity; more events than the expected array has room for are not modelled.
- FanotifyQueue.Group.Drain: events of other kinds and overflow events that carry a descriptor do not occur in the queue.
- KeyQuota.VerifyMaxKeys: the `int` counters do not wrap, and keys are not freed between the two tests.
- Widths of `int` and `size_t` counters in the tests: unbounded, except where the width is the point (eventfd counter, eBPF registers, record and event lengths, bytes).
