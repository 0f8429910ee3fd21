# Verified models of risu

risu runs a random test image on two machines at once and compares them after every step. This project models
the parts of it whose correctness is not obvious and proves what they are for:

- **The lockstep protocol** (`WireHeader`, `Protocol`, `Lockstep`, `Interleaving`, `LostBlock`, `LiveRun`, `Traces`,
  `Replay`, `Handlers`, `HeaderChecks`). Master and apprentice are state machines cut at the points where the C code
  blocks, joined by two FIFO channels or fed from a recorded tape. The verdict is proved correct over every
  interleaving, replay is proved equal to the live run, and the handlers, as objects that update their globals, are
  proved to take exactly these steps. The processor, the register image and the comparison are parameters.
- **Framing** (`Framing`). Length-prefixed packets over a stream cut into arbitrary short reads and writes.
- **Option parsing** (`Options`, `Getopt`, `GetoptMarks`, `GetoptScanner`, `GetoptAgain`, `CommandLine`). GNU getopt,
  which permutes `argv` in place between calls, is proved to produce a stable partition of the command line in each of
  its three orderings, and to report exactly what was written on it.
- **The shell loop** (`ArgcArgv`, `Spelling`, `Scripts`). A tokenizer of two passes over one buffer that is overwritten
  while it is read, and scripts that source each other.
- **The PowerPC comparison** (`Powers`, `Ieee`, `Reginfo`, `FpRules`, `FpOptions`, `Comparer`, `Tolerance`,
  `RegisterBits`, `RegisterFiles`, `PpcRuns`). A comparison that overwrites tolerated differences as it goes, the
  IEEE 754 bit arithmetic its rules use, and the context update. The comparison is stated for an arbitrary list of
  floating-point rules; the list of the code, 73 rules, is one. Put into the protocol, it says what the result of a
  whole PowerPC run means.
- **The ARM image generator** (`Modular`, `ArmMachine`, `ArmAddressing`, `ArmGenerator`, `ArmExec`, `ArmPieces`,
  `ArmTables`, `ArmSetup`, `ArmImage`, `ArmAccesses`, `ArmReports`, `ArmEmitter`). Emitted code is abstract
  instructions in an image of halfword cells; an interpreter gets stuck on executing data, on a wrong mode, on
  misalignment, on reading outside a table and on an access outside the memory block. Whole images are proved to run
  to their end, what they report is stated report by report and proved not to depend on where they lie, and every
  access is proved to be aligned. The emitters, with their loops and mode tracking, are proved to write exactly these
  images.
- **The PowerPC branch harness** (`BranchHarness`, `BranchRuns`, `BranchEmitter`). Code around a branch under test.
- **Instruction patterns** (`Pattern`, `PatternText`, `InsnFields`, `InsnDraw`). Reading and compiling bit fields,
  generating words, drawing them until one is allowed, and changing fields.

Random numbers are parameters: every theorem holds for every value a draw can have. Results of system calls, the
interleaving of the two processes and the behaviour of instructions under test are parameters too.

Where the code does not do what it is for, the code is modelled as it is and the exact condition is proved: the
payload length on a host of the other byte order (`WireHeader.PayloadLengthRight`), the unadvanced base pointer of
short writes (`Framing.WritevExactness`), a COMPAREMEM without a block (`LiveRun.VerdictCorrect`), calls of getopt
after EOF (`GetoptAgain.EndIsFinal`), the mode character that later calls do not skip (`Options.ModeCharacterShows`),
scripts that source each other (`Scripts.EndsIff`), the absolute value of the smallest integer (`Ieee.NearMeans`,
`Tolerance.SignFlipIsRounding`), `ctz` (`Powers.CtzExact`), large immediates (`ArmAddressing.MovRiExact`,
`BranchHarness.MovRiExact`), equal base and index registers (`ArmAddressing.IndexMustDiffer`), displacement zero and
the inclusive filler draw (`BranchRuns.OnlyZeroLoops`, `BranchRuns.HarnessRuns`), fixed values too wide for their
length (`Pattern.ReadBackIffFit`) and the unmasked condition (`InsnDraw.CandidateMeans`).

`dafny verify dfyconfig.toml` checks the project.

## Model

| member | source | states |
|---|---|---|
| `WireHeader.HeaderRoundTrip` | risu.c:82-109 | a header with the right magic is read back unchanged for every byte order of writer and reader, with 4- and 8-byte program counters |
| `WireHeader.SwapTwice` | risu.c:82-90 | swapping the bytes of a field twice gives the field back |
| `WireHeader.PayloadLengthRight` | risu.c:209-215 | a payload, register image or memory block, is sent at its announced length if and only if the sender's own byte order is the target's or the length reads the same backwards, because the length is read after the header was swapped |
| `WireHeader.LengthNeedsNativeOrder` | risu.c:209-215 | for every length from 1 byte to 64 KiB, the memory block's among them, only the byte order decides |
| `HeaderChecks.DecodeMeans` | risu.c:82-109 | a header is read in the order in which its first four bytes spell the magic number, whatever the reader's own order, and bytes that spell it in neither order, and only those, have a wrong magic number |
| `HeaderChecks.BadMagicIff` | risu.c:279-282 | RES_BAD_MAGIC exactly if the first four bytes are not R, I, S, U forwards or backwards |
| `HeaderChecks.HeaderVerdict` | risu.c:284-316 | for all bytes, by the numbers at offsets 4 and 8: ops 0, 1 and -1 with a size that fits are acknowledged and otherwise a bad header size; op 4 needs size 8192; ops 2, 3, 5 and 6 need size 0; every other op is bad |
| `HeaderChecks.SentHeader` | risu.c:181-210 | the bytes the master sends: magic number, size, op number and program counter at their offsets |
| `Lockstep.DecideVerdict` | risu.c:338-409 | comparing one received trap with the own one gives the result the reference verdict prescribes, logs it once, answers once, and updates the context on an accepted COMPARE |
| `Lockstep.ServeOk` | risu.c:319-410 | one answered trap keeps the apprentice's history in agreement with the master's: results, setup flag, memory block and counters |
| `LostBlock.AnyRunKeeps` | risu.c:166-244 | every interleaving, for every image, keeps one of two invariants: the two sides are in step, or the apprentice waits for a block that was announced and not sent, or has taken the next header for it |
| `LostBlock.ForeignHostLosesStep` | risu.c:209-219 | the apprentice of a master on a host of the other byte order understands its header and stops with an I/O error at its payload, whatever the bytes are |
| `LiveRun.VerdictCorrect` | risu.c:319-410 | for every image and interleaving, when the apprentice stops all traps but the last agreed; its result is an I/O error if and only if the master compared a memory block it never set, and otherwise the verdict on the last pair; it is RES_END exactly when every trap agreed and the last is TESTEND. Which memories are compared is `Traces.MemoryVerdict` |
| `LiveRun.RunningMeansAgreed` | risu.c:338-391 | as long as the apprentice runs, every trap compared so far agreed |
| `LiveRun.OneReplyPerPacket` | risu.c:292-312 | every data packet, well formed or not, is answered by exactly one byte on every path |
| `LiveRun.NoDeadlock` | risu.c:209-244 | in every reachable state either both sides have stopped with empty channels or some side can move; a stopped apprentice stops the master in the exchange compared last, or in the one whose header was taken for a block |
| `LiveRun.QuiescentAgreement` | risu.c:166-179 | whenever nothing is in flight, with the apprentice running or already waiting for a header, the two setup flags and memory-block states agree and so do signals minus illegal instructions, although silently skipped setup SIGILLs may differ |
| `LiveRun.AcceptedCompareUpdates` | risu.c:347-361 | in every run, each accepted COMPARE, in setup or not, leaves the apprentice's context updated from the master's reported registers |
| `Traces.HistoriesTrue` | risu.c:166-409 | over every run both histories are what the processors did: each trap was taken in the context left by the one before, resumed past skipped illegal instructions, and is recorded with its own registers, memory, setup flag, signal count and the context it leaves |
| `Traces.BlockMeans` | risu.c:228-231 | the memory block in force is the parameter of the last SETMEMBLOCK before |
| `Traces.FlagMeans` | risu.c:236-239 | the setup flag is set exactly if a SETUPBEGIN lies behind with no SETUPEND since |
| `Traces.MemoryRecorded` | risu.c:364-391 | in every run, on both sides, the memory of a trap is the one at the parameter of the last SETMEMBLOCK, read in the context of the trap; without one there is none |
| `Traces.AddressAdded` | risu.c:373-380 | in every run an accepted GETMEMBLOCK leaves the parameter register raised by the parameter of the last SETMEMBLOCK |
| `Traces.MemoryVerdict` | risu.c:382-391 | over every run a passed COMPAREMEM compared equal memories at the blocks set last, and the run stops with a memory mismatch exactly if its last trap is a COMPAREMEM on both sides and these memories differ |
| `Replay.PlaybackCorrect` | risu.c:113-164 | playing back a complete recording whose compared blocks were set never reads past its end, and every result is the verdict on the recorded and the replayed trap |
| `Replay.ReplayEqualsLive` | risu.c:269-317 | a live apprentice and a player of the same master's recording that have both stopped are in the same state: result, history, counters, context |
| `Replay.PlaybackCatchesUp` | risu.c:412-433 | wherever a live run stops, playback of the recording stops too, and in the same state |
| `Handlers.MasterProcess.Report` | risu.c:209-219 | header and payload are written in order, the payload only after the header was accepted, and only the answers to what was written are taken |
| `Handlers.MasterProcess.CarryOut` | risu.c:221-243 | the effect of an accepted trap on block, parameter register and setup flag |
| `Handlers.MasterProcess.MasterSigill` | risu.c:166-267 | the handler changes the master's globals and output exactly as the master's steps do, for all answers, reading a second answer only after an accepted header with a payload |
| `Handlers.RecordingServes` | risu.c:136-157 | recording to a file is the master that is never refused, and the bytes it writes for a trap are those of the tape of the playback theorems |
| `Handlers.RecordingIsTape` | risu.c:136-157 | after any number of handled traps the file holds exactly the tape of everything reported |
| `Handlers.ReplayingIsPlayback` | risu.c:113-134 | calling the apprentice's handler again and again on a trace file is playback of that file |
| `Handlers.RecordedReplaysLive` | risu.c:541-640 | the handlers replaying what the handlers recorded leave the apprentice in the state in which it leaves a live run |
| `Handlers.ApprenticeProcess.RecvRegisterInfo` | risu.c:269-317 | the header checks, the intermediate answer and the payload read are the apprentice's two receive steps; a second packet is needed only after an acknowledged header |
| `Handlers.ApprenticeProcess.CompareRegisters` | risu.c:339-362 | the part of the switch for COMPARE, TESTEND and SIGILL gives the result and the context of the specification |
| `Handlers.ApprenticeProcess.CompareSwitch` | risu.c:338-404 | the whole comparison switch, updating block, setup flag and context case by case, gives the result and the effects of the specification, and changes nothing when it rejects |
| `Handlers.ApprenticeProcess.CompareAndAnswer` | risu.c:338-409 | the switch, unless the packets were already rejected, and the answer are the apprentice's decision step |
| `Handlers.ApprenticeProcess.ApprenticeSigill` | risu.c:319-433 | the handler changes the apprentice's globals, input and answers exactly as the apprentice's steps do, on socket and tape |
| `Framing.Socket.RecvBytes` | comms.c:101-116 | for every sequence of short reads, exactly the next n bytes are returned, or the stream ended first |
| `Framing.Socket.RecvAndDiscardBytes` | comms.c:118-138 | exactly n bytes are consumed through a 64-byte buffer |
| `Framing.Socket.RecvDataPkt` | comms.c:204-218 | a packet of the expected length is returned whole; one of another length is consumed whole |
| `Framing.TakeFramed` | comms.c:204-218 | what was framed is what is taken, and the stream is left at the next packet |
| `Framing.FrameBytes` | comms.c:185-190 | a packet goes out behind its length, most significant byte first |
| `Framing.FramingKeepsStep` | comms.c:176-218 | over any conversation each expected length meets its own packet: a wrong length costs that packet only |
| `Framing.WritevCount` | comms.c:141-166 | the number of bytes sent is the total, whatever the short writes |
| `Framing.WritevExactness` | comms.c:155-164 | all contents arrive intact if and only if every short write ends between two blocks, because the base pointer is not advanced |
| `Framing.DirtyCorrupts` | comms.c:155-164 | a short write inside a block has a content that arrives corrupted |
| `Framing.SafeWritev` | comms.c:141-166 | the loop over the I/O vector delivers the specified bytes and returns their number |
| `Framing.SendIsFramed` | comms.c:176-195 | a packet whose writes end on block boundaries reaches the wire as one frame |
| `Options.LookupNames` | compat/getopt.c:464-563 | the table scan finds the first exact match if there is one, else the only prefix match, else reports ambiguity or absence |
| `Options.PartitionIsStable` | compat/getopt.c:381-450 | in all three orderings the two parts of the command line are order-preserving selections by one marking of its elements |
| `Options.OrderKept` | compat/getopt.c:432-444 | outside PERMUTE nothing moves: the two parts are a front and a back of the command line |
| `Options.ModeCharacterShows` | compat/getopt.c:365-372 | when the mode character, which only the first call skips, changes the reading of a short option: another letter exactly if its argument is missing and the letters begin with a colon; the mode character itself unless it is still refused for a missing argument, or, if it is a letter too, is read alike in both places |
| `Options.ModeCharacterShowsLong` | compat/getopt.c:526-529 | it changes the reading of a long option exactly if a required argument is missing and the letters begin with a colon |
| `Options.PlusBecomesLetter` | compat/getopt.c:567-580 | with the letters +ab a later call takes a plus sign for an option |
| `Options.PartitionConserves` | compat/getopt.c:252-289 | the two parts together are a rearrangement of the command line |
| `Options.ClusterTakesNext` | compat/getopt.c:567-634 | a cluster of short options takes the next element exactly when its last letter requires an argument and no earlier letter takes the rest |
| `Getopt.CallKeeps` | compat/getopt.c:347-636 | in all three orderings each call keeps the parts and the events the whole run will produce, and every call but the last reads something: unread elements and text decrease |
| `Getopt.WholeIsPartition` | compat/getopt.c:347-636 | a whole run without a mode character gives the partition and the events of the command line, in all three orderings |
| `GetoptScanner.MyStrncmp` | compat/getopt.c:201-211 | zero exactly when the first n characters of the text begin the name |
| `GetoptScanner.LookupLong` | compat/getopt.c:464-483 | the loop with early exit computes the lookup |
| `GetoptScanner.Scanner.Exchange` | compat/getopt.c:252-289 | the three in-place loops do what the exchange of the marks says, for all marks that stay inside the vector |
| `GetoptMarks.ThreeReversals` | compat/getopt.c:252-289 | reversing a range and then its two parts is a block swap |
| `GetoptMarks.ExchangedInOrder` | compat/getopt.c:252-289 | while the marks stand in order the exchange is the block swap, with the marks relocated |
| `GetoptMarks.RegroupedInOrder` | compat/getopt.c:379-402 | for marks in order, moving processed options before skipped non-options does not change the abstract scan, and exactly the leading non-options are then passed over |
| `GetoptMarks.CallInOrder` | compat/getopt.c:347-636 | for marks in order a call is a call of the abstract scan, keeps the marks in order, and at the end leaves the options in front |
| `GetoptScanner.Scanner.Regroup` | compat/getopt.c:379-402 | the exchange and the skipping loop do what the regrouping of the marks says |
| `GetoptScanner.Scanner.Locate` | compat/getopt.c:404-444 | the terminator, the end and the three orderings are told apart as specified |
| `GetoptScanner.Scanner.ReadLongName` | compat/getopt.c:464-563 | a long option is read as specified: inline, separate, forbidden and missing arguments, flags, errors; what that means on a command line is `CommandLine.LongReads` |
| `GetoptScanner.Scanner.ReadLetter` | compat/getopt.c:567-634 | a short option is read as specified: clusters, optional and required arguments, errors |
| `GetoptScanner.Scanner.Next` | compat/getopt.c:347-636 | between calls, one call returns what the abstract call returns, in all three orderings, and keeps the invariant; every later call, also one after the end, does exactly what its marks say, as long as it stays inside the vector |
| `GetoptScanner.Scanner.ParseAll` | risu.c:789-794 | in all three orderings, calling until EOF leaves argv as program name, options with their arguments in order, then the rest in order, with optind at the first of the rest, and has reported every option in order |
| `GetoptAgain.EndIsFinal` | compat/getopt.c:379-444 | a call after EOF reports EOF again and leaves argv and optind alone if and only if nothing is left, or only a second terminator, or under REQUIRE_ORDER a non-option comes first; it leaves the vector exactly if more elements are left than stand in front of them (one more outside PERMUTE, and only behind a second terminator); and it reports an element, the first one ahead, exactly if that is no terminator and the ordering does not stop at it |
| `GetoptAgain.ThreeOperandsLeaveVector` | compat/getopt.c:379-444 | a command line of three operands and nothing else is one whose second EOF call leaves the vector |
| `GetoptAgain.SecondEnd` | compat/getopt.c:379-444 | the same condition on the command line itself, through its partition |
| `CommandLine.SaysDemand` | compat/getopt.c:567-634 | what the option letters say of a character: by the colons behind its first place, and nothing for a colon or a character that is not there |
| `CommandLine.LongReads` | compat/getopt.c:464-563 | every name that stands for one option: with a value behind = it reports exactly that value, or is refused if the option takes none; alone it takes the next element, nothing, or reports a missing argument; the code is 0 for a flag and the value otherwise, with the place in the table |
| `CommandLine.LongItemReads` | compat/getopt.c:464-563 | the same for the whole element with its dashes, unknown and ambiguous names included |
| `CommandLine.ShortItemReads` | compat/getopt.c:567-634 | a cluster reports its letters one by one, refused ones included, and the argument of its last letter from the same element, from the next, or not at all |
| `CommandLine.CommandLineReads` | compat/getopt.c:347-636 | for every list of options, written in any accepted form or wrongly, with operands between them and anything behind a terminator, and in all three orderings: exactly the options with their arguments are taken, exactly the operands are left, each in order, and exactly what was written is reported |
| `CommandLine.RunReads` | compat/getopt.c:347-636 | the same for a whole run of calls |
| `CommandLine.MissingLong` | compat/getopt.c:519-530 | a required argument missing at the end is reported as a colon if the letters begin with one, and as 0 otherwise |
| `CommandLine.MissingShort` | compat/getopt.c:602-631 | the same for a letter |
| `CommandLine.OrderingShows` | compat/getopt.c:359-380 | an operand in front of an option is reported if the option string begins with a dash, ends the scan if it begins with a plus or POSIXLY_CORRECT is set, and is passed over otherwise |
| `CommandLine.PortExample` | compat/getopt.c:498-501 | `--port=9191` reports 9191 |
| `ArgcArgv.TypedLineReads` | risu_main.c:44-113 | every list of words, whatever they contain, can be typed so that the tokenizer reads exactly it |
| `Spelling.QuotedReads` | risu_main.c:56-77 | for both quote characters, a quoted stretch gives exactly its text and reading goes on behind the closing quote |
| `Spelling.UnclosedReads` | risu_main.c:56-77 | without a closing quote the stretch is the rest of the text |
| `Spelling.WordReads` | risu_main.c:55-103 | every mixture of plain, escaped and quoted stretches gives exactly the characters meant, with t, n and r as tab, newline and return, and the word ends at a blank, at a newline or at the end |
| `Spelling.LineReads` | risu_main.c:44-113 | every line of such words, with any blanks before, between and behind them, reads as exactly these words and ends behind its newline, which may follow a word directly |
| `Spelling.QuotedExample` | risu_main.c:56-77 | a quoted pair of letters with a blank between them is one word |
| `ArgcArgv.WordsNoNul` | risu_main.c:44-113 | no word of a text without terminator contains one |
| `ArgcArgv.TakeWord` | risu_main.c:52-112 | one word is counted or laid out behind the earlier ones; unread text is not overwritten |
| `ArgcArgv.Pass` | risu_main.c:41-113 | counting pass and writing pass see the same words and stop at the same place |
| `ArgcArgv.Split` | risu_main.c:25-122 | argv[k] is the C string of word k of the pure tokenizer on the original text, the rest of the buffer is untouched, and the end of the line is returned |
| `ArgcArgv.Eval` | risu_main.c:127-193 | each line is consumed once, in order, up to the end or the exit command, with sourced scripts evaluated in place |
| `ArgcArgv.DepthSuffices` | risu_main.c:149-178 | the nesting bound is only a bound: every depth that suffices gives the same commands |
| `Scripts.DeepIffChain` | risu_main.c:149-178 | scripts nest deeper than a depth exactly if there is a longer chain of source lines, each reached before any exit |
| `Scripts.EndsIff` | risu_main.c:127-193 | evaluation ends if and only if no chain of reached source lines comes to the same script twice, if and only if no chain is longer than the number of files, and then that depth suffices |
| `Scripts.SelfSourceDiverges` | risu_main.c:149-178 | a script that reaches a line sourcing itself does not come back |
| `Scripts.MutualSourceDiverges` | risu_main.c:149-178 | nor do two scripts that reach lines sourcing each other |
| `Scripts.RunSplits` | risu_main.c:127-193 | lines without an exit are run before the lines behind them |
| `Scripts.ExitStops` | risu_main.c:145-148 | an exit is the last line that is run |
| `Scripts.LineRuns` | risu_main.c:137-144 | a line without words is not run, and one that sources nothing is run alone |
| `Scripts.SourceRuns` | risu_main.c:149-178 | a source line is run and then the file's text up to its first terminator, where an exit ends that text only |
| `Ieee.Exponent` | risu_reginfo_ppc64.c:517-528 | the shift loop computes the specified exponent |
| `Ieee.TinyExponent` | risu_reginfo_ppc64.c:517-528 | the exponent is below -1022 exactly for zeros and denormals |
| `Ieee.ExponentMonotone` | risu_reginfo_ppc64.c:517-528 | the exponent is monotone in the magnitude over all bit patterns |
| `Ieee.ExponentMeaning` | risu_reginfo_ppc64.c:517-528 | the exponent is exact for normal numbers and one too small for denormals |
| `Ieee.NearMeans` | risu_reginfo_ppc64.c:513-515 | the signed distance test also lets patterns through that differ in the sign bit only, whatever the tolerance; the unsigned test does not |
| `Ieee.Normalize` | risu_reginfo_ppc64.c:534-542 | the shift loop computes the specified rescaling |
| `Ieee.NormalizeExact` | risu_reginfo_ppc64.c:534-542 | a denormal becomes a normal number of the same sign worth exactly 2^1536 times as much; other patterns are unchanged |
| `Comparer.IsEqAccepts` | risu_reginfo_ppc64.c:545-1671 | the comparison that rewrites as it goes accepts exactly what a plain test on the original registers accepts, and then leaves the master's values in every compared register; `RegisterBits.IsEqMeans` says which those are |
| `Comparer.IsEqIdempotent` | risu_reginfo_ppc64.c:545-1671 | after acceptance a second comparison accepts and changes nothing |
| `Comparer.RejectionIsReported` | risu_reginfo_ppc64.c:1728-1779 | after a rejection the dump of the half-rewritten pair has at least one line |
| `RegisterBits.DumpMeans` | risu_reginfo_ppc64.c:1728-1779 | the dump names exactly the registers that differ, the link register relative to the program counter, each once and in order |
| `Comparer.IsEqMonotone` | risu_reginfo_ppc64.c:545-1650 | clearing mask bits and adding tolerance bits never turns acceptance into rejection, for every list of tolerance rules |
| `Reginfo.McrfsMaskMonotone` | risu_reginfo_ppc64.c:617-650 | moving mask fields between condition and status register is monotone in both masks |
| `Tolerance.PpcConfined` | risu_reginfo_ppc64.c:694-1650 | each of the 73 floating-point rules excuses only a target of the last two instructions, a pair of quiet NaNs or a pair of zeros |
| `Tolerance.AcceptanceConfines` | risu_reginfo_ppc64.c:694-1650 | for any list of confined rules, an accepted comparison cannot hide a difference in a selected floating register that the last two instructions did not write, except between quiet NaNs or between zeros |
| `Tolerance.PpcAcceptanceConfines` | risu_reginfo_ppc64.c:694-1650 | the same for the list of the code |
| `Tolerance.SignFlipIsRounding` | risu_reginfo_ppc64.c:1427-1509 | a result that differs in nothing but the sign is excused by one of the five rounding clauses exactly after a double-precision operation, after fres or frsqrte, or after fadds or fsubs with tiny operands and a tiny result |
| `Tolerance.FlippedReciprocal` | risu_reginfo_ppc64.c:1443-1453 | fres f1,f2 with 1.0 on one side and -1.0 on the other passes as rounding |
| `Tolerance.GregConfined` | risu_reginfo_ppc64.c:564-599 | a general register is excused only as the target of the last instruction, or as the one register in which the string of a load before it ended, four bytes a register from the target on and around from 31 to 0, and then only if the bytes of the string in it agree |
| `Tolerance.StringMeans` | risu_reginfo_ppc64.c:588-593 | the masks and shifts of the string clause mean: the register in which the string of a load ended, with the bytes of the string in it equal |
| `Reginfo.OverflowMeans` | risu_reginfo_ppc64.c:574-588 | the test on the high half of the quotient finds exactly the quotients outside 32-bit integers |
| `RegisterBits.MaskedMeans` | risu_reginfo_ppc64.c:601-692 | two registers are equal under a mask exactly if every bit that is set in the mask is the same |
| `RegisterBits.LocalMeans` | risu_reginfo_ppc64.c:547-557 | general register i is compared exactly if bit 31-i of the mask is set and it is not the target of an addi or subf behind an illegal instruction |
| `RegisterBits.FieldsBack` | risu_reginfo_ppc64.c:558-562 | the register fields are read back from every word put together from them |
| `RegisterBits.MinusBack` | risu_reginfo_ppc64.c:609-611 | addresses are compared by their distance modulo 2^32 from the program counter |
| `RegisterBits.DivMeans` | risu_reginfo_ppc64.c:574-588 | a quotient is undefined exactly if the target is an operand, the divisor is 0 or the truncated quotient is outside 32-bit integers |
| `RegisterBits.QuotientTruncates` | risu_reginfo_ppc64.c:574-588 | the quotient is truncated: what is left over is smaller than the divisor and has the dividend's sign |
| `RegisterBits.GregMeans` | risu_reginfo_ppc64.c:564-599 | a difference in a general register is let pass exactly as the target of mflr, equal relative to the program counter; of a div or divs with an undefined quotient; or as the tail of a string load |
| `RegisterBits.CcrMeans` | risu_reginfo_ppc64.c:617-650 | bit k of condition field g is compared exactly if its mask bit is set, and in the target field of a comparison or of mcrfs also the mask bit it is copied from, and it is not one of the three bits an undefined recording div leaves |
| `RegisterBits.MqMeans` | risu_reginfo_ppc64.c:652-684 | a difference in the quotient register is let pass exactly after an undefined div, on a 601 after a multiplication or division, and at the first signal |
| `RegisterBits.IsEqMeans` | risu_reginfo_ppc64.c:545-1671 | the whole comparison accepts exactly the pairs that are tolerable, by register numbers and bits and without the masks the code computes |
| `RegisterBits.SettledMeans` | risu_reginfo_ppc64.c:545-1671 | an accepted image then holds the master's registers, except the general registers that were not compared and those that depend on addresses |
| `FpOptions.AddForms` | risu_reginfo_ppc64.c:694-1650 | the masks for fadd and fadds match exactly primary opcode 63 or 59 with extended opcode 21 |
| `FpOptions.SubForms` | risu_reginfo_ppc64.c:694-1650 | the same for fsub and fsubs, 20 |
| `FpOptions.DivForms` | risu_reginfo_ppc64.c:694-1650 | the same for fdiv and fdivs, 18 |
| `FpOptions.ProductForms` | risu_reginfo_ppc64.c:694-1650 | the masks for fmul and fmuls match exactly the five-bit opcode 25 with an empty field B |
| `FpOptions.RoundForms` | risu_reginfo_ppc64.c:694-1650 | the mask for frsp matches exactly opcodes 63 and 12 with an empty field A |
| `FpOptions.EstimateForms` | risu_reginfo_ppc64.c:694-1650 | the masks for frsqrte and fres match exactly opcodes 63 and 26, and 59 and 24, with an empty field A |
| `FpOptions.FusedForms` | risu_reginfo_ppc64.c:694-1650 | the masks for the eight fused forms match exactly their opcodes |
| `FpOptions.PpcListed` | risu_reginfo_ppc64.c:694-1650 | per option bit: which of the tests on a pair of floating registers that bit enables, and that all but five of them are confined to the target of the last instruction |
| `FpOptions.PpcTolerated` | risu_reginfo_ppc64.c:694-1650 | a pair of floating registers is excused exactly if some option that is set excuses it |
| `RegisterFiles.CompareGregs` | risu_reginfo_ppc64.c:545-599 | the loop over the general registers, rewriting in place, computes its specification |
| `RegisterFiles.CompareSpecial` | risu_reginfo_ppc64.c:601-692 | the special registers are compared and rewritten in the order of the code |
| `RegisterFiles.CompareFloats` | risu_reginfo_ppc64.c:694-1650 | the loop over the floating registers, whose rules see registers already rewritten, computes its specification |
| `RegisterFiles.ReginfoIsEq` | risu_reginfo_ppc64.c:545-1671 | the in-place comparison accepts exactly the tolerable pairs, and the image it then leaves is the master's but for the general registers that were not compared; a rejection leaves a reportable difference |
| `RegisterFiles.Cpu.ReginfoUpdate` | risu_reginfo_ppc64.c:396-451 | the context update writes the special registers, all floating registers and the selected general registers, and nothing else |
| `RegisterFiles.UpdateRestores` | risu_reginfo_ppc64.c:396-451 | after the update the context holds exactly the reported values in every selected register |
| `RegisterFiles.ToleranceDoesNotAccumulate` | risu.c:347-361 | in every run, after each accepted COMPARE the apprentice's CPU holds the master's reported values, whatever was tolerated |
| `PpcRuns.ImageBack` | risu_reginfo_ppc64.h:56-75 | a register image is read back from its bytes |
| `PpcRuns.PpcVerdict` | risu.c:319-410 | a PowerPC run ends well exactly if at every trap both processors saw the same kind of trap, tolerable registers and the same memory, and the last is TESTEND; it reports a register mismatch exactly if the last pair of registers is not tolerable; all traps before agreed |
| `PpcRuns.PpcEndConfines` | risu_reginfo_ppc64.c:545-1671 | when a PowerPC run has ended well, no trap of it hides a difference in a selected floating register, except in targets of the last two instructions, between quiet NaNs or between zeros |
| `PpcRuns.EndGregs` | risu_reginfo_ppc64.c:547-599 | when a PowerPC run has ended well, every selected general register was equal at every trap, or was the target of an addi or subf behind an illegal instruction, or differed in one of the four tolerated ways |
| `PpcRuns.TrapMeans` | risu_ppc64.c:81-88 | the trap words are 0x5AF0 to 0x5AF6, in the order of the ops; every other word is illegal |
| `PpcRuns.PpcAddress` | risu_ppc64.c:60-79 | in every PowerPC run an accepted GETMEMBLOCK leaves in r0 what was there plus what r0 held at the last SETMEMBLOCK, modulo 2^32, and changes nothing else |
| `PpcRuns.PpcRestores` | risu_reginfo_ppc64.c:396-451 | in every PowerPC run the context after each accepted COMPARE is the reported one |
| `ArmAddressing.MovRiRuns` | risugen_arm.pm:279-300 | the one or two instructions load the specified value |
| `ArmAddressing.MovRiExact` | risugen_arm.pm:279-300 | the value is the immediate for all 64-bit integers on ARM, and on A64 if and only if it lies in [-2^32, 2^32) |
| `ArmAddressing.OffsetInRange` | risugen_arm.pm:749-759 | offsets are aligned and lie in [256, 1791] |
| `ArmAddressing.PrologueHits` | risugen_arm.pm:770-816 | for all registers the prologue makes the effective address block plus offset, if and only if the immediate can be loaded |
| `ArmAddressing.IndexMustDiffer` | risugen_arm.pm:904-942 | the prologue works for all register contents if and only if index and base are different registers |
| `ArmAddressing.CleanupRuns` | risugen_arm.pm:1066-1071 | the cleanup subtracts the block's address from the base register and clears r0 |
| `ArmAddressing.AccessIsRelative` | risugen_arm.pm:1005-1074 | prologue, access with any write-back and load targets, and cleanup never fault and leave a state in which the block's address does not occur |
| `ArmAddressing.LocationIndependence` | risugen_arm.pm:1055-1074 | two runs with the block at different addresses end with the same registers, block contents and status |
| `ArmPieces.ToThumbRuns` | risugen_arm.pm:121-134 | the switch enters Thumb at the next emitted instruction and leaves nothing of the address in r0 |
| `ArmPieces.ToArmRuns` | risugen_arm.pm:136-145 | the aligned switch leaves Thumb just past its padding and changes no register |
| `ArmPieces.ItemExec` | risugen_arm.pm:950-1077 | an instruction under test with its surroundings does what the address-free reference says and reports at fixed offsets |
| `ArmTables.WithDataRuns` | risugen_arm.pm:653-665 | a forward jump lands just past its inline data |
| `ArmTables.ArmRegdataRuns` | risugen_arm.pm:472-505 | the table loads read exactly the table, with and without floating point, and leave the specified registers |
| `ArmSetup.A64FloatsRuns` | risugen_arm.pm:507-536 | the aligned vector loads stay inside the inline data for every load address |
| `ArmSetup.A64RegdataRuns` | risugen_arm.pm:574-593 | all 31 registers hold the table values afterwards |
| `ArmSetup.MemblockRuns` | risugen_arm.pm:667-692 | the announced 8 KiB block is 64-byte aligned and inside the inline data |
| `ArmSetup.FpscrRuns` | risugen_arm.pm:694-725 | the status registers are loaded with the requested value |
| `ArmImage.ImageRuns` | risugen_arm.pm:1079-1147 | for every program, load address and initial registers the image runs to TESTEND without executing data, in the right mode and alignment throughout, and reports a function of program and load address modulo 64 |
| `ArmImage.ReportsDoNotDependOnPlace` | risugen_arm.pm:1079-1147 | two processors that agree on the instructions report the same registers, memory and offsets wherever the image is loaded, if the addresses are equal modulo 64, as page-aligned ones are |
| `ArmAccesses.AccessesAligned` | risugen_arm.pm:1005-1022 | in every run of every image an access about to execute is that of the item it was emitted for, and its effective address is a multiple of 16 on A64 and of 4 otherwise, or of the alignment the item asks for, 256 bytes clear of both ends of the first 2 KiB of the block |
| `ArmAccesses.EveryAccessRuns` | risugen_arm.pm:1003-1053 | every item that accesses memory comes to its access |
| `ArmReports.ReportsMean` | risugen_arm.pm:1079-1147 | what risu sees of every run, report by report: the register data; for each instruction its effect on the state reported last, memory first if it accessed any, at the drawn position rounded down to the alignment; fresh register data after every hundredth; the end of the test |
| `ArmEmitter.Emitter.WriteSwitchToThumb` | risugen_arm.pm:121-134 | emits the switch and tracks the mode |
| `ArmEmitter.Emitter.WriteSwitchToArm` | risugen_arm.pm:136-145 | emits alignment and switch and tracks the mode |
| `Powers.PowOf2Test` | risugen_common.pm:196-200 | the bit test finds exactly the powers of two, for all integers |
| `Powers.Ctz` | risugen_common.pm:211-223 | the loop counts the halvings down to 1 |
| `Powers.CtzExact` | risugen_common.pm:211-223 | that is the number of trailing zeros if and only if the number is a power of two, and never less |
| `ArmEmitter.Emitter.Align` | risugen_arm.pm:739-746 | the bit test and the bound accept exactly 1, 2, 4, 8, 16, 32 and 64, and only those change the restriction |
| `ArmEmitter.Emitter.WriteMovRi` | risugen_arm.pm:279-300 | emits the constant load |
| `ArmEmitter.Emitter.WriteGetOffset` | risugen_arm.pm:749-759 | emits the load of an aligned block address into r0 |
| `ArmEmitter.Emitter.Reg` | risugen_arm.pm:770-784 | emits the prologue for a plain base register and returns the base, or -1 if trashed |
| `ArmEmitter.Emitter.RegPlusImm` | risugen_arm.pm:786-816 | emits the prologue for base plus immediate, with r1 borrowed for base r0 |
| `ArmEmitter.Emitter.RegPlusRegShifted` | risugen_arm.pm:904-942 | emits the prologue for base plus shifted index, with an index in r0 parked; stops exactly on a shift the architecture lacks |
| `ArmEmitter.Emitter.GenOneInsn` | risugen_arm.pm:1003-1075 | emits prologue, instruction, cleanup and comparisons for a drawn instruction; stops exactly on a bad alignment or shift; the alignment of the access is `ArmAccesses.AccessesAligned` |
| `ArmEmitter.Emitter.WriteMemblockSetup` | risugen_arm.pm:667-692 | emits the setup of the memory block |
| `ArmEmitter.Emitter.WriteRandomRegisterData` | risugen_arm.pm:595-606 | emits the register tables and the comparison after them |
| `ArmEmitter.Emitter.WriteTestCode` | risugen_arm.pm:1079-1147 | the emission loop writes exactly the image of the program, with fresh register data after every hundredth instruction |
| `BranchHarness.MovRiExtends` | risugen_ppc64.pm:92-108 | the value loaded is the low 32 bits of the constant, sign extended |
| `BranchHarness.MovRiExact` | risugen_ppc64.pm:92-108 | every constant is loaded exactly on 32-bit registers, and on 64-bit registers, among the signed 64-bit numbers, exactly those in [-2^31, 2^31) |
| `BranchEmitter.ExtendedKeeps` | risugen_ppc64.pm:338-343 | a displacement that fits its field is sign extended to itself, given as a signed number or as the unsigned field of the word |
| `BranchEmitter.Output.BranchPre` | risugen_ppc64.pm:334-421 | the emission loops write the code before the branch |
| `BranchEmitter.Output.BranchPost` | risugen_ppc64.pm:423-460 | the emission loops write the code after the branch |
| `BranchEmitter.Output.WriteHarness` | risugen_ppc64.pm:334-460 | together they write the harness of the theorems, the first half given the signed displacement and the second the field read back from the word |
| `BranchRuns.SetupRuns` | risugen_ppc64.pm:345-390 | the target register holds the address of the target cell, computed from the code's own place |
| `BranchRuns.HarnessRuns` | risugen_ppc64.pm:334-460 | for every displacement but 0, every draw and every behaviour of the branch, direct or through LR or CTR, control leaves at the end; the branch has run once, or not at all exactly when the filler is as long as the displacement |
| `BranchRuns.BranchMeets` | risugen_ppc64.pm:345-418 | every run whose branch is not jumped over comes to it with the drawn condition register, the drawn count less one unless CTR is the target, and a target that is the displacement away |
| `BranchRuns.FillersTell` | risugen_ppc64.pm:403-441 | the registers left tell what happened: r7 a forward branch not taken, r3 a backward branch taken, r6 that it ran, r4 the extra fillers |
| `BranchRuns.HarnessIsRelative` | risugen_ppc64.pm:446-459 | two runs with the code at different addresses leave the same registers and counter and the same program-relative link register |
| `BranchRuns.LinkedZeroLeaves` | risugen_ppc64.pm:392-418 | with displacement 0 a linking branch to LR leaves, after two visits if it is taken and one if not |
| `BranchRuns.OnlyZeroLoops` | risugen_ppc64.pm:334-460 | for every kind of branch, control gets out whatever the branch does if and only if the displacement is not 0 or the branch goes to LR and links |
| `PatternText.ClassesDisjoint` | risugen:193-219 | no text matches two of the expressions that tell bit fields apart |
| `PatternText.ReadTokens` | risugen:170-219 | the loop over the texts tells the elements apart as the expressions say, with blocks and their names |
| `PatternText.SpelledReads` | risugen:170-219 | every pattern of fixed bits that fit, named fields and blocks has a text that reads back as it |
| `PatternText.EverySpellingReads` | risugen:170-219 | however its elements are written, in binary or as a number and a length, a name with a length or alone for one bit, a block by itself or behind one of four names, a pattern reads back as them |
| `PatternText.ParseText` | risugen:164-265 | from text to the compiled pattern: exactly the texts whose elements make an accepted pattern are compiled |
| `Pattern.Parse` | risugen:164-265 | the bitfield loop accepts exactly the well-shaped patterns and returns the compiled pattern; every refusal is a refusal of the specification |
| `Pattern.WidthsAccepted` | risugen:249-262 | a pattern whose values fit is accepted exactly if it is 16, 32, 40, 48, 56 or 64 bits wide |
| `Pattern.WindowsDisjoint` | risugen:223-243 | windows of different elements do not overlap |
| `Pattern.WindowsCover` | risugen:223-243 | the windows cover exactly the top bits of the word |
| `Pattern.FixedCompiled` | risugen:232-250 | the mask is exactly the union of the windows of fixed bits, and the fixed bits are the values in their windows, for widths 16 and 32 |
| `Pattern.FieldsCompiled` | risugen:238-243 | the fields are the named elements in order, each with its window |
| `Pattern.ReadBackIffFit` | risugen:253-256 | every fixed value can be read back if and only if every value fits its length |
| `Pattern.OverwideSlips` | risugen:253-256 | a value too wide for its element changes its neighbour and passes the internal check |
| `Pattern.HexReadsAsZero` | risugen:205-208 | a value written with 0x is the number 0, because Perl reads the captured text as decimal |
| `Pattern.BitsFit` | risugen:226-243 | the bits of a number lie inside the mask of a length exactly when it is below that power of two |
| `Pattern.NumeralFits` | risugen:205-208 | a numeral fits its length exactly when the number Perl reads in it is below that power of two |
| `InsnFields.PatternSound` | risugen:164-265 | the compiled fields and the fixed bits share no bit |
| `InsnFields.PatternCovers` | risugen:164-265 | fixed bits and fields cover exactly the top bits of the word |
| `InsnFields.GeneratedMatches` | risugen_arm.pm:967-972 | every generated word matches the fixed bits and keeps the random bits in its fields |
| `InsnFields.UpdateInsn` | risugen_common.pm:150-159 | the first field of the name changes and reads back; other fields and fixed bits do not; without such a field nothing changes |
| `InsnDraw.CandidateMeans` | risugen_arm.pm:967-986 | a candidate matches the pattern, holds the forced condition and is as drawn in every other field if and only if the condition is not forced or its fields are wide enough for it; and then a draw makes a candidate exactly if no register field holds sp or pc |
| `InsnDraw.NoStackOrPc` | risugen_arm.pm:974-976 | for 32-bit Arm a draw makes a candidate exactly if no field whose name begins with r holds 13 or 15, and no such field of the candidate does; on A64 every draw makes one |
| `InsnDraw.ForcedIsAlways` | risugen_arm.pm:977-984 | a forced condition is the number 14 in every condition field |
| `InsnDraw.Draw` | risugen_arm.pm:953-1002 | the loop returns the first draw that makes a candidate which the constraint block accepts, as the block leaves it, or gives up exactly at the 10001st constraint failure before it; draws with a forbidden register are not counted |
| `InsnDraw.OneOutcome` | risugen_arm.pm:953-1002 | these conditions determine the outcome of the loop |
| `InsnDraw.NarrowCondSlips` | risugen_arm.pm:980-983 | in an accepted pattern with a condition field of three bits the forced condition, which is not masked, changes a fixed bit |

## Left out

- Sockets, signals, `setjmp`, `mmap` and zlib: a trap arrives, a channel delivers bytes, a run stops with a result. SIGBUS, broken connections and EINTR retries end or repeat a call and add nothing.
- LiveRun.VerdictCorrect: assumes a master whose host has the target's byte order (`LostBlock.ForeignHostLosesStep` says what happens otherwise) and images that use ops 0 to 6 only, since another op aborts the program. A comparison through a null block on the apprentice's side is the result `Segv`, where the C program would crash.
- Replay.ReplayEqualsLive: for recordings whose compared blocks were all set; in another recording the block is missing from the tape and whatever follows is read in its place.
- Handlers.MasterProcess.MasterSigill: the answers are values in a queue that holds, when a call begins, those it reads; that an answer comes when it is awaited is `LiveRun.NoDeadlock`.
- Framing.Socket.RecvDataPkt: packet lengths of 2^31 and more, which the C code converts to a negative `int`, are treated as the number sent.
- GetoptScanner.Scanner.Next: `getopt_long_only`, the error messages and `optopt` are not modelled. A call after EOF whose exchange would leave the argument vector has no defined outcome; `GetoptAgain.EndIsFinal` says which these are.
- GetoptScanner.Scanner.ParseAll: a long option whose value is -1 would end the loop and is excluded. BAD_OPTION is 0 here, so a bad option cannot be told from a flag option by its return value alone.
- ArgcArgv.Eval: the `risu` command is listed and not carried out; opening and reading a file is a lookup.
- FpOptions.PpcListed: the 73 tests on a pair of floating registers are those of the code; what is stated of each is where it applies, under which option, and for the rounding tests when a sign change passes.
- Comparer.IsEqAccepts: 32-bit registers without vector registers. The dump of rejected pairs is modelled by its lines, not their text.
- PpcRuns.TrapMeans: the trap words 0x5AF7 to 0x5AFF, on which the program aborts, count as illegal instructions.
- PpcRuns.PpcVerdict: the byte image holds the modelled registers in a fixed order of its own; DAR, DSISR and the program counter relative to the image, which nothing compares, are left out. Reading the registers off the context, memory and running to the next trap are parameters.
- Ieee.NearMeans: negating the smallest 64-bit integer, which C leaves undefined, wraps around as it does on the machines risu runs on.
- `reginfo_swap` for vector registers, and the fallback `BYTESWAP_64`, whose shifts do not reverse the bytes.
- ArmImage.ImageRuns: instructions under test fall through, touch registers and rest as one function, use their base register for addressing only, and do not name the stack pointer or the program counter. SVE data, `reg_plus_imm_pl`, `reg_plus_imm_vl`, `pre` and `post` blocks and instruction encodings are not modelled. An instruction that traps as illegal counts as one that falls through.
- ArmEmitter.Emitter.GenOneInsn: an item is an instruction already drawn; the drawing loop is `InsnDraw.Draw`, on words rather than abstract instructions. `pre` and `post` blocks, which no ARM pattern file has, are left out.
- InsnDraw.Draw: a constraint block is a function of the word that may change it. `Undecided` stands for a loop that needs more random words than are at hand.
- BranchRuns.HarnessRuns: the direct jumps are not truncated to the 24-bit field they are written to, and for register branches the displacement must keep 12 plus four times itself below 2^15, the range of `addi`.
- Pattern.Parse: all texts are classified before the first is compiled, so of two errors the other may be reported. Patterns of 40 to 64 bits, whose field positions go negative, are accepted by the parser but have no window theorems. Splitting a line into texts is not modelled.
- The other generators and register images (LoongArch, m68k, s390x, 32-bit PowerPC), `sextract` and the progress bar would only add easy or similar members.
