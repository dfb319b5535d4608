# Verified models of the x64dbg engine

This project models eight parts of the debugger engine in Dafny and proves what they promise.
`dafny verify dfyconfig.toml` checks all of it.

| part | files |
|---|---|
| expression tokenizer, compiler and evaluator | `ExpressionTokens`, `Tokenizer`, `TokenizerRoundTrip`, `TextCompilation`, `TokenizerReading`, `ShuntingYard`, `ExpressionTrees`, `OperatorGrouping`, `MachineWords`, `WordLaws`, `OperatorMeaning`, `ExpressionEval`, `CallMeaning`, `AssignmentLaws` |
| trace recorder, trace reader, hit counters | `TraceBlocks`, `TraceRecorder`, `TraceReplay`, `TraceReader`, `HitCounters` |
| command line: splitting, parsing, escaping, command table | `CommandParser`, `CommandReading`, `CommandSplit`, `CommandList` |
| INI store | `Utf8IniStore`, `Utf8IniReading`, `Utf8IniRoundTrip` |
| breakpoint table | `Modules`, `Breakpoints`, `BreakpointLookup`, `BreakpointTable` |
| database callback batcher | `CallbackBatcher`, `BatcherObjects` |
| break-in (pause) protocol | `BreakIn` |
| backward disassembly | `DisasmBack` |

`Options`, `Strings` and `Words` hold the shared option type, text helpers and 64-bit words.

Code that changes state in place is a class or a method with loops. Its contract equates the new state
with a specification function of the old one, and the properties are lemmas about that function.
The operating system, the disassembler, module loading and name lookup are parameters.

## What is proved

**Expressions.** For every tree with at least the parentheses the operator tables require, the
shunting-yard produces exactly the postfix form, every function token carrying its argument count
(`CompiledIsPostfix`). Running the evaluator on it has the outcome the tree itself has, including
assignments, steps and effectful functions, with names evaluated only when an operator asks for them
(`CompilingPreservesMeaning`). Without side effects that lazy outcome is the ordinary recursive value or the
ordinary failure (`PureMeaning`). How operators group is stated by what is written, without the parser's tables: the texts
in order of tightness, `*` before `+` and so on, with any two of them between any operands (`InfixGroups`, `PrefixGroups`,
`SuffixGroups`). So is what each of them yields: sums modulo 2^64, comparisons of the readings, truth tables, and where
shifts and rotations move every bit (`OperatorMeaning`). It is stated exactly when a call of an expression function
succeeds (`CallSucceedsIff`). Compound assignments and steps mean the assignments they abbreviate
(`CompoundAssignment`, `PrefixStep`). A tree written as text, with any blanks or none between its tokens, is read back
into them if and only if no plus or minus sign stands right behind a suffix operator and no operator runs into the
token behind it (`TreeIsReadBackIff`). Such a text compiles to the tree's postfix form, and evaluates to the tree's
outcome, if and only if the parser sees as many closing parentheses missing as were left off at the end
(`TextIsCompiledIff`, `TextHasTreesMeaning`). The parser counts the characters of the whole text, names and quotes
included, so a complete text is rejected when its names hold more opening than closing parentheses, and an incomplete one
when they do not hold as many of either (`MissingIff`): `f("(")` is rejected and `f(")")` is not (`QuotedParenFails`).

**Traces.** Decoding inverts encoding for every block. Over every recording with starts, stops, flushes and
thread switches, any 512 consecutive blocks hold a full dump with its thread id, and a reader that starts at any
full dump, with or without a thread id, reconstructs the registers, opcodes and memory effects of every later
instruction exactly, as an onlooker notes them who sees the events but no recorder (`ReplayIsExact`, `HistoryOf`). Two limits are stated as equivalences. A thread id on a page is right if and
only if some block of the page so far carries one or the page began in thread 0 (`ThreadIdsIff`). The reader's
register list loses its alignment exactly when some block changes no register
(src/gui/Src/Tracer/TraceFileReader.cpp:868-886). Both are reached by recordings of three instructions
(`UnknownThread`, `MisalignedRecording`). `RunRecording` carries these theorems to the recorder object and its file.
Hit counters equal the number of covering executions, up to their capacity, and the two bits above say which part of an
instruction a byte was last.

**Commands.** Any list of plainly named commands with arbitrary arguments, quoted with `Escape` and joined by
commas and semicolons, is split and parsed back to the same names and arguments. Arguments typed without quotes come back
as they were typed, backslashes included (`TypedCommand`), a format expression is kept as it is written (`FormatArgument`),
and a line is cut exactly at the semicolons in front of which the quotes are closed (`CutAtSeparators`). The command list behaves as
a sequence; with aliases, a deleted name can still be found (`AliasSurvivesDelete`).

**INI store.** For every store whatever, in whatever order it is printed: parsing succeeds and gives the store back
if and only if section names and keys are trimmed, not empty and without line breaks, no key contains `=` or starts
with `;`, and every value that is printed without quotes has no carriage return and does not end in `]` behind a key
that starts with `[`, which the code takes for a section (`RoundTripIff`). Necessity is a count: a misread line
leaves fewer pairs than the store has. For any file it is stated exactly when it is read and which line is reported
(`ReadsIff`), and that the last of several assignments to a key counts (`ValueIsLastAssigned`).

**Breakpoints.** Over every run, every key follows from its breakpoint, and a log file's reference count is
the number of breakpoints naming it plus the number of entries naming it that a load has overwritten; the table object
keeps both as its invariant. It is stated exactly when a breakpoint is added (`NewAddsIff`), also where another one already
covers the address (`CoveredIsTaken`). References lead back to their entry, and deleting by an address-adjusted copy removes the
copied entry, under conditions that are proved exact, for the second even if modules were loaded or unloaded in between. The predecessor lookup of memory breakpoints agrees with a linear
scan if and only if the address's own module has a breakpoint at or below it or the entry in front does not seem to
cover it (`LookupIsScanIff`); it is never checked that this entry belongs to the same module, and `ForeignMatch` gives the
layouts in which it does not.

**Batcher.** However callbacks add operations, write to text buffers, open batchers or are registered and removed, outside
all batchers nothing is queued, and what was delivered are exactly the operations that were not dropped, once, in order,
with their text at the time they were added (`EverythingDelivered`). An operation is dropped when no callback is registered
as it reaches them, alone or with its batch, or when its batcher was opened before any was (`LateCallbackMisses`). For a
flag whose callbacks stay the same everything is delivered, or nothing (`UntouchedFlags`).

**Break-in.** Under every interleaving of the atomic accesses there are never more pauses than accepted requests.
Requests can be lost, and it is stated exactly when. At any reachable point a request that finds no other pending and
runs uninterrupted leads to a pause if and only if it has a start address and the debug loop is not half way through
resetting the three variables (`RequestPausesIff`). If the loop was about to reset the first one, the request is dropped and
everything is clean; if it was about to reset the second or the third, the request stays pending without a start address, and
so it does when the entry point was not found, unless the loop was about to record a thread (`RequestSurvivesIff`, with
the runs `LostPause` and `NullAddressSticks`). From then on no request is served until the session ends (`StuckForever`).
A request that the debug loop interrupts anywhere survives if and only if it has a start address, no reset stores its first
variable behind the first access and none its last behind the second (`InterruptedSurvivesIff`, `InterruptedPausesIff`). So a
request accepted while the loop is idle can still be dropped (`DroppedByRestart`), and one accepted in the middle of a reset
can survive (`LateResetIsHarmless`). A pause can be reported on a thread that is not the break-in thread only if that
thread's start address is null (`NullStartPauses` shows that this happens).

**Backward disassembly.** Going back n instructions and forwards again lands on the first instruction the sweep
found at or after the starting point. The sweep is offered the size of the whole buffer without subtracting where
it starts, so this holds for all instructions of at most `bound` bytes if and only if the sweep starts at the buffer's
start or `bound` bytes are left from the byte in front of the starting point on; for the 15 bytes of x86 that is when 14
bytes are left from the starting point on (`BackThenNext`, `LandsElsewhere`).

Where the repository's comments and its code differ, the models follow the code: the layout comment of the trace
block (src/dbg/TraceRecord.cpp:321-322) lists a new content for every memory operand, while writer and reader leave
out the unchanged ones, as the operand's flags byte says. The word pages of the trace record take their overlap test
from the bits that byte pages use (src/dbg/TraceRecord.cpp:189-193), against the layout in src/dbg/TraceRecord.h:34-40.

## Model

| member | source | states |
|---|---|---|
| ExpressionTokens.PrecedenceDecides | src/dbg/expressionparser.cpp:8-134 | the precedence and associativity tables agree: precedence alone decides associativity, suffix operators bind tightest, then prefix operators, and no operator reaches the precedence of other tokens |
| Tokenizer.ExpressionTokenizer.constructor | src/dbg/expressionparser.cpp:136-183 | constructing the parser restores missing closing brackets and leaves exactly the specified tokens and validity flag |
| Tokenizer.ExpressionTokenizer.tokenize | src/dbg/expressionparser.cpp:185-381 | the loop over the characters leaves exactly the specified tokens; the validity flag drops only on an unmatched closing bracket |
| Tokenizer.ExpressionTokenizer.readCharacter | src/dbg/expressionparser.cpp:195-373 | one round of the loop: quotes, bracket depth, the longest operator at this position, blanks, or one more character of a name |
| Tokenizer.ExpressionTokenizer.addOperatorToken | src/dbg/expressionparser.cpp:383-405 | a buffered name is flushed in front of the operator, as a function before an opening parenthesis and else as quoted data, number or data |
| TokenizerRoundTrip.ExtendsIff | src/dbg/expressionparser.cpp:228-369 | an operator and a character make a longer operator exactly if some operator is written like that |
| TokenizerRoundTrip.ReadsSymbol | src/dbg/expressionparser.cpp:228-369 | every operator's text is read whole unless the character behind it makes it longer, and as that operator exactly if its unary or binary form suits its place |
| TokenizerRoundTrip.MergedIsMisread | src/dbg/expressionparser.cpp:228-369 | and if that character makes it longer, another token is read |
| TokenizerRoundTrip.TokenizeShow | src/dbg/expressionparser.cpp:185-416 | every list of well-spelled tokens in which each fits its place is read back as written, with any blanks that keep its operators apart |
| TokenizerRoundTrip.TreeIsReadBackIff | src/dbg/expressionparser.cpp:407-416 | a tree written with any blanks is read back if and only if no plus or minus sign stands right behind a suffix operator and no operator runs into the token behind it |
| TokenizerReading.AcceptedIffClosed | src/dbg/expressionparser.cpp:195-225 | the tokenizer accepts a text if and only if every closing bracket has an opening one before it, quoted or not |
| TokenizerReading.PartlyQuoted | src/dbg/expressionparser.cpp:383-405 | a name of which only a part is quoted is a name or a number, not a text |
| TokenizerReading.EmptyQuotes | src/dbg/expressionparser.cpp:195-225 | empty quotes are no token |
| TokenizerReading.NothingToClose | src/dbg/expressionparser.cpp:448-496 | a comma or closing parenthesis behind a complete expression makes it invalid |
| TextCompilation.MissingClosersReturn | src/dbg/expressionparser.cpp:164-183 | any text is read as its tokens and as many closing parentheses as its characters seem to miss, inside names and quotes or not |
| TextCompilation.CompiledIsBalanced | src/dbg/expressionparser.cpp:418-529 | only token lists with as many opening as closing parentheses compile |
| TextCompilation.TextIsCompiledIff | src/dbg/expressionparser.cpp:136-161 | the text of a tree without its last `k` closing parentheses compiles to the tree's postfix form if exactly `k` seem to be missing, and is rejected otherwise |
| TextCompilation.TextHasTreesMeaning | src/dbg/expressionparser.cpp:136-161 | that text compiles if and only if exactly `k` seem to be missing, and then evaluates to the tree's own outcome |
| TextCompilation.MissingIff | src/dbg/expressionparser.cpp:164-183 | exactly `k` seem to be missing if and only if the names hold as many opening as closing parentheses, or not more of them when `k` is 0 |
| TextCompilation.QuotedParenFails | src/dbg/expressionparser.cpp:164-183 | `f("(")` gets one closing parenthesis too many and is rejected, `f(")")` compiles |
| ShuntingYard.ExpressionParser.ShuntingYard | src/dbg/expressionparser.cpp:418-529 | the three-stack loop computes the specified compilation or clears the validity flag, and never reads an empty argument-count stack, for any token list |
| ShuntingYard.ExpressionParser.ReadToken | src/dbg/expressionparser.cpp:430-514 | one token: operands, functions, commas, operators and parentheses move queue, stack and argument counts as specified |
| ShuntingYard.ExpressionParser.ReadCloseParen | src/dbg/expressionparser.cpp:472-496 | a closing parenthesis drains to its opening one, fails if there is none, and gives a function its count |
| ExpressionTrees.ReadTree | src/dbg/expressionparser.cpp:418-529 | reading a tree's tokens in any state queues its finished part and stacks its pending operators, and counts as one argument |
| ExpressionTrees.CompiledIsPostfix | src/dbg/expressionparser.cpp:418-529 | every sufficiently parenthesized tree compiles to exactly its postfix form, functions carrying their true argument counts |
| OperatorGrouping.EveryOperatorHasItsPlace | src/dbg/expressionparser.cpp:8-134 | every operator stands between two operands in exactly one tier of the listed texts, or in front of one, or behind one |
| OperatorGrouping.InfixGroups | src/dbg/expressionparser.cpp:8-134 | of two operators between three operands the one in the tighter tier is applied first; within a tier the left one, among assignments the right one |
| OperatorGrouping.PrefixGroups | src/dbg/expressionparser.cpp:8-134 | an operator in front of an operand is applied before one between two, on either side |
| OperatorGrouping.SuffixGroups | src/dbg/expressionparser.cpp:8-134 | and so is one behind an operand |
| OperatorGrouping.SuffixBeforePrefix | src/dbg/expressionparser.cpp:8-134 | an operator behind an operand is applied before one in front of it |
| OperatorGrouping.PrefixesNest | src/dbg/expressionparser.cpp:8-134 | operators in front of one operand are applied from the inside out |
| MachineWords.SignednessIsIrrelevant | src/dbg/expressionparser.cpp:559-662 | signed and unsigned calculation give the same bits for sums, products, bitwise operators, equality, logic and left shifts |
| MachineWords.OrderNeedsSameSign | src/dbg/expressionparser.cpp:637-648 | signed and unsigned comparison agree exactly when both operands have the same top bit |
| MachineWords.HighAndLowHalves | src/dbg/expressionparser.cpp:534-546 | high and low halves recombine to the full product, signed and unsigned |
| MachineWords.SignedHighHalf | src/dbg/expressionparser.cpp:534-556 | the signed high half is the unsigned one minus each operand whose partner is negative |
| WordLaws.QuotientAndRemainder | src/dbg/expressionparser.cpp:586-595 | division fails exactly for a zero divisor; quotient and remainder recombine to the dividend, with its sign, exactly unless the smallest signed number is divided by -1 |
| WordLaws.MinusNegates | src/dbg/expressionparser.cpp:565-567 | multiplying by all ones negates, signed or unsigned |
| WordLaws.BitwiseOperators | src/dbg/expressionparser.cpp:622-630 | each bit of the three bitwise operators is the conjunction, disjunction or inequality of the operands' bits |
| WordLaws.RotationsUndo | src/dbg/expressionparser.cpp:608-621 | rotating by any count one way and back gives the word back |
| WordLaws.ShiftBackKeepsLowBits | src/dbg/expressionparser.cpp:602-607 | shifting left and back keeps exactly the bits that were not shifted out |
| OperatorMeaning.Sums | src/dbg/expressionparser.cpp:577-600 | `+`, `-` and `*` give sum, difference and product modulo 2^64, signed or unsigned |
| OperatorMeaning.HighProduct | src/dbg/expressionparser.cpp:580-585 | the back quote gives the high half of the product of the readings |
| OperatorMeaning.Quotients | src/dbg/expressionparser.cpp:586-595 | `/` and `%` fail exactly for a zero divisor, recombine to the dividend, and the remainder has its sign and is smaller than the divisor |
| OperatorMeaning.Unaries | src/dbg/expressionparser.cpp:565-576 | unary `-`, `+` and `!` |
| OperatorMeaning.Complements | src/dbg/expressionparser.cpp:571-573 | `~` inverts every bit |
| OperatorMeaning.Comparisons | src/dbg/expressionparser.cpp:631-648 | `==` and `!=` compare the words, the four order comparisons the signed or unsigned readings |
| OperatorMeaning.TruthTables | src/dbg/expressionparser.cpp:649-657 | conjunction, disjunction and implication have their truth tables over nonzero words |
| OperatorMeaning.BitTables | src/dbg/expressionparser.cpp:622-630 | each bit of the three bitwise operators, in both modes |
| OperatorMeaning.FailsIff | src/dbg/expressionparser.cpp:559-662 | an operator fails exactly for a zero divisor or if it is an assignment or a step |
| OperatorMeaning.ShiftLeft | src/dbg/expressionparser.cpp:602-604 | `<<` moves each bit up by the low six bits of the count and fills with zeros |
| OperatorMeaning.ShiftRight | src/dbg/expressionparser.cpp:605-607 | `>>` divides the reading by a power of two and rounds down |
| OperatorMeaning.RotatedLeft | src/dbg/expressionparser.cpp:608-614 | `<<<` moves each bit up by the count, around the end |
| OperatorMeaning.RotatedRight | src/dbg/expressionparser.cpp:615-621 | `>>>` moves each bit down by the count, around the end |
| ExpressionEval.Calculate | src/dbg/expressionparser.cpp:866-1182 | the stack loop has exactly the specified outcome: the single remaining entry and the new state, or failure |
| ExpressionEval.ExecuteToken | src/dbg/expressionparser.cpp:873-1177 | one token: literals, names, operators with one or two operands, steps, assignments and calls act on the stack as specified, missing operands fail |
| ExpressionEval.CallOnStack | src/dbg/expressionparser.cpp:960-1160 | a call takes its arguments from the top of the stack, in writing order, converts them to the declared types and fails if there are too few |
| ExpressionEval.CalculateNumber | src/dbg/expressionparser.cpp:839-864 | the numeric form is the value of the general one, strings fail, and a lone literal takes the constant shortcut |
| ExpressionEval.ExecTree | src/dbg/expressionparser.cpp:866-1182 | running a tree's postfix on any stack leaves exactly one more entry, the tree's outcome, or fails with the same state |
| ExpressionEval.CompilingPreservesMeaning | src/dbg/expressionparser.cpp:866-1182 | compiling any tree, with side effects, and running the program gives the tree's own outcome |
| ExpressionEval.NotationIsUnambiguous | src/dbg/expressionparser.cpp:418-529 | trees written with the same tokens have the same outcome |
| ExpressionEval.LazyIsEager | src/dbg/expressionparser.h:10-38 | without side effects, evaluating names only when they are needed gives the recursive value, and fails exactly when that fails |
| ExpressionEval.PureMeaning | src/dbg/expressionparser.cpp:839-1182 | a side-effect-free tree calculates to its recursively defined number, or fails exactly when that has none |
| ExpressionEval.SignednessOfTree | src/dbg/expressionparser.cpp:559-662 | a tree of sign-agnostic operators has the same outcome in signed and unsigned mode |
| CallMeaning.LeavesMean | src/dbg/expressionparser.cpp:1163-1175 | a numeric literal is its number, a name what it resolves to, a quoted text no number |
| CallMeaning.LeavesAsArguments | src/dbg/expressionparser.cpp:1063-1080 | as an argument a quoted text is the text, everything else a number |
| CallMeaning.CallSucceedsIff | src/dbg/expressionparser.cpp:960-1160 | a call succeeds exactly if the function is known, no needed argument is missing and none too many, all have their types, and the function succeeds; its result and state are the function's |
| CallMeaning.UnresolvedFails | src/dbg/expressionparser.cpp:1076-1079 | an argument that resolves to nothing makes the call fail |
| CallMeaning.NoValueWithoutSense | src/dbg/expressionparser.cpp:866-870 | an invalid or empty expression fails, and so does a program that does not leave exactly one value |
| CallMeaning.OperandsMustBeThere | src/dbg/expressionparser.cpp:880-960 | an operator or call fails if the stack holds too few values |
| AssignmentLaws.CompoundSpelling | src/dbg/expressionparser.cpp:664-713 | every compound assignment is written as the operator it applies and an equal sign |
| AssignmentLaws.CompoundAssignment | src/dbg/expressionparser.cpp:743-776 | `x op= e` has the value, effects and failures of `x = x op (e)`, whatever `e` does |
| AssignmentLaws.PrefixStep | src/dbg/expressionparser.cpp:778-811 | a prefix step on an unquoted name is the assignment of the name plus or minus one |
| AssignmentLaws.SuffixStep | src/dbg/expressionparser.cpp:778-811 | a suffix step has the effect of the prefix step and gives the value from before it |
| AssignmentLaws.AssignmentSucceedsIff | src/dbg/expressionparser.cpp:715-776 | an assignment succeeds exactly if its right side has a number, assigning is allowed and the left side is a variable that takes the number or a name without a value, which becomes a new variable; a failed one keeps the effects of its right side only |
| TraceBlocks.BlockFitsBuffer | src/dbg/TraceRecord.cpp:258-262 | no block of at most 172 or 216 registers, 32 memory operands and 15 opcode bytes exceeds the 3072-byte buffer |
| TraceBlocks.BlockLayout | src/dbg/TraceRecord.cpp:314-352 | where counts, flags, thread id and opcode of a block lie in the file |
| TraceBlocks.BlockLength | src/dbg/TraceRecord.cpp:314-399 | how long a block is, by its registers, memory accesses and changed contents |
| TraceBlocks.LowestByteFirst | src/dbg/TraceRecord.cpp:343-348 | numbers are stored with their lowest byte first |
| TraceBlocks.PositionsOfDeltas | src/dbg/TraceRecord.cpp:353-362 | the distances written for ascending positions decode to these positions |
| TraceBlocks.DecodeChangesInverts | src/dbg/TraceRecord.cpp:353-371 | the register part decodes to the same changes |
| TraceBlocks.DecodeMemoryInverts | src/dbg/TraceRecord.cpp:372-399 | the memory part decodes to the same addresses with old and new contents, unchanged ones included |
| TraceBlocks.DecodeInvertsEncode | src/gui/Src/Tracer/TraceFileReader.cpp:843-936 | reading a written block gives it back and leaves the rest of the file, except that a block without opcode is rejected |
| TraceBlocks.UserBlockIsSkipped | src/gui/Src/Tracer/TraceFileReader.cpp:923-931 | a user-defined block is skipped by its size, whatever it holds |
| TraceBlocks.UnknownTypeFails | src/gui/Src/Tracer/TraceFileReader.cpp:932-935 | a block of any other type is an error |
| TraceBlocks.CountsAreChecked | src/gui/Src/Tracer/TraceFileReader.cpp:868-893 | too many registers or memory operands, or fewer bytes than announced, are errors |
| TraceBlocks.PositionsFitIff | src/gui/Src/Tracer/TraceFileReader.cpp:877-884 | stored distances are accepted exactly if they add up to positions in the context |
| TraceBlocks.LowestBitsDecide | src/gui/Src/Tracer/TraceFileReader.cpp:899-908 | only the lowest bit of a memory flag says that the content is unchanged, and then no new one is stored |
| TraceRecorder.TraceRecordManager.StartRecording | src/dbg/TraceRecord.cpp:569-574 | enabling marks every register changed, asks for the thread id and restarts the counter |
| TraceRecorder.TraceRecordManager.StopRecording | src/dbg/TraceRecord.cpp:597-609 | disabling forgets the pending instruction and leaves file, flags and counter alone |
| TraceRecorder.DumpsAreDue | src/dbg/TraceRecord.cpp:323-333 | a full dump is due at the second of every 512 calls, until the counter wraps around |
| TraceRecorder.TraceRecordManager.TraceExecuteRecord | src/dbg/TraceRecord.cpp:251-431 | writes the block of the previous instruction, makes the new one pending and advances flags and counter; a short write ends the recording |
| TraceRecorder.TraceRecordManager.WriteBlock | src/dbg/TraceRecord.cpp:314-399 | the count, position, value and memory passes together fill the buffer with exactly the encoded block, within its bounds |
| TraceRecorder.TraceRecordManager.WritePositions | src/dbg/TraceRecord.cpp:353-362 | the position pass writes the distances of exactly the registers that the count pass counted |
| TraceRecorder.TraceRecordManager.WriteValues | src/dbg/TraceRecord.cpp:363-371 | the value pass writes the old values of the same registers and updates the change flags |
| TraceRecorder.TraceRecordManager.FlushTraceExecuteRecord | src/dbg/TraceRecord.cpp:433-448 | writes the pending instruction and makes the next one a full dump |
| TraceReplay.SessionsAreConsistent | src/dbg/TraceRecord.cpp:314-448 | in every session each block describes its instruction truthfully and says enough to continue from the one before |
| TraceReplay.SessionsAreScheduled | src/dbg/TraceRecord.cpp:336-346 | in every session the counter and the last full dump keep in step |
| TraceReplay.TruthIsHistory | src/dbg/TraceRecord.cpp:314-448 | the instructions that the blocks stand for are those that the events tell: each with the registers, thread, opcode and memory it began with, and the memory contents re-read behind it |
| TraceReplay.StartsAfresh | src/dbg/TraceRecord.cpp:569-609 | starting counts anew and makes the next block a full dump, a flush ends the pending instruction and does so too, stopping forgets it |
| TraceReplay.DumpInEveryWindow | src/dbg/TraceRecord.cpp:336-346 | any 512 consecutive blocks contain a full dump with its thread id |
| TraceReplay.RunRecording | src/dbg/TraceRecord.cpp:251-448 | running any events on the recorder object leaves exactly the session's recorder state, and in the file exactly the session's blocks |
| TraceReader.TraceFilePage.constructor | src/gui/Src/Tracer/TraceFileReader.cpp:820-943 | the block loop fills the page's lists with exactly the page that the theorems below speak of |
| TraceReader.ReplayIsExact | src/gui/Src/Tracer/TraceFileReader.cpp:820-943 | a reader starting at any full dump sees the true registers, opcode and memory of every later instruction and the thread id written last, and stops early only with an error at an instruction without opcode |
| TraceReader.ThreadIdsIff | src/gui/Src/Tracer/TraceFileReader.cpp:848-860 | a thread id on the page is right if and only if some block from the start of the page to this one carries one, or the page begins in thread 0 |
| TraceReader.PageIsTrue | src/gui/Src/Tracer/TraceFileReader.cpp:820-943 | a page without error has as many instructions as were asked for and exist, each with its true opcode and memory effects |
| TraceReader.RegistersAligned | src/gui/Src/Tracer/TraceFileReader.cpp:868-886 | the register list is aligned with the other lists exactly if every block read changes a register |
| TraceReader.EmptyBlock | src/dbg/TraceRecord.cpp:323-333 | a block without register changes arises exactly if nothing changed at this and the previous step and no dump was due |
| TraceReader.MisalignedRecording | src/gui/Src/Tracer/TraceFileReader.cpp:868-886 | three instructions with equal registers give a page of two instructions and one register context |
| TraceReader.UnknownThread | src/gui/Src/Tracer/TraceFileReader.cpp:497 | three instructions that change every register give a full dump without thread id, whose page shows thread 0 for thread 7 |
| HitCounters.SplitIsNeutral | src/dbg/TraceRecord.cpp:127-133 | counting an execution across a page boundary as two halves changes a byte's count exactly if it is in the second half and that page is not traced |
| HitCounters.MaskBits | src/dbg/TraceRecord.cpp:137-140 | setting one bit of a page byte sets that bit and no other |
| HitCounters.MaskIsShifted | src/dbg/TraceRecord.cpp:137-140 | the bit of a byte on a bit page is one shifted left by its place |
| HitCounters.CountBytes | src/dbg/TraceRecord.cpp:142-168 | each covered byte's six-bit count goes up by one or stays at 63; its two type bits say first, last or inner byte, or overlapping if some byte had its type before; others stay |
| HitCounters.CountWords | src/dbg/TraceRecord.cpp:170-196 | the same for fourteen-bit counts, with the overlap test on the bits that byte pages use |
| HitCounters.TraceRecordPages.CountExecution | src/dbg/TraceRecord.cpp:114-203 | an execution that starts on a traced page counts once for each byte it covers on traced pages; the split recursion ends |
| HitCounters.TraceRecordPages.setTraceRecordType | src/dbg/TraceRecord.cpp:36-101 | switching on starts at zero, switching off forgets, other conversions are refused |
| HitCounters.TraceRecordPages.TraceExecute | src/dbg/TraceRecord.cpp:114-203 | keeps every counter equal to the number of covering executions, up to its capacity |
| HitCounters.TraceRecordPages.getHitCount | src/dbg/TraceRecord.cpp:450-473 | returns the number of executions that covered the byte since its page was switched on, capped at 1, 63 or 16383 |
| HitCounters.SwitchingPages | src/dbg/TraceRecord.cpp:36-101 | a traced page of 4096 bytes keeps its kind and counts until it is switched off, which forgets them; others are not touched |
| CommandParser.Command.constructor | src/dbg/commandparser.cpp:3-178 | the three-state parser yields exactly the specified tokens |
| CommandParser.EscapeArgument | src/dbg/commandparser.cpp:180-238 | the escaping loop yields the specified text |
| CommandParser.ParseEscaped | src/dbg/commandparser.cpp:83-125 | reading an escaped argument and a closing quote adds exactly the argument and never enters the format state |
| CommandParser.CommandRoundTrip | src/dbg/commandparser.cpp:3-238 | a plain name with any arguments, escaped and quoted, is parsed back to that name and those arguments |
| CommandReading.TypedCommand | src/dbg/commandparser.cpp:16-81 | a plain name, blanks and unquoted arguments with commas and any blanks between them come back as they were typed, backslashes included |
| CommandReading.EscapedSeparator | src/dbg/commandparser.cpp:46-76 | an odd run of backslashes makes the blank or comma behind it part of the argument |
| CommandReading.EvenRun | src/dbg/commandparser.cpp:46-50 | an even run does not and is kept |
| CommandReading.SlashesBeforeQuote | src/dbg/commandparser.cpp:36-44 | outside quotes backslashes in front of a quote are halved, and an odd one makes it an ordinary character |
| CommandReading.SlashesInQuotes | src/dbg/commandparser.cpp:83-113 | inside quotes the same in front of a quote or a brace; else the quote ends the quotes and the brace begins a format expression |
| CommandReading.OtherSlashesInQuotes | src/dbg/commandparser.cpp:109-113 | anywhere else inside quotes backslashes are kept |
| CommandReading.ReadFormatText | src/dbg/commandparser.cpp:127-176 | a format expression is kept as it is written up to the first closing brace that is not one of a pair |
| CommandReading.FormatBackslash | src/dbg/commandparser.cpp:156-168 | inside it a backslash gives way to a quote or backslash behind it and is kept otherwise |
| CommandReading.FormatArgument | src/dbg/commandparser.cpp:127-176 | a quoted argument of text and a format expression comes back as written |
| CommandSplit.CmdSplit | src/dbg/command.cpp:207-253 | the flag-driven loop yields the specified commands |
| CommandSplit.CutAtSeparators | src/dbg/command.cpp:220-253 | a line is cut exactly at the semicolons before which the unescaped quotes are even in number, and empty commands are dropped |
| CommandSplit.FormattedFirst | src/dbg/command.cpp:209-218 | behind a dollar sign and spaces the rest is formatted first |
| CommandSplit.SplitEscaped | src/dbg/command.cpp:223-248 | the splitter stays inside the quotes over any escaped argument and leaves them at the closing quote |
| CommandSplit.LineRoundTrip | src/dbg/command.cpp:207-253 | a line of plainly named commands with arbitrary escaped arguments splits, trims, looks up and parses back to exactly these names and arguments |
| CommandList.CommandTable.cmdinit | src/dbg/command.cpp:67-76 | an empty table is one node without names |
| CommandList.CommandTable.cmdfind | src/dbg/command.cpp:33-51 | returns the first node with the name and the node in front of it, ignoring case |
| CommandList.CommandTable.cmdnew | src/dbg/command.cpp:98-136 | appends the command unless the name is empty or taken or there is no callback; the list stays acyclic |
| CommandList.CommandTable.cmddel | src/dbg/command.cpp:180-205 | removes exactly the first command with the name, including head, last and only node |
| CommandList.CommandTable.CopySuccessor | src/dbg/command.cpp:188-197 | deleting the head copies its successor into it and unlinks the successor |
| CommandList.FindAfterDelete | src/dbg/command.cpp:33-51 | after a deletion the name finds the next command that also has it |
| CommandList.DeleteKeepsOthers | src/dbg/command.cpp:180-205 | deleting one command does not change what other names find, unless they were aliases of it |
| CommandList.NamesStayDistinct | src/dbg/command.cpp:98-136 | over every run without aliases no name is registered twice |
| CommandList.DeletedNameIsGone | src/dbg/command.cpp:180-205 | over every run without aliases a deleted name is not found |
| CommandList.AliasSurvivesDelete | src/dbg/command.cpp:98-130 | with aliases it can be: only the whole registration string is checked |
| CommandList.AliasesOfList | src/dbg/command.cpp:112-119 | a registration lists its names in order, without white space around them and without empty ones |
| CommandList.FoundInAnyCase | src/dbg/command.cpp:33-51 | a command is found under any spelling of its name that differs in the case of letters only |
| CommandList.NotFoundOtherwise | src/dbg/command.cpp:33-51 | and under no other |
| Utf8IniStore.Utf8Ini.SetValue | src/bridge/Utf8Ini.h:107-123 | sets the trimmed key of the trimmed section, and refuses empty ones |
| Utf8IniStore.Utf8Ini.GetValue | src/bridge/Utf8Ini.h:156-174 | returns the value of the trimmed names, or nothing |
| Utf8IniStore.Utf8Ini.ClearSection | src/bridge/Utf8Ini.h:130-143 | removes exactly the section |
| Utf8IniStore.GetAfterSet | src/bridge/Utf8Ini.h:107-174 | reading after setting gives the value under the same trimmed names and leaves every other one as it was |
| Utf8IniStore.EmptyNamesAreRefused | src/bridge/Utf8Ini.h:107-123 | nothing is stored under an empty section or key |
| Utf8IniStore.GetAfterClear | src/bridge/Utf8Ini.h:130-174 | after clearing a section nothing is left of it, and the others are as before |
| Utf8IniStore.Utf8Ini.Deserialize | src/bridge/Utf8Ini.h:35-98 | the two loops compute the specified store, success flag and error line |
| Utf8IniStore.Utf8Ini.Serialize | src/bridge/Utf8Ini.h:14-33 | prints the text of some listing of the store, every section and key once |
| Utf8IniReading.ReadsIff | src/bridge/Utf8Ini.h:35-98 | a file is read exactly if every line is empty, a comment, a header with a name or a named key in some section; else the first other line is reported |
| Utf8IniReading.ValueIsLastAssigned | src/bridge/Utf8Ini.h:62-93 | the value of a key is that of the last line that assigns to it in its section |
| Utf8IniReading.KeyAndValue | src/bridge/Utf8Ini.h:234-257 | key and value stand before and behind the first equal sign, trimmed, and quotes around the value are resolved |
| Utf8IniReading.Unescaped | src/bridge/Utf8Ini.h:321-364 | what a backslash stands for, at the end too, and that bare quotes are dropped |
| Utf8IniRoundTrip.EscapingRoundTrip | src/bridge/Utf8Ini.h:291-364 | a value that needs escaping is printed between quotes without line breaks and unescapes to itself |
| Utf8IniRoundTrip.ReadBackIsExact | src/bridge/Utf8Ini.h:283-289 | a value survives exactly if it is escaped or has no carriage return |
| Utf8IniRoundTrip.ParsePrinted | src/bridge/Utf8Ini.h:35-98 | any printed well-named store parses, to itself with every value as it reads back, whatever the order |
| Utf8IniRoundTrip.ValuesDecide | src/bridge/Utf8Ini.h:14-98 | a store whose lines are all read as pairs parses, and comes back unchanged if and only if no unquoted value has a carriage return |
| Utf8IniRoundTrip.NothingMisread | src/bridge/Utf8Ini.h:213-232 | a store with proper names comes back only if no pair's line is taken for a comment or a section header |
| Utf8IniRoundTrip.RoundTripIff | src/bridge/Utf8Ini.h:14-98 | any store, printed in any order, parses and comes back unchanged if and only if its names are proper, no key starts like a comment, and no unquoted value has a carriage return or closes a line that starts like a section header |
| Utf8IniRoundTrip.ReadingIsWellNamed | src/bridge/Utf8Ini.h:42-98 | no file at all reads into a store whose section or key names are empty, padded or broken, or whose keys contain an equal sign or start like a comment |
| CallbackBatcher.PerformSound | src/dbg/database_cb_batcher.cpp:39-117 | every action, with everything its callbacks do, keeps delivered plus queued operations equal to the added ones, and leaves the active batcher in place |
| CallbackBatcher.FlushSound | src/dbg/database_cb_batcher.cpp:86-117 | an outermost flush leaves nothing queued; a flush inside a callback does nothing |
| CallbackBatcher.EverythingDelivered | src/dbg/database_cb_batcher.cpp:8-117 | outside all batchers nothing is queued, and exactly the operations that were not dropped have been delivered, once and in order, whenever callbacks are registered or removed; batches are numbered and not empty |
| CallbackBatcher.NothingLostIff | src/dbg/database_cb_batcher.cpp:39-64 | what was delivered is everything that was added exactly if nothing was dropped |
| CallbackBatcher.UntouchedFlags | src/dbg/database_cb_batcher.cpp:32-56 | for a flag whose callbacks stay the same, everything is delivered if there were some and nothing otherwise |
| CallbackBatcher.LateCallbackMisses | src/dbg/database_cb_batcher.cpp:14-20 | a batcher opened before a callback is registered drops what is added until it closes |
| CallbackBatcher.AddedAsGiven | src/dbg/database_cb_batcher.cpp:58-84 | an operation is recorded with the text its buffer holds at that moment |
| CallbackBatcher.WritesTakeEffect | src/dbg/database_cb_batcher.cpp:58-84 | writing to a caller's buffer changes its text and nothing that was kept |
| CallbackBatcher.WaitsUntilThreshold | src/dbg/database_cb_batcher.cpp:79-83 | an operation waits until there are 8096, then all are shown at once |
| CallbackBatcher.NumbersAreNew | src/dbg/database_cb_batcher.cpp:14-20 | every outermost batcher has the next number, which no batch had before |
| BatcherObjects.DbCallbackBatcher.constructor | src/dbg/database_cb_batcher.cpp:8-21 | only the outermost batcher becomes the thread's active one |
| BatcherObjects.DbCallbackBatcher.Destroy | src/dbg/database_cb_batcher.cpp:23-30 | the outermost batcher flushes and is no longer active |
| BatcherObjects.DebugThread.AddOperation | src/dbg/database_cb_batcher.cpp:39-56 | a matching batcher queues the operation, otherwise it is delivered alone at once |
| BatcherObjects.DbCallbackBatcher.Enqueue | src/dbg/database_cb_batcher.cpp:58-84 | an active batcher keeps the operation with its own copy of the text and flushes at 8096 |
| BatcherObjects.DbCallbackBatcher.Keep | src/dbg/database_cb_batcher.cpp:66-75 | the kept operation reads as it did when added and no longer depends on the caller's buffers |
| BatcherObjects.DbCallbackBatcher.DeliverBatch | src/dbg/database_cb_batcher.cpp:96-115 | the queue is swapped out before the callbacks run, and the operations shown stay the same while they run |
| BatcherObjects.DbCallbackBatcher.Flush | src/dbg/database_cb_batcher.cpp:86-117 | the reentrant loop drains as specified |
| BatcherObjects.RunThread | src/dbg/database_cb_batcher.cpp:8-117 | over a whole run what callbacks read from memory are the additions that were not dropped, in order, however text buffers are overwritten in between, and all of them for flags whose callbacks stay the same |
| Modules.HashOfAddress | src/dbg/module.cpp:1273-1284 | the hash of an address is its module's name hash plus its offset, and the address itself outside modules |
| Modules.AddressesOfModules | src/dbg/module.cpp:1224-1250 | of modules that do not overlap, each has exactly the addresses from its base on for its size |
| Modules.BaseIsFirstMatch | src/dbg/module.cpp:1336-1366 | a name finds the first module with this full name, or else the first with this name before its extension |
| Breakpoints.EveryKeyFollows | src/dbg/breakpoint.cpp:1139-1173 | over every run each entry's key has its type and its module hash plus offset |
| Breakpoints.CountsAreExact | src/dbg/breakpoint.cpp:1033-1064 | over every run a log file's count is the number of breakpoints naming it, ignoring case, plus the overwritten ones, and no entry has count zero |
| Breakpoints.LiveLogFilesStay | src/dbg/breakpoint.cpp:526-542 | the log file of a live breakpoint is never dropped |
| Breakpoints.CountsAreUsersIff | src/dbg/breakpoint.cpp:984-1013 | the counts are the numbers of users exactly if no load overwrote a logging breakpoint |
| Breakpoints.RefResolvesIff | src/dbg/breakpoint.cpp:1120-1173 | a listed reference leads back to its own entry exactly if the type is known and an exception code has 32 bits |
| Breakpoints.DeletesOwnIff | src/dbg/breakpoint.cpp:375-390 | deleting by an address-adjusted copy removes exactly the copied entry, if and only if the module has the base it had and adding it did not wrap around, or it had none and the offset lies below the base it has now |
| Breakpoints.RefVaIsAddress | src/dbg/breakpoint.cpp:1175-1198 | a reference made from an address names the entry the address names |
| Breakpoints.NewThenDelete | src/dbg/breakpoint.cpp:129-185 | deleting a new breakpoint by its address restores the whole table |
| Breakpoints.NewAddsIff | src/dbg/breakpoint.cpp:129-185 | a breakpoint is added exactly if its memory can be read or it is for an exception, its name is free if it has one, nothing has its key, and, unnamed and for memory, nothing covers its address |
| Breakpoints.NewEntry | src/dbg/breakpoint.cpp:150-184 | the new entry is as it was asked for, at its offset in the module of its address, without a log file |
| Breakpoints.NewIsListed | src/dbg/breakpoint.cpp:1120-1198 | the reference that lists a new breakpoint is the one made from its address |
| Breakpoints.OthersAreListed | src/dbg/breakpoint.cpp:1139-1167 | exceptions are listed by the lower half of their code, DLL breakpoints by the hash of their name, unknown types as nothing |
| Breakpoints.NewIsFound | src/dbg/breakpoint.cpp:80-100 | a new breakpoint is found by its address, under its type only |
| Breakpoints.LoadedKeeps | src/dbg/breakpoint.cpp:947-1015 | a loaded breakpoint keeps what was stored, sizes for memory breakpoints and old bytes for plain ones only |
| Breakpoints.LoadedDll | src/dbg/breakpoint.cpp:1002-1010 | DLL breakpoints are kept under their file name alone |
| Breakpoints.SettersKeep | src/dbg/breakpoint.cpp:526-542 | a setter changes its field of its entry and nothing else of any entry |
| BreakpointLookup.LookupIsScan | src/dbg/breakpoint.cpp:57-78 | with disjoint breakpoints and hash ranges, and one of the address's own at or below it, the predecessor lookup agrees with a linear scan |
| BreakpointLookup.NoHitIsMissed | src/dbg/breakpoint.cpp:57-78 | a breakpoint that covers the address is always found |
| BreakpointLookup.CoveredIsTaken | src/dbg/breakpoint.cpp:145 | a memory breakpoint without a name is not added where another one covers the address |
| BreakpointLookup.NewMemoryIsFoundIff | src/dbg/breakpoint.cpp:129-185 | a new memory breakpoint is found at its address exactly if it is not empty and does not reach the end of the address space |
| BreakpointLookup.LookupIsScanIff | src/dbg/breakpoint.cpp:57-78 | with disjoint breakpoints and hash ranges, the lookup agrees with a linear scan if and only if one of the address's own starts at or below it or the entry in front of the upper bound does not seem to cover it |
| BreakpointLookup.ForeignMatch | src/dbg/breakpoint.cpp:70-74 | an address without a breakpoint of its own is matched by a breakpoint of any module whose name has the smaller hash and that spans the same offset |
| BreakpointTable.BreakpointList.FindMemoryBreakpoint | src/dbg/breakpoint.cpp:57-78 | steps back once from the upper bound and tests the extent |
| BreakpointTable.BreakpointList.BpNew | src/dbg/breakpoint.cpp:129-185 | adds the breakpoint under its key, or fails on unreadable memory, an existing breakpoint or a taken key |
| BreakpointTable.BreakpointList.BpNewDll | src/dbg/breakpoint.cpp:187-207 | adds a DLL breakpoint under the hash of its file name unless taken |
| BreakpointTable.BreakpointList.safeDelete | src/dbg/breakpoint.cpp:350-361 | removes the entry and releases its log file |
| BreakpointTable.BreakpointList.BpDeleteCopy | src/dbg/breakpoint.cpp:375-390 | deletes the entry the copy stands for |
| BreakpointTable.BreakpointList.BpSetLogFile | src/dbg/breakpoint.cpp:526-542 | acquires the new log file before releasing the old one |
| BreakpointTable.BreakpointList.BpLogFileRelease | src/dbg/breakpoint.cpp:1041-1064 | counts down and drops the file at zero |
| BreakpointTable.BreakpointList.BpCacheLoad | src/dbg/breakpoint.cpp:947-1015 | loads every stored entry in order, later ones replacing earlier ones with the same key |
| BreakpointTable.BreakpointList.ReadEntry | src/dbg/breakpoint.cpp:962-1011 | builds the breakpoint and key of one stored entry |
| BreakpointTable.BreakpointList.BpRefList | src/dbg/breakpoint.cpp:1139-1167 | lists one reference for every entry |
| BreakIn.PausesAreRequested | src/dbg/debugger.cpp:2231-2256 | under every interleaving pauses never outnumber accepted requests, and a paused thread has a recorded or a null start address |
| BreakIn.PauseOrExitCleans | src/dbg/debugger.cpp:1821-1826 | an uninterrupted pause, or exit of the recorded thread, resets all three variables |
| BreakIn.RequestSurvivesIff | src/dbg/debugger.cpp:390-408 | wherever the debug loop is, an uninterrupted request is still pending with its address once the loop is idle if and only if it has one and the loop was not resetting; it ends clean exactly if the reset had not begun its stores, and stuck exactly if it had, or the request has no address and no thread was about to be recorded, and no other command is under way |
| BreakIn.RequestPausesIff | src/dbg/debugger.cpp:390-408 | at every reachable point, an uninterrupted request with no other pending leads to a pause on its thread if and only if it has a start address and the debug loop is not resetting the variables |
| BreakIn.InterruptedSurvivesIff | src/dbg/debugger.cpp:390-408 | a request that the debug loop interrupts anywhere survives if and only if it has a start address, no reset stores its first variable behind the first access and none its last behind the second |
| BreakIn.InterruptedPausesIff | src/dbg/debugger.cpp:1821-1826 | the same condition decides at every reachable point whether its thread is paused |
| BreakIn.NullAddressSticks | src/dbg/debugger.cpp:384-385 | a request whose entry point was not found leaves the protocol stuck, with the debug loop idle |
| BreakIn.DroppedByRestart | src/dbg/debugger.cpp:2237-2239 | a request accepted while the loop is idle is dropped by a reset that begins behind its second access |
| BreakIn.LateResetIsHarmless | src/dbg/debugger.cpp:2237-2239 | a reset that stores its last variable between the first two accesses leaves the request pending, though an uninterrupted one would be wiped out |
| BreakIn.FailedRequestWithdraws | src/dbg/debugger.cpp:400-406 | a request whose thread cannot be created resets everything and leaves the protocol open to the next |
| BreakIn.NextRequestPauses | src/dbg/debugger.cpp:390-408 | with no request pending and the debug loop idle, the next request spawns a thread whose breakpoint pauses, and everything is reset again |
| BreakIn.LostPause | src/dbg/debugger.cpp:2237-2239 | a request accepted during the reset of an earlier pause is wiped out |
| BreakIn.StuckForever | src/dbg/debugger.cpp:390-393 | after that no pause and no new request happens in any continuation until the debug loop restarts |
| BreakIn.NullStartPauses | src/dbg/debugger.cpp:1739-1741 | the start address is read twice, so a thread with a null start address can be taken for the break-in thread |
| DisasmBack.disasmback | src/dbg/disasm_helper.cpp:17-76 | returns the n-th last offset of the sweep, or its first; no ring slot is overwritten before it is needed |
| DisasmBack.disasmnext | src/dbg/disasm_helper.cpp:78-112 | decodes n instructions or up to the end of the data |
| DisasmBack.TakenToTheNearest | src/dbg/disasm_helper.cpp:32-39 | a count is taken to the nearest one from 0 to 127, an offset to the nearest one in the data |
| DisasmBack.SweepStartsBack | src/dbg/disasm_helper.cpp:45-51 | the sweep begins 16 bytes for each instruction and three more back, or at the start of the data |
| DisasmBack.BackThenNext | src/dbg/disasm_helper.cpp:17-112 | n instructions forwards from the result land on the first swept offset at or after the starting point, for instructions of at most `bound` bytes with that many bytes left or a sweep from the start of the data |
| DisasmBack.FarSweepSuffices | src/dbg/disasm_helper.cpp:45-51 | 16*(n+3) bytes from the start of the data the sweep sees more than n instructions |
| DisasmBack.TooFewMeansStart | src/dbg/disasm_helper.cpp:72-73 | if it sees fewer, the result is the start of the data |
| DisasmBack.LandsElsewhere | src/dbg/disasm_helper.cpp:59-62 | wherever that condition fails, some instructions of at most `bound` bytes make it land elsewhere |

## Left out

- Argument counts and numeric tokens are unbounded; the 64-bit wrap of an argument counter is not modelled.
- The 32-bit build of the expression evaluator; the trace models cover both builds.
- Shift counts of 64 and more, and dividing the smallest signed word by -1, are undefined in C++; the model takes the low six bits and wraps.
- Looking up, setting and creating variables, expression functions and string conversions are parameters of the evaluator; a variable that refuses a number and an expression function that fails are taken to change nothing.
- AssignmentLaws.AssignmentSucceedsIff: what a name denotes afterwards is up to the store of variables, which is a parameter.
- ExpressionEval.Calculate: the size, variable and hexadecimal flags that it also reports are not modelled.
- TraceReader.ReplayIsExact: recordings with complete writes; after a short write the file ends in a torn block, which the reader reports as an error.
- TraceRecorder.TraceRecordManager.TraceExecuteRecord: takes register and memory snapshots as inputs; operand resolution, file handles and the file header are left out.
- TraceReader.TraceFilePage.constructor: parses each block as a value before it fills the lists, so a page does not hold the parts of the block at which reading fails; recordings contain no user-defined blocks, which the reader skips.
- Pages are identified by their address instead of the hash of it, and byte types are stated for one page at a time; addresses do not wrap around.
- HitCounters.TraceRecordPages.TraceExecute: for sizes below 256, because the loop counter has eight bits; instructions have at most 15 bytes.
- CommandSplit.CmdSplit: what the `$` prefix evaluates to is a parameter.
- CommandParser.Command.constructor: reading arguments beyond the argument count, NUL characters and fixed-size argument buffers.
- Trimming a text of blanks only reads in front of the string in the INI code; the model returns the empty string.
- Utf8IniStore.Utf8Ini.Serialize: sections and keys in any order, where the code uses the sorted order of its maps.
- The breakpoint's `active` flag, hardware slots, reading JSON and lookups by name.
- BreakpointTable.BreakpointList.BpSetDetails: stands for all setters that rewrite one plain field.
- BreakpointTable.BreakpointList.BpNew: whether a name is taken is a parameter, and hardware fields are left out.
- BreakpointTable.BreakpointList.ReadEntry: takes the parsed entry; reading its text and the hardware slot are left out.
- BreakpointTable.BreakpointList.BpRefList: in some order, where the code sorts the references at the end.
- BreakpointLookup.LookupIsScan: for an address with one of its own at or below it; `LookupIsScanIff` has the other addresses.
- Module names are taken to be lower case, as they are for every module loaded with a full path.
- Log file handles, flushing and truncation.
- CallbackBatcher.EverythingDelivered: for runs in which every flush ends; several callbacks of one kind are one delivery; batch numbers do not wrap at 32 bits.
- BreakIn.InterruptedPausesIff: while no other pause command makes an access, and for requests whose thread is created; a request whose thread cannot be created takes itself back.
- BreakIn.PausesAreRequested: the rest of the debug loop and the other ways to pause; compare-and-exchange apart, every access is sequentially consistent, as the code's atomics are.
- DisasmBack.disasmback: needs data of at least one byte, and takes the size without the conversion to a 32-bit `int`.
- Range maps behind functions, arguments, loops and address colours, encode maps, the GUI, plugins, locks and database files.
