# The WebAssembly backend, in Dafny

A model of the compiled backend of the Deed language (`crates/deed-codegen`) and proofs about it:
the compiler from the typed mid-level IR to structured WebAssembly instructions, the validator,
the fuelled runner, the binary encoder, the Canonical ABI marshalling layer, and the helpers the
compiler emits into every module (strings, lists, numbers, comparison, hashing, handler frames and
allocation). The interpreter (`crates/deed-interp`) is modelled where the two engines are supposed
to agree.

How it is laid out:

- **Instructions and runs.** `Wasm`, `Validate` (the validation algorithm as functions), `Checker`
  (the class that mutates its stacks, proved to decide what `Validate` says), `Run` (the runner as
  functions), `Runner` (the class with fuel and memory, proved to compute what `Run` says), `Fuel`,
  `Soundness`, `Limits` (what goes wrong without each precondition of soundness), `Combinators`,
  `Operators` (what operators and single instructions come to).
- **The compiler.** `Ir` (the scalar IR and its meaning), `Compile` (what is emitted), `Builder`
  (the classes that emit it), `CompileChecks` (it validates), `Exact`, `Fates`, `CompileRuns`,
  `Simulation`, `CallsAndWalks`, `CompileMeans` (it does what the IR means), `Slots`, `Literals`,
  `Program`, `CompileTheorem` (the theorem for whole programs), `Starting` (the memory a program
  starts from), `ShortCircuit` (where interpreter and compiled code part over `and` and `or`),
  `Fitting` (programs whose literals always fit), `Euclid` (one program all the way through).
- **Bytes.** `Leb128`, `Encode`, `Writer`, `Sites`, `Known` (answers worked out by hand or given by
  a standard).
- **The Canonical ABI.** `Abi` (over shapes), `AbiTypes` (over a table of layouts),
  `AbiLayout`, `AbiRoundTrip`, `AbiErrors`, `AbiMemory`, `Crossing` (what the other side finds).
- **Emitted helpers over memory.** `Heap`, `Texts`, `Pieces`, `Splitting`, `SplitJoin`, `Joining`,
  `Numbers`, `Appending`, `Arriving`, `Boundary`, `Represented`, `Equality`, `Hashing`,
  `FieldOrder`, `HashEngines`, `HashApart`, `Handlers`, `Frames`, `WithBlocks`, and three helpers as
  the instructions they are: `HelperCode`, `HelperRuns`.

Code the source writes as loops over locals and memory is a method over a `Machine` whose memory
the method reassigns; each is tied to a function of the values involved, and the lemmas are about
those functions. `hide` statements inside proofs only keep them quick.

## Model

| member | source | states |
|---|---|---|
| `Checker.Checker.PopOne` | crates/deed-codegen/src/validate.rs:63-75 | popping at the frame's height gives an unknown value after unreachable code and is refused otherwise; above it, the top value goes |
| `Checker.Checker.CloseFrame` | crates/deed-codegen/src/validate.rs:133-151 | closing a block succeeds exactly when the end types are there and nothing else is |
| `Checker.Checker.BranchWhen` | crates/deed-codegen/src/validate.rs:162-169 | a conditional branch is accepted exactly when the condition and the label's types can be popped and pushed back |
| `Checker.Checker.Instruction` | crates/deed-codegen/src/validate.rs:171-371 | the mutating checker accepts an instruction exactly when the validation rules do, whose acceptance of each instruction the rows of `HelperCode` give, and its stacks are then what they say |
| `Checker.ValidateModule` | crates/deed-codegen/src/validate.rs:385-429 | a module is accepted exactly when every body checks and every table entry names a function |
| `Checker.NestedCloses` | crates/deed-codegen/src/validate.rs:121-151 | a nested body that checks leaves the stacks outside it as they were |
| `HelperCode.NumericAccepted` | crates/deed-codegen/src/validate.rs:294-329 | every numeric instruction is accepted, whatever is under them, on operands of the width its name gives it, and leaves one of the width it should |
| `HelperCode.MemoryAccepted` | crates/deed-codegen/src/validate.rs:330-368 | with memory every load and store is accepted on a narrow address, a word or a byte stored from an operand as wide as the store says |
| `HelperCode.MemoryNeeded` | crates/deed-codegen/src/validate.rs:330-368 | without memory none of them is |
| `HelperCode.WrongTop` | crates/deed-codegen/src/validate.rs:294-329 | a top operand of the other width is refused |
| `HelperCode.WrongUnder` | crates/deed-codegen/src/validate.rs:294-363 | so is the operand under it, of stores as well |
| `HelperCode.WrongWidth` | crates/deed-codegen/src/validate.rs:330-363 | an address or a byte of the other width is refused |
| `HelperCode.OthersAccepted` | crates/deed-codegen/src/validate.rs:248-293 | constants, locals and calls are accepted on exactly what they name, a call through the table on a narrow index above its arguments |
| `HelperCode.HoldersAccepted` | crates/deed-codegen/src/validate.rs:178-197 | a block or a loop of any result type is accepted around a body that leaves it |
| `HelperCode.ArmsAccepted` | crates/deed-codegen/src/validate.rs:198-223 | so is a choice around two arms, but one that has to leave something and has one arm |
| `Runner.Runner.Instruction` | crates/deed-codegen/src/run.rs:673-842 | one step of the mutating runner ends with the flow, memory, locals, stack and fuel the specification gives |
| `Runner.Runner.Arithmetic` | crates/deed-codegen/src/run.rs:860-901 | numeric instructions pop, trap and wrap as specified, and as the rows of `Operators` say that comes out |
| `Runner.Runner.Store` | crates/deed-codegen/src/run.rs:797-815 | a store changes exactly the bytes it covers, or traps out of bounds |
| `Runner.Runner.Grow` | crates/deed-codegen/src/run.rs:819-837 | growing answers the old size in pages, or -1 past the ceiling, and adds zeros |
| `Runner.RunOne` | crates/deed-codegen/src/run.rs:511-540 | a whole export run gives the value, the room taken, the steps and the memory the specification gives, or the same trap |
| `Run.Body` | crates/deed-codegen/src/run.rs:673-712 | a body never ends with more fuel than it began with, and jumping always costs some |
| `Fuel.BudgetOnlyCutsShort` | crates/deed-codegen/src/run.rs:511-540 | a run takes no more steps than its budget, and one that ends within a budget ends with the same value, memory, room and steps, or the same trap, within every larger one |
| `Fuel.ChecksOnlyStop` | crates/deed-codegen/src/run.rs:750-763 | looking for wrong signatures at table calls and for drops of nothing changes no run that it does not stop |
| `Operators.DivisionSplits` | crates/deed-codegen/src/run.rs:869-880 | division and remainder trap on zero, and otherwise make up the dividend again, the remainder nearer zero than the divisor and zero or on the side of the dividend; the one quotient out of range wraps with no remainder |
| `Operators.OneDivision` | crates/deed-codegen/src/run.rs:869-880 | and no other two numbers do |
| `Operators.ArithmeticWraps` | crates/deed-codegen/src/run.rs:860-901 | sums, differences and products are right up to a multiple of 2^32 or 2^64, by the width of the instruction |
| `Operators.ComparisonsOrder` | crates/deed-codegen/src/run.rs:881-886 | every comparison answers one or zero by the order of the integers |
| `Operators.TruthTables` | crates/deed-codegen/src/run.rs:887-888 | the two boolean operators and the test for zero have their truth tables |
| `Operators.WidensAndNarrows` | crates/deed-codegen/src/run.rs:783-790 | widening keeps a number and narrowing undoes it |
| `Operators.XorMeans` | crates/deed-codegen/src/run.rs:868 | a bit of an exclusive or is set exactly when it is set in one operand and not the other |
| `Operators.StoredIsLoaded` | crates/deed-codegen/src/run.rs:791-818 | what a store put at an address is what the load for it gets, a byte below 256, with no other byte changed, and out of bounds traps |
| `Operators.WordIsBytes` | crates/deed-codegen/src/run.rs:844-858 | a stored word is its eight bytes, lowest first |
| `Operators.LocalsKeep` | crates/deed-codegen/src/run.rs:764-772 | a local holds what it was last set to, a tee leaves it on the stack too, and other locals keep theirs |
| `Operators.GrowMeans` | crates/deed-codegen/src/run.rs:819-838 | memory grows by whole pages of zeros after what was there, answering how many there were, or not at all past 4096 |
| `Operators.TableIsDirect` | crates/deed-codegen/src/run.rs:750-763 | in a compiled program a call through the table by an index is a call of that index |
| `Operators.HostGets` | crates/deed-codegen/src/run.rs:640-655 | calling an import hands the host the arguments in order and the memory, and goes on with what it answers |
| `Operators.RoomReported` | crates/deed-codegen/src/run.rs:511-540 | the room a run reports is how far the word at address zero rose |
| `Soundness.BodySound` | crates/deed-codegen/src/validate.rs:171-371 | a body checked with tight branches, run from a state matching the checker's stack, ends in one matching the checker's stack after it, or branches with the label's types on top, or traps other than on an empty stack |
| `Soundness.TightBranch` | crates/deed-codegen/src/run.rs:711-737 | a branch whose operands above the target are exactly the label's types leaves the stack the target expects although nothing is cut back |
| `Soundness.RunsAreSound` | crates/deed-codegen/src/run.rs:511-842 | in a module validated with tight branches, host answers typed and no table call of the wrong signature, any run on typed arguments with any budget ends in a value of the declared type or a trap that is no empty stack, never an index out of range, and never drops from an empty stack |
| `Limits.LooseBranchChecks` | crates/deed-codegen/src/validate.rs:162-169 | a module with operands left under a branch passes the specified rules and fails the tight ones |
| `Limits.LooseBranchGoesWrong` | crates/deed-codegen/src/run.rs:711-737 | and running it answers a value of the wrong type |
| `Limits.TableCallChecks` | crates/deed-codegen/src/validate.rs:257-274 | a module whose table holds a function of another signature than its table call's passes the rules, tight ones included |
| `Limits.TableCallGoesWrong` | crates/deed-codegen/src/run.rs:750-763 | a validated module whose table call meets another signature answers a value of the wrong type |
| `Limits.TwoResultsCheck` | crates/deed-codegen/src/validate.rs:385-429 | so does one with a function of two results |
| `Limits.TwoResultsGoWrong` | crates/deed-codegen/src/run.rs:640-671 | a validated module with a two-result function finds an empty stack |
| `Limits.NestedMarkersCheck` | crates/deed-codegen/src/validate.rs:171-197 | one with a marker inside a marker passes the rules as specified, and not the tight ones |
| `Limits.NestedMarkersGoWrong` | crates/deed-codegen/src/run.rs:683-689 | a validated body with a marker inside a marker panics |
| `Combinators.CountToTurns` | crates/deed-codegen/src/runtime.rs:511-537 | counting validates with tight branches, and leaves the stack alone, around any body that validates there |
| `Combinators.WalkWhileTurns` | crates/deed-codegen/src/runtime.rs:453-472 | so does a walk, around any condition and body that validate |
| `Combinators.GrowToFitTurns` | crates/deed-codegen/src/runtime.rs:313-350 | and so does the growth loop in any module with memory |
| `Exact.SumTest` | crates/deed-codegen/src/compile.rs:918-944 | the emitted test on a wrapped sum holds exactly when the true sum is outside 64 bits |
| `Exact.DifferenceTest` | crates/deed-codegen/src/compile.rs:945-971 | the emitted test on a wrapped difference holds exactly when the true difference is outside 64 bits |
| `Exact.ProductTest` | crates/deed-codegen/src/compile.rs:972-1014 | dividing the wrapped product back finds exactly the products that wrapped, and that division never overflows itself |
| `Exact.QuotientTest` | crates/deed-codegen/src/compile.rs:1015-1042 | a quotient is outside 64 bits exactly for the least integer by -1 |
| `CompileRuns.CheckedOpRuns` | crates/deed-codegen/src/compile.rs:903-1042 | run on any pair of 64-bit integers, an operator's code answers the exact result in the IR's sense or traps with the arithmetic failure, exactly when the IR has no answer; for remainders `Operators.RemainderRuns` says which number that is |
| `Operators.RemainderMeans` | crates/deed-codegen/src/compile.rs:1015-1042 | of any two integers the quotient and the remainder of the IR are the two halves of one division, or both fail, for zero and for the least integer by -1 |
| `Operators.RemainderRuns` | crates/deed-codegen/src/compile.rs:1015-1042 | the code emitted for the two, run on the same pair, leaves those two halves or dies of the arithmetic failure |
| `Operators.SevenByTwo` | crates/deed-codegen/src/compile.rs:1015-1042 | seven by -2 is -3 and leaves 1, and -7 by 2 is -3 and leaves -1 |
| `Operators.ExactOrNone` | crates/deed-codegen/src/compile.rs:903-1014 | the sum, difference or product of the IR is exact, and there is none exactly when it is past 64 bits |
| `Operators.ComparesMean` | crates/deed-codegen/src/compile.rs:1774-1800 | the six comparisons of the IR are those of integers |
| `CompileRuns.NegationRuns` | crates/deed-codegen/src/compile.rs:887-902 | negation's code answers the exact result, and fails on the least integer only |
| `CompileRuns.FailDies` | crates/deed-codegen/src/compile.rs:1138-1163 | a contract failure stops the run with the code and message it names, read back from memory |
| `Slots.SlotsApart` | crates/deed-codegen/src/compile.rs:731-772 | two slots that have locals have different ones, however many unit slots are between |
| `Slots.SlotRepresented` | crates/deed-codegen/src/compile.rs:731-772 | a slot's local is the number of slots with a representation before it |
| `Simulation.ShowsOutside` | crates/deed-codegen/src/compile.rs:848-851 | writing a temporary changes no slot of the IR |
| `CompileChecks.BodyChecks` | crates/deed-codegen/src/compile.rs:1107-1189 | the body of every well-typed function of the scalar IR checks, with every branch tight |
| `CompileMeans.RunsExpr` | crates/deed-codegen/src/compile.rs:1362-1407 | the code of a scalar expression pushes the value the IR gives it and leaves the slots as the IR does, or fails, returns or runs on as the IR does |
| `CompileMeans.RunsStmt` | crates/deed-codegen/src/compile.rs:1122-1189 | so does a scalar statement's, early returns and walks included |
| `CompileMeans.RunsFunction` | crates/deed-codegen/src/compile.rs:68-270 | calling a compiled scalar function answers what the IR's call answers and leaves memory as it was, or fails the same way |
| `CompileTheorem.ProgramValidates` | crates/deed-codegen/src/compile.rs:68-270 | every well-typed scalar program compiles to a module that validates with tight branches |
| `CompileTheorem.ProgramWellFormed` | crates/deed-codegen/src/compile.rs:68-270 | so soundness applies to every compiled scalar program |
| `CompileTheorem.RunIsMeant` | crates/deed-codegen/src/run.rs:511-540 | within any budget an export of a compiled scalar program whose literals fit gives the IR's answer with memory untouched, stops with the IR's failure, or runs out |
| `CompileTheorem.MeantIsRun` | crates/deed-codegen/src/compile.rs:68-270 | whatever the scalar IR answers or fails with, the run of such a program does within every large enough budget |
| `CompileTheorem.SameMeaning` | crates/deed-codegen/src/compile.rs:68-270 | a compiled function of such a program and the IR function have exactly the same answers and the same failures |
| `Fitting.QuietFits` | crates/deed-codegen/src/compile.rs:664-700 | the literals of a program without contract failures of its own always fit |
| `Fitting.QuietSameMeaning` | crates/deed-codegen/src/compile.rs:68-270 | so such a program keeps its meaning with nothing asked but that it is well typed |
| `Euclid.CompiledDivisor` | crates/deed-codegen/src/compile.rs:68-270 | a program of a walk with remainders, an early return and nested calls, compiled and run on any two numbers that are not negative, answers with one that is divided by exactly what divides both |
| `Builder.LiteralTable.PlaceText` | crates/deed-codegen/src/compile.rs:677-690 | placing a literal answers where it was placed before, or the end, and records it once |
| `Builder.NumberSlots` | crates/deed-codegen/src/compile.rs:731-772 | the numbering loop gives each slot the local the specification does, and the locals beyond the parameters |
| `Builder.Builder.CompileOne` | crates/deed-codegen/src/compile.rs:1362-1407 | for a scalar expression the emitting builder appends exactly the instructions, locals, literals and sites that are proved correct |
| `Builder.CompileFunction` | crates/deed-codegen/src/compile.rs:731-772 | a whole scalar function's emission is the specified one |
| `Literals.MemoryReads` | crates/deed-codegen/src/compile.rs:664-700 | once the data section is written every literal can be read back: none overlaps another |
| `Starting.LiteralIsText` | crates/deed-codegen/src/compile.rs:664-700 | every literal of a compiled program is a string in the starting memory, its character count, byte count and bytes right |
| `Starting.LiteralReadsWhen` | crates/deed-codegen/src/run.rs:543-566 | in the starting memory of any compiled program, however long its literals, one reads back exactly when its room ends inside the sixteen pages |
| `Starting.StartIsSound` | crates/deed-codegen/src/compile.rs:68-270 | a compiled program starts with the heap in order above its literals and no handler installed |
| `ShortCircuit.FirstPlaceDecides` | crates/deed-codegen/src/compile.rs:1776-1788 | a whole run that evaluates both sides of every `and` and `or` means what the interpreter's does when no decided one on the way has a right side that fails, returns, runs on or assigns; and otherwise at the first such place the two engines differ |
| `ShortCircuit.RunsAsInterpreted` | crates/deed-interp/src/interp.rs:1853-1861 | a compiled run with no such place gives the interpreter's answer or failure |
| `ShortCircuit.GuardedNeverParts` | crates/deed-codegen/src/compile.rs:1396-1400 | a program whose right sides only compare, test and read never has such a place |
| `ShortCircuit.CompiledDivides` | crates/deed-codegen/src/compile.rs:1776-1788 | `false && 1 / 0 == 0` fails once compiled and is false when interpreted |
| `Operators.LazyDecides` | crates/deed-interp/src/interp.rs:1853-1861 | interpreted, a deciding left side is the answer whatever the right side would do, and otherwise the right side is |
| `Leb128.UnsignedReads` | crates/deed-codegen/src/wasm.rs:32-45 | reading what an unsigned number was written as gives the number and the bytes after it |
| `Leb128.SignedReads` | crates/deed-codegen/src/wasm.rs:47-58 | the same for signed numbers, of any size and sign |
| `Leb128.Widths` | crates/deed-codegen/src/wasm.rs:32-63 | an index and a narrow constant take at most five bytes and a wide constant ten |
| `Encode.AllReads` | crates/deed-codegen/src/wasm.rs:160-312 | parsing the bytes of any body gives the body back without its markers, stopping exactly at its end |
| `Encode.BytesDecideBody` | crates/deed-codegen/src/wasm.rs:160-312 | two bodies with the same bytes differ at most in their markers |
| `Encode.AllWalkCounts` | crates/deed-codegen/src/compile.rs:1057-1105 | the site walk finds each site at the number of bytes written before it |
| `Encode.CompressLocals` | crates/deed-codegen/src/wasm.rs:635-644 | the runs of locals expand back to the locals, and no two neighbours could be one |
| `Writer.Output.WriteUnsigned` | crates/deed-codegen/src/wasm.rs:32-45 | the emitting loop appends exactly the unsigned form and nothing else changes |
| `Writer.Output.WriteSigned` | crates/deed-codegen/src/wasm.rs:47-58 | the emitting loop appends exactly the signed form |
| `Writer.Output.Write` | crates/deed-codegen/src/wasm.rs:160-305 | an instruction is appended as the bytes that parse back to it |
| `Writer.InstructionSize` | crates/deed-codegen/src/wasm.rs:646-650 | the size of an instruction is the number of bytes it is written as |
| `Known.NumbersInRows` | crates/deed-codegen/src/wasm.rs:226-305 | every numeric instruction has the number its place in its row of the standard gives it |
| `Known.IndexedKnown` | crates/deed-codegen/src/wasm.rs:160-305 | branches, calls and locals are written as their standard numbers and then their index |
| `Known.AccessesKnown` | crates/deed-codegen/src/wasm.rs:160-305 | loads and stores as theirs, their alignment and their offset |
| `Known.HoldersKnown` | crates/deed-codegen/src/wasm.rs:160-305 | blocks, loops and choices start with theirs and their type, and end with the byte for an end |
| `Known.SinglesKnown` | crates/deed-codegen/src/wasm.rs:160-305 | and the rest as theirs alone |
| `Known.ConstantsKnown` | crates/deed-codegen/src/wasm.rs:160-305 | constants are theirs and then the signed form of the number |
| `Known.LoopKnown` | crates/deed-codegen/src/wasm.rs:160-305 | a loop in a block, byte for byte |
| `Known.LebKnown` | crates/deed-codegen/src/wasm.rs:32-58 | the usual examples of both variable-length forms |
| `Sites.BodyInOrder` | crates/deed-codegen/src/compile.rs:1044-1055 | compiling a scalar body hands out source sites in the order their instructions appear, none twice |
| `Sites.FinishSites` | crates/deed-codegen/src/compile.rs:1057-1105 | the table of a compiled scalar body misses no site, and each offset is the number of bytes encoded before its instruction |
| `AbiLayout.RecordFits` | crates/deed-codegen/src/abi.rs:215-232 | a record's fields, each at its alignment, end inside its size |
| `AbiLayout.ChoiceFits` | crates/deed-codegen/src/abi.rs:215-265 | a choice's discriminant is before its payload and every variant's payload is inside its size |
| `AbiLayout.StandardIsWidest` | crates/deed-codegen/src/abi.rs:184-247 | the standard's alignment of any type is the one here or its widest discriminant's, whichever is more |
| `AbiLayout.AlignmentAgrees` | crates/deed-codegen/src/abi.rs:234-237 | a type is aligned as the standard says exactly when no discriminant in it, outside its lists, is wider than its alignment here |
| `AbiLayout.LayoutAgrees` | crates/deed-codegen/src/abi.rs:167-265 | a type and everything in it is aligned and sized as the standard says exactly when every choice's discriminant is no wider than what that choice carries |
| `AbiLayout.ChoiceSize` | crates/deed-codegen/src/abi.rs:215-232 | a choice whose variants are laid out as the standard says has the standard's size exactly when its discriminant is no wider than what it carries or divides the largest of it |
| `AbiLayout.FewAgree` | crates/deed-codegen/src/abi.rs:205-247 | with at most 256 variants in every choice everything is laid out as the standard says |
| `AbiLayout.TooManyVariants` | crates/deed-codegen/src/abi.rs:234-237 | 257 variants with nothing to carry are aligned to 1, where the standard says 2 |
| `AbiLayout.TooManyBooleans` | crates/deed-codegen/src/abi.rs:215-237 | 257 variants carrying a boolean take 3 bytes, where the standard says 4 |
| `AbiRoundTrip.MemoryRoundTrip` | crates/deed-codegen/src/abi.rs:574-673 | a value of any resolved shape lowered to an aligned reserved address lifts back from there, in any later memory that keeps its bytes, and nothing outside its room and what was allocated for it changed |
| `AbiRoundTrip.FlatTypes` | crates/deed-codegen/src/abi.rs:435-570 | lowered arguments have exactly the flattened types |
| `AbiRoundTrip.PaddedCarries` | crates/deed-codegen/src/abi.rs:784-793 | widening and zero padding into the joined slots is undone by coercing to the variant's own types |
| `AbiRoundTrip.FlatRoundTrip` | crates/deed-codegen/src/abi.rs:686-782 | flat arguments of a resolved shape lift back to the value, through nested variants, joins and padding |
| `AbiRoundTrip.RoundTrip` | crates/deed-codegen/src/abi.rs:417-433 | up to 16 flat values lowering gives arguments of the flattened types that lifting turns back; above that it gives one address whose memory lifts back; and nothing already there is disturbed |
| `AbiTypes.TypeIsShape` | crates/deed-codegen/src/abi.rs:90-138 | in a table of layouts none of which holds itself, a value has a type exactly when it has the shape the type resolves to |
| `AbiTypes.FlattenIsFlat` | crates/deed-codegen/src/abi.rs:90-165 | flattening a type through the table, variants joined slot by slot, gives the flat form of its shape, or refuses for the same unsupported type |
| `AbiTypes.TypeThroughMemory` | crates/deed-codegen/src/abi.rs:574-673 | every value of every such type lifts back from the memory it was lowered to |
| `AbiTypes.TypeRoundTrip` | crates/deed-codegen/src/abi.rs:417-433 | and from the arguments it was lowered to, which have the types the table flattens its type to, or from the one address that stands for them |
| `Crossing.ArgumentsAre` | crates/deed-codegen/src/abi.rs:417-433 | a value whose type flattens to up to sixteen arguments goes as exactly those, and any other as one |
| `Crossing.SixteenNumbers` | crates/deed-codegen/src/abi.rs:78-81 | sixteen numbers go as sixteen arguments |
| `Crossing.SeventeenNumbers` | crates/deed-codegen/src/abi.rs:78-81 | seventeen go as one address |
| `Crossing.LiftsWhatIsSpelled` | crates/deed-codegen/src/abi.rs:795-900 | lifting out of memory gives a value exactly when the bytes spell it, by an account of the format that lifts nothing |
| `Crossing.LoweredIsSpelled` | crates/deed-codegen/src/abi.rs:574-673 | what was lowered into memory is the one value its bytes spell |
| `Crossing.AddressSpells` | crates/deed-codegen/src/abi.rs:417-433 | a value too long to go one by one is spelled at the address that goes instead |
| `Crossing.TextArguments` | crates/deed-codegen/src/abi.rs:435-534 | a string goes as where its bytes are and how many |
| `Crossing.ResultArguments` | crates/deed-codegen/src/abi.rs:435-570 | a result of a number or a boolean goes as zero or one and a wide slot |
| `Crossing.BooleanThenNumber` | crates/deed-codegen/src/abi.rs:167-265 | a boolean and a number take sixteen bytes, the number in the last eight |
| `AbiErrors.LowerNeedsRoom` | crates/deed-codegen/src/abi.rs:417-433 | lowering a value of its type succeeds exactly when the type holds nothing unsupported and the end of what has to be allocated, worked out from the value alone, is inside memory, and allocation then ends there; otherwise the error is the unsupported type, or out of bounds |
| `AbiMemory.Memory.AllocRoom` | crates/deed-codegen/src/abi.rs:375-383 | room is aligned, past everything handed out, and refused exactly when it would end past the memory |
| `AbiMemory.Memory.WriteBytes` | crates/deed-codegen/src/abi.rs:385-392 | the array holds the new bytes where they were put and the old ones elsewhere |
| `AbiMemory.Memory.LowerAt` | crates/deed-codegen/src/abi.rs:574-667 | the in-place buffer ends exactly as the round trip is proved for |
| `AbiMemory.Memory.LowerValue` | crates/deed-codegen/src/abi.rs:417-433 | the whole in-place lowering is the one the round trip and `Crossing` are proved for, errors included |
| `AbiMemory.WidenAndPad` | crates/deed-codegen/src/abi.rs:536-570 | each argument is widened to its slot and the slots left over are zeros of their type |
| `Heap.Machine.GrowToFit` | crates/deed-codegen/src/runtime.rs:313-350 | the growth loop ends, keeps every byte, and succeeds exactly when the bump pointer is within the ceiling |
| `Heap.Machine.Allocate` | crates/deed-codegen/src/runtime.rs:355-370 | room starts where the bump pointer was, everything before it is untouched, and it is refused exactly when it ends past the ceiling |
| `Texts.SameText` | crates/deed-codegen/src/runtime.rs:545-583 | two strings in memory compare equal exactly when they are the same text |
| `HelperCode.SameTextChecks` | crates/deed-codegen/src/runtime.rs:545-581 | the emitted instructions of the comparison validate, with tight branches, in any module with memory |
| `HelperRuns.SameTextCalls` | crates/deed-codegen/src/runtime.rs:545-581 | calling them on any two strings in memory answers one or zero, by whether they are the same text, and leaves memory alone |
| `Texts.OrderTotal` | crates/deed-codegen/src/runtime.rs:640-652 | byte order is a total order |
| `Texts.CompareText` | crates/deed-codegen/src/runtime.rs:647-733 | the comparison loop answers that order |
| `Known.OrderMeans` | crates/deed-codegen/src/runtime.rs:642-652 | a text is before another exactly when it is a shorter beginning of it or has the smaller byte where they first part |
| `Texts.Concat` | crates/deed-codegen/src/runtime.rs:735-814 | joining two strings makes a string that is one after the other, both counts right, nothing before it touched, and traps exactly when there is no room |
| `HelperCode.CopyTurns` | crates/deed-codegen/src/runtime.rs:778-787 | the emitted loop that copies a string validates |
| `HelperRuns.CopyMeets` | crates/deed-codegen/src/runtime.rs:778-787 | and run on any string puts its bytes there and touches no other |
| `Pieces.FindsFirst` | crates/deed-codegen/src/runtime.rs:1370-1435 | what searching finds is no later than any occurrence |
| `Pieces.JoinsSplit` | crates/deed-codegen/src/runtime.rs:1447-1788 | joining what was split gives the text back for every separator that is not empty, and for the empty one exactly when the text does not start inside a character |
| `Pieces.PiecesFree` | crates/deed-codegen/src/runtime.rs:1447-1632 | no piece cut on a separator holds it |
| `Known.SplitKnown` | crates/deed-codegen/src/runtime.rs:1447-1788 | `a-b-` cut on `-` is `a`, `b` and nothing, and joins again |
| `Splitting.Search` | crates/deed-codegen/src/runtime.rs:1370-1435 | the search loop answers the first occurrence of any needle, the empty one included, at or after a place, or -1 |
| `Splitting.Slice` | crates/deed-codegen/src/runtime.rs:1278-1364 | a slice is a string of those bytes, its characters counted while copying |
| `SplitJoin.CountPieces` | crates/deed-codegen/src/runtime.rs:1447-1520 | the counting walk finds exactly as many pieces as the cutting walk writes |
| `SplitJoin.SplitText` | crates/deed-codegen/src/runtime.rs:1447-1632 | splitting leaves a list of exactly the pieces, nothing before it touched, and traps exactly when the list and the pieces do not fit |
| `Joining.MeasureAll` | crates/deed-codegen/src/runtime.rs:1659-1708 | the measuring walk has the answer's byte and character counts, wrapped to 32 bits |
| `Joining.JoinText` | crates/deed-codegen/src/runtime.rs:1639-1788 | joining leaves the pieces with the separator between, and traps exactly when that does not fit, totals whose count wraps included |
| `Joining.SplitThenJoin` | crates/deed-codegen/src/runtime.rs:1447-1788 | run one after the other in memory, splitting and joining leave the string there was |
| `Numbers.PrintedReads` | crates/deed-codegen/src/runtime.rs:821-964 | every 64-bit integer printed reads back as itself, the least included |
| `Known.PrintedKnown` | crates/deed-codegen/src/runtime.rs:821-964 | 0, 9 and -1205 are printed as they are written |
| `Numbers.ReadsDecimals` | crates/deed-codegen/src/runtime.rs:1961-2120 | text that does not start with both signs is read exactly when it is a decimal that fits in 64 bits, and as that number |
| `Numbers.ReadsExactly` | crates/deed-codegen/src/runtime.rs:1961-2120 | for every text, reading accepts exactly the decimals that fit in 64 bits unless the text is `-+` and digits that make a number no larger than 2^63; that family is read with the minus alone |
| `Numbers.ReadsTwoSigns` | crates/deed-codegen/src/runtime.rs:1996-2016 | `-+5` is such a text, and is read as -5 |
| `Numbers.NumberText` | crates/deed-codegen/src/runtime.rs:821-964 | a string of the printed number is made in exactly the room it takes |
| `Numbers.TextNumber` | crates/deed-codegen/src/runtime.rs:1961-2120 | the helper answers the number text reads as, or none; it traps exactly when a byte a sign test loads is past the end of memory |
| `Numbers.StopsOnNothing` | crates/deed-codegen/src/runtime.rs:1990-2020 | for a string on a word boundary in an orderly memory, that happens exactly when it is empty and its counts are the last sixteen bytes |
| `Numbers.NothingAtTheEnd` | crates/deed-codegen/src/runtime.rs:1990-2020 | there is an orderly memory with an empty string there |
| `Appending.ListExtended` | crates/deed-codegen/src/runtime.rs:1044-1099 | pushing makes a new list one longer and leaves the old one |
| `Appending.ListWithRoom` | crates/deed-codegen/src/runtime.rs:1107-1130 | a list of no elements with space for a count of them, or for none when the count is negative |
| `Appending.ListWithRoomFrom` | crates/deed-codegen/src/runtime.rs:1138-1198 | the elements in a new block with words to spare, the original untouched |
| `Appending.ListAppended` | crates/deed-codegen/src/runtime.rs:1206-1237 | the list is one longer where it stands and no byte outside its block changes |
| `Appending.WalkByCopy` | crates/deed-codegen/src/runtime.rs:1044-1099 | any run of pushes and other allocations ends with the list and every push on it |
| `Appending.WalkInPlace` | crates/deed-codegen/src/runtime.rs:1206-1237 | so does filling in place, for as many pushes as there is room, with nothing outside the block touched |
| `Appending.WalkFrom` | crates/deed-codegen/src/runtime.rs:1138-1237 | a walk from a list that is still held ends with the list copying would, and the held list is as it was |
| `Appending.NoMoreRoom` | crates/deed-codegen/src/runtime.rs:1044-1237 | filling in place never needs more memory than copying |
| `Appending.ReadList` | crates/deed-codegen/src/compile.rs:1752-1771 | reading a list gives its length and the element at an index |
| `Boundary.Reallocate` | crates/deed-codegen/src/adapter.rs:197-264 | room on a word boundary with as much copied over as both sizes allow, or a trap exactly for an alignment past a word or no memory; a size of 2^31 or more counts as negative and only moves the bump pointer back |
| `Boundary.ServedApart` | crates/deed-codegen/src/adapter.rs:197-264 | everything a run of requests is given starts on a word and ends before the next begins |
| `Boundary.ServedWhen` | crates/deed-codegen/src/adapter.rs:197-264 | a run of requests is served exactly when all of them together fit and none asks for more than the alignment of a word |
| `Boundary.ServeAll` | crates/deed-codegen/src/runtime.rs:313-406 | a run of allocations and moves is given exactly those regions or traps, each move having carried what it could, nothing before touched |
| `Arriving.LowerText` | crates/deed-codegen/src/adapter.rs:424-476 | a pointer and a length become a string of those bytes with both counts right |
| `Arriving.LowerNumbers` | crates/deed-codegen/src/adapter.rs:371-412 | a pointer and a length become a list of those words |
| `Arriving.WriteText` | crates/deed-codegen/src/run.rs:211-264 | a host's text is a string with both counts right, or nothing when the memory there is has no room |
| `Arriving.CasedCharacters` | crates/deed-codegen/src/runtime.rs:1890-1953 | changing case changes neither count |
| `Arriving.CasedTwice` | crates/deed-codegen/src/runtime.rs:1890-1953 | changing case twice is changing it once, the last way |
| `Known.CasedAt` | crates/deed-codegen/src/runtime.rs:1890-1953 | byte by byte, a letter of the other case becomes the one thirty-two away and nothing else changes |
| `Known.CharactersStart` | crates/deed-codegen/src/runtime.rs:436-449 | the characters of a text are the bytes outside 0x80 to 0xbf |
| `Known.LaidKnown` | crates/deed-codegen/src/layout.rs:124-132 | a string is two counts of a word, its bytes, and zeros to the next word |
| `Known.PlacesKnown` | crates/deed-codegen/src/layout.rs:35-122 | where the reserved words are and what values on the heap take |
| `Arriving.CaseText` | crates/deed-codegen/src/runtime.rs:1890-1953 | `upper` and `lower` make a string with the twenty-six letters in that case and all else as it was |
| `Equality.SameWordsAs` | crates/deed-codegen/src/equality.rs:140-277 | for any heap and any layouts, mutually recursive or not, the emitted comparison answers true exactly when two words represent the same value |
| `Equality.CloseOver` | crates/deed-codegen/src/equality.rs:39-70 | the worklist ends with the smallest set of shapes that has the ones asked for and every walked shape those hold |
| `Hashing.HashWord` | crates/deed-codegen/src/hashing.rs:73-241 | the emitted hash depends only on the running hash and the value represented, and on all of it by `HashApart.OneApartHashesApart` |
| `Hashing.HashText` | crates/deed-codegen/src/runtime.rs:592-640 | a string's hash is its character count and then its bytes |
| `HelperCode.HashTextChecks` | crates/deed-codegen/src/runtime.rs:592-640 | the emitted instructions of the string hash validate |
| `HelperRuns.HashTextCalls` | crates/deed-codegen/src/runtime.rs:592-640 | and calling them answers the running hash with the string taken in |
| `HashApart.TextsDiffer` | crates/deed-codegen/src/runtime.rs:614-637 | from any running hash, texts of as many characters that differ in one byte never hash alike |
| `HashApart.TextsHashed` | crates/deed-codegen/src/runtime.rs:592-640 | so two calls of the helper on such strings answer two numbers |
| `HashApart.WordsApart` | crates/deed-rt/src/hashing.rs:72-75 | nor do two words lead to one hash |
| `HashApart.FoldedApart` | crates/deed-codegen/src/hashing.rs:73-241 | two running hashes stay apart whatever value both take in |
| `HashApart.OneApartHashesApart` | crates/deed-codegen/src/hashing.rs:73-241 | values of one type that differ in a single number, truth value or byte of text, however deep in them, never hash alike |
| `HashApart.ValuesHashed` | crates/deed-codegen/src/compile.rs:1683-1713 | so two calls of `hash` on such values answer two numbers |
| `HashApart.NamesDiffer` | crates/deed-codegen/src/hashing.rs:88-94 | nor do variants without fields whose names differ in a byte |
| `HashApart.Published` | crates/deed-rt/src/hashing.rs:117-123 | the fold has the published answers for nothing and for `a` |
| `Hashing.StandsForOne` | crates/deed-codegen/src/layout.rs:1-31 | a word represents at most one value of its type |
| `FieldOrder.DeclaredInAnyOrder` | crates/deed-codegen/src/hashing.rs:159-189 | the same fields with the same values hash alike whatever order they are declared in |
| `HashEngines.TreeIsSorted` | crates/deed-interp/src/interp.rs:550-572 | sorting fields by name and keeping them in a tree by name give the same order |
| `HashEngines.AbsorbedApart` | crates/deed-codegen/src/hashing.rs:73-100 | after taking in the same word two running hashes are equal exactly when they were before |
| `HashEngines.EnginesAgreeWhen` | crates/deed-interp/src/interp.rs:526-580 | for any value standing in memory the two hashes are equal exactly when its type is not the bare unit and the two running hashes are equal going into its last result, if it has one |
| `HashEngines.EnginesAgree` | crates/deed-interp/src/interp.rs:526-580 | a value with no result in it, other than the bare unit, has the same hash compiled and interpreted |
| `HashEngines.EnginesDiffer` | crates/deed-interp/src/interp.rs:573-576 | a value with an odd number of results in it never has |
| `HashEngines.NothingDiffers` | crates/deed-codegen/src/compile.rs:1707-1712 | nor does the unit value |
| `HashEngines.CompareAndHash` | crates/deed-codegen/src/hashing.rs:1-20 | whenever the comparison says equal the two hashes are equal |
| `Handlers.Innermost` | crates/deed-codegen/src/compile.rs:1516-1560 | the handler that answers has the effect, and none inside it has |
| `Handlers.PerformsItsOwn` | crates/deed-codegen/src/compile.rs:1562-1593 | performing an operation calls exactly its own code, of the innermost handler for the effect, under any handlers for other effects |
| `Handlers.SecondOperation` | crates/deed-codegen/src/compile.rs:1562-1593 | two operations of one handler call two codes |
| `Handlers.WrittenIsSeen` | crates/deed-codegen/src/compile.rs:1190-1211 | what an operation writes to a field is what it reads there, and no other field or handler changes |
| `Handlers.StateLasts` | crates/deed-codegen/src/compile.rs:1190-1211 | and what the next operation of that handler reads |
| `Handlers.StackKept` | crates/deed-codegen/src/compile.rs:1439-1510 | over any nesting of blocks, calls and performs, the handlers a run found are where they were, under exactly those that returns went past |
| `Handlers.ReturnedHandlerAnswers` | crates/deed-codegen/src/compile.rs:1164-1167 | after a function returns from inside a block, the block's handler still answers where there should be none |
| `Handlers.LastAsMeant` | crates/deed-codegen/src/compile.rs:792-822 | a run in which the host is only asked at the very end of a function does what it would do if its answer were used in place |
| `Handlers.AskEnds` | crates/deed-codegen/src/compile.rs:819-820 | an operation the host answers ends the function there, so the run is the meant one exactly when everything after the operation does nothing anybody sees |
| `Handlers.AskThenMake` | crates/deed-codegen/src/compile.rs:819-820 | asking the host and then making a value makes no value |
| `Frames.StateWritten` | crates/deed-codegen/src/compile.rs:1190-1211 | writing a field of a handler's state changes that handler's state and no frame |
| `Frames.ReadMade` | crates/deed-codegen/src/compile.rs:1439-1593 | the values a run made are read back from where the heap ended before it |
| `WithBlocks.Install` | crates/deed-codegen/src/compile.rs:1439-1495 | state and frame go on the frame stack below the heap and are linked innermost, or it traps exactly when they do not fit |
| `WithBlocks.InstallThenPerform` | crates/deed-codegen/src/compile.rs:1439-1593 | after installing a handler over any others, performing each operation calls the code installed for it |
| `WithBlocks.FindHandler` | crates/deed-codegen/src/compile.rs:1516-1556 | the walk down the linked frames ends at the innermost handler for the effect, or at none |
| `WithBlocks.Unlink` | crates/deed-codegen/src/compile.rs:1496-1510 | ending a block puts back the frame under its own and the frame stack's mark |
| `WithBlocks.Run` | crates/deed-codegen/src/compile.rs:1439-1593 | the emitted code over linked frames does what the stack of handlers says, operations answered by the host included: same calls, same questions, same state read and written, same traps, values on the heap intact |
| `WithBlocks.WordsRestored` | crates/deed-codegen/src/compile.rs:1496-1510 | a run puts each of the two frame words back exactly when it leaves no handler behind |

## Findings

What the proofs show the code does not do, with the input and the exact condition:

- **`and` and `or` evaluate both sides once compiled** (`ShortCircuit`). `false && 1 / 0 == 0` is
  false when interpreted and an arithmetic failure once compiled. A compiled run is the interpreted
  one when, at every `and` or `or` whose left side decides, the right side gives a value and assigns
  nothing; at the first place where it does not, the engines differ.
- **A `Result` hashes differently in the two engines** (`HashEngines.EnginesAgreeWhen`). The compiled
  fold takes in the variant's name, the field count and the field's name; the interpreter takes in
  one word. Two running hashes that differ stay apart whatever follows, so a value's hashes agree
  exactly when the running ones do going into its last result. With an odd number of results they
  never do, with none they do, except for the bare unit value.
- **Alignment and size of large choices differ from the Canonical ABI** (`AbiLayout`). A choice is
  not aligned to its own discriminant. Alignment is the standard's exactly when no discriminant is
  wider than the type's alignment; everything in a type is laid out as the standard says exactly
  when no choice has a discriminant wider than what it carries. 257 variants are enough to differ.
- **`to_int` reads `-+5`** (`Numbers.ReadsExactly`): it is right about a text if and only if the text
  is not `-+` followed by digits that make a number up to 2^63. It also **traps on an empty text in
  the last sixteen bytes of memory** (`Numbers.StopsOnNothing`), and on no other text there can be,
  because each sign test looks at the next byte before asking whether there is one.
- **A `return` inside a `with` block leaves the handler installed** (`Handlers`, `WithBlocks`). The
  frame stays linked and its room stays taken until a block around it ends, and the handler answers
  operations performed after the function has gone.
- **An operation answered by the host returns from the function that performs it** (`Handlers`).
  Asking the host and then making a value makes no value. The run is the meant one if and only if
  nothing after the operation does anything (`Handlers.AskEnds`); asking last is enough.
- **Literals past the sixteen starting pages are not there to read** (`Starting.LiteralReadsWhen`).
  Nothing refuses such a program; each literal reads back if and only if its room ends inside them.
- **A caller that reallocates to 2^31 bytes or more moves the heap back** (`Boundary.Reallocate`): the
  size is taken as negative, so the bump pointer ends below the address handed out, if and only if
  the size is not one of the seven largest, and what is allocated next overlaps what was.
- **The runner relies on more than the validator checks** (`Limits`): tight branches, signatures at
  table calls, at most one result, no nested markers. Each has a validated module that goes wrong.
- **The documentation says otherwise**: `design/02-syntax.md:107` promises short circuits, and
  `crates/deed-rt/src/hashing.rs` says the engines have to agree on a hash. The code is followed.

## Left out

- Soundness.RunsAreSound: asks for tight branches and at most one result, which `validate.rs` does not check, because the runner does not cut the stack at a branch (`Limits.LooseBranchGoesWrong`) and takes one value off it (`Limits.TwoResultsGoWrong`); that emitted code has them is `CompileTheorem.ProgramValidates`.
- Soundness.BodySound: asks for tight branches, for the same reason.
- CompileTheorem.SameMeaning: covers the scalar IR only (unit, booleans, integers, locals, operators, calls, blocks, walks, returns, failures); strings, lists, aggregates, closures, capabilities, effects, host calls and generics of the IR are modelled as emitted helpers over memory, not as IR. Literals have to end inside the starting memory, since a failure whose text is past them cannot be read back (`Starting.LiteralReadsWhen`); those of a program that states no failures of its own always do (`Fitting.QuietFits`).
- CompileTheorem.RunIsMeant: the same scalar IR, with literals that fit in sixteen pages.
- CompileTheorem.MeantIsRun: the same scalar IR, with literals that fit in sixteen pages.
- CompileTheorem.ProgramValidates: the same scalar IR.
- CompileTheorem.ProgramWellFormed: the same scalar IR.
- CompileMeans.RunsExpr: the same scalar IR.
- CompileMeans.RunsStmt: the same scalar IR.
- CompileMeans.RunsFunction: the same scalar IR.
- CompileChecks.BodyChecks: the same scalar IR.
- Builder.Builder.CompileOne: the same scalar IR.
- Builder.CompileFunction: the same scalar IR.
- Sites.BodyInOrder: the same scalar IR.
- Sites.FinishSites: the same scalar IR.
- WithBlocks.Run: a run is the tree of blocks, calls and operations it goes through. State words are given rather than evaluated in place.
- AbiRoundTrip.RoundTrip: list counts and discriminants are below 2^31; nothing is claimed of lifting arguments that were not lowered, and a discriminant out of range is an error here and not a panic.
- AbiRoundTrip.MemoryRoundTrip: is about resolved shapes, with counts and discriminants below 2^31; `AbiTypes.TypeThroughMemory` says it of types in a table.
- AbiRoundTrip.FlatRoundTrip: is about resolved shapes, with counts and discriminants below 2^31; `AbiTypes.TypeRoundTrip` says it of types in a table.
- AbiTypes.TypeRoundTrip: no layout of the table holds itself, not even through the elements of a list; flattening one that does would not end in the source either.
- HelperRuns.SameTextCalls: of the helpers only `str_eq`, `str_hash` and the copying of `str_concat` are modelled instruction by instruction; the others are methods that do what their instructions do.
- HashApart.OneApartHashesApart: nothing is said of values that differ in more than one place, which may collide, nor of texts with different numbers of characters.
- HashEngines.EnginesAgreeWhen: a declared choice that spells itself as a result is taken for one.
- Traps carry no source spans, and blame for a failure is not moved to its caller. Reading a string back from memory does not check that it is UTF-8; characters are bytes that do not continue one.
- Negative addresses are out of bounds. `i32.store` writes eight bytes in the runner's own model, as the runner does. `i32.and` and `i32.or` are boolean, as the runner reads them.
- A pop of an empty stack is a trap of its own here, where the runner reports it as unreachable code; a call with too few operands is a panic.
- 32-bit indices of instructions and locals are natural numbers; host functions are functions of the index, the arguments and the memory.
- Section framing of a module, imports, exports, names and the component wrapper (`component.rs`, `Module::encode`, `adapt`) are not modelled, nor are `grant.rs`, the command line, the debugger and the editors.
- `trim`, `repeat` and character counts of text that is not UTF-8 would add only easy members.
