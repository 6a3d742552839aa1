# Lama: a verification model

Lama is a small language with a compiler to a stack machine, a bytecode format with an interpreter, two garbage
collectors and a standard library. This project models the parts on which everything else rests and proves what they
are for.

- **Mark-compact collector** (`HeapLayout`, `ThreadedQueue`, `MarkPhase`, `Sliding`, `Redirection`, `Bytes`,
  `Relocation`, `Compaction`, `ObjectFormat`, `MarkCompact`, `Observation`). The heap is one array of words with two
  header words per object; the mark queue runs through the forward words of the heap's own objects. Class `Collector`
  follows `runtime/gc.c` step by step; its methods are proved against predicates on snapshots of the heap. What a whole
  collection keeps is also said in terms of header bits alone: the least set of objects that roots and items lead to.
  It cannot be observed by following fields from roots, and leaves the heap ready for the next operation.
- **Copying collector** (`CopyingHeap`, `CopyingPass`, `CopyingOutcome`, `CopyingFormat`, `CopyingCollector`). Class
  `Spaces` follows `runtime32/runtime.c`: a recursive copy that leaves the new address in the old header, roots,
  growing spaces and the second collection when a space cannot grow.
- **Compiler** (`LamaValues`, `LamaSource`, `WellFormedness`, `StackMachine`, `Compiler`, `CodeShape`,
  `Correspondence`, `Execution`, `PatternCompilation`, `ScopeCompilation`, `Simulation`, `CompilerCorrectness`,
  `ProgramCorrectness`). For the first-order language the code generated with exit labels does what the source
  evaluator does. What evaluator and machine have in common is pinned by laws of its own (`OperatorLaws`: operators;
  `ValueLaws`: elements, builtins, states; `EvaluatorLaws`: results do not depend on fuel, loops, scopes).
- **Captured variables** (`ClosurePropagation`, `ClosureFixing`). The fixpoint over calls ends, and gives each call of
  a nested function the variables the function captures; the last pass puts them into the code and makes calls of
  functions that capture nothing direct, without changing what they do.
- **Bytecode** (`ByteFormat`, `Translation`, `OpcodeMeaning`, `Assembler`, `Linking`). The assembler's bytes decode to
  operations that mean, by the dispatch of their readers, what the instructions say, labels included; compiled programs
  are never refused.
- **Bytecode interpreter** (`RuntimeCalls`, `FlatMemory`, `Interpretation`, `Interpreter`). Class `Worker` keeps
  operands, linkage, locals and scope records in one downward stack, calls the runtime for tags, strings, elements,
  operators and builtins, and refines the machine with its separate stacks on every step at which the runtime does
  what the machine does. For each of these operations it is stated exactly when it does.
- **From source to interpreter** (`DepthPlans`, `BalancedCode`, `Portability`, `EndToEnd`). Compiled code is balanced,
  which is what the interpreter needs; if its text is portable and its run mild, compiling and interpreting prints
  what the source evaluator prints.
- **Library and runtime algorithms** (`OrderedTrees`, `Collections`, `FlatKeys`, `Bisimulation`, `GraphDirection`,
  `GraphEquality`, `StructuralOrder`, `StructuralHash`). AVL trees with lazy removal, maps and sets; equality of cyclic
  graphs by union-find over a map ordered by flat comparison; structural comparison and hashing, with what makes a
  value less than another and what makes hashes differ.

`dafny verify dfyconfig.toml` checks everything.

## How things are represented

- Words of the mark-compact heap are natural numbers, addresses multiples of 8; flag bits and forward addresses are
  the arithmetic the macros of `runtime/gc.h` do. Roots are one area of slots: stack, global data and extra roots
  outside the stack. The address of a new chunk is a parameter, of which only that it overlaps nothing is required.
  The scan that fixes references goes one word further than the scan that marks (runtime/gc.c:244 and 463); that word
  must not refer to the heap unless it is a root otherwise. `RootRedirectedUnlessOverlooked` states which root slots
  the fixing scan misses: extra roots on the stack between the bounds are taken as fixed already.
- In the copying collector `mmap` and `mremap` are functions about which only is required that they give out
  addresses not in use. Even words that are no references are allowed as long as they lie in no space (`outsiders`).
- The source evaluator takes fuel; a result is that of a terminating run, the same for any fuel that suffices. The unit
  value is not used as an operand; builtins are named only where they are called; assignments go to variables and
  elements. Source and machine objects correspond through an injection of addresses, as compiled string patterns
  allocate.
- The interpreter's memory cells say what kind of word they hold; the addresses of objects, which operators see when
  they take a reference for a number, are a parameter. It runs code as a list of instructions, labels standing for
  their positions; `Linking.CompiledBytes` shows that the bytes behind each label's offset decode to the code at that
  position. Required of a step (`Ongoing`) are balanced code (`Sound`, proved of compiled programs), locals assigned
  before they are read (proved of them as well), closures called with as many arguments as their functions have, stack
  space, and that the runtime does what the machine does (`Faithful`).
- What makes whole runs faithful is a condition on the compiled text (`Portability.Portable`: numbers of 31 bits,
  strings without zeros and bytes from 128 up, tags that have hashes and differ in their first five characters,
  patterns with opcodes, builtins with as many arguments as their opcodes take) and one on each step
  (`Portability.MildStep`: results fit 31 bits, no number is compared with a reference it is half of, bytes from 1 to
  127 are assigned to strings, string patterns are matched against strings).
- Comparisons in trees are any function that orders the keys in use; `StructuralOrder.StructureOrders` shows that the
  runtime's structural comparison orders all, `FlatKeys.FlatOrdersIff` which keys flat comparison orders.

## Where code and expectation differ

- `#box` matches closures on the machine but not in the source evaluator: `PatternCompilation.BoxedAgreesIff`.
- The compiler turns the unit value into 0, which the patterns 0 and #unboxed can tell apart, and no others:
  `PatternCompilation.UnitAgreesIff`.
- The interpreter tests tags by hashes of five characters: `RuntimeCalls.TagTestAgreesIff`; `Apple1` is taken for
  `Apple2`. Tags with other characters than letters, digits, `_` and `'`, or that begin with `_`, have no hash:
  `RuntimeCalls.TagHashDefinedIff`.
- Its string elements are signed bytes: `RuntimeCalls.ElementAgreesIff`. String literals and string patterns end at the
  first zero: `RuntimeCalls.LiteralAgreesIff`, `RuntimeCalls.StringTestAgreesIff`. The pattern operands arrive swapped,
  so a string pattern matched against another object is an error there.
- Its builtins take as many operands as their opcode says, not as the call has arguments:
  `RuntimeCalls.BuiltinAgreesIff`.
- Its operators do not look whether a word is a reference, and drop the highest bit: `RuntimeCalls.BinopAgreesIff`.
- `validateColl` checks a key against its parent only: `OrderedTrees.ValidateMeans` says what it does check, and
  `ValidateMissesDisorder` shows a tree it should reject.
- `LflatCompare` tests `~UNBOXED(q)`, which is never zero, so comparing a reference with a number subtracts words:
  `StructuralOrder.FlatFlipsIff`. A map keyed that way can lose a key by a rotation: `FlatKeys.KeyLost`.
- Boxing a difference drops its highest bit, so numbers far apart compare the wrong way: `StructuralOrder.DifferenceSign`.
- Strings that differ only behind a zero compare equal but hash by their lengths: `StructuralHash.StringsHashAlikeIff`.
- The copying collector copies strings with `strcpy`, so bytes behind a zero are lost: `CopyingOutcome.StringKeptIff`.

## Model

| member | source | states |
|---|---|---|
| HeapLayout.Bits | runtime/gc.h:26-37 | a forward word is its address part plus the two flag bits |
| ThreadedQueue.Pigeonhole | runtime/gc.c:507-513 | a queue without repetitions is no longer than the number of objects |
| ThreadedQueue.QueueHasRoom | runtime/gc.c:524-554 | as long as an object is still outside the queue the tail has not reached heap.current |
| ThreadedQueue.QueueReads | runtime/gc.c:524-554 | mark and enqueued bits tell exactly which objects are done, queued, or neither |
| MarkCompact.Collector.QueueEnqueue | runtime/gc.c:507-513 | writes the object into the forward word at the tail and sets its enqueued bit, no other reference or bit changes |
| MarkCompact.Collector.QueueDequeue | runtime/gc.c:515-522 | returns the object stored at the head, clears its enqueued bit and nothing else |
| MarkPhase.RunEnds | runtime/gc.c:524-554 | when the queue has run empty the marks are closed under references again and cover everything enqueued |
| MarkCompact.Collector.Mark | runtime/gc.c:524-554 | terminates; marks the object and all it reaches, keeps earlier marks, although the queue restarts over forward words of marked objects |
| MarkPhase.MarkedIsReachable | runtime/gc.c:249-274 | marks that are closed, reachable and cover the roots are exactly the reachable objects |
| MarkCompact.Collector.MarkPhase | runtime/gc.c:243-274 | afterwards an object is marked if and only if it is reachable from the roots, and no enqueued bit is set |
| Sliding.LocBelow | runtime/gc.c:305-328 | no object moves up |
| Sliding.LocOrdered | runtime/gc.c:305-328 | new places of live objects are in heap order and do not overlap |
| Sliding.RankOrdered | runtime/gc.c:305-328 | live objects keep their relative order |
| MarkCompact.Collector.ComputeLocations | runtime/gc.c:305-328 | forward words of exactly the live objects hold their new addresses, flags are kept, and the result is the words they need |
| MarkCompact.Collector.UpdateReferences | runtime/gc.c:330-475 | every field of every live object and every scanned root is redirected, once, and nothing else changes |
| Bytes.MergedByte | runtime/gc.c:477-499 | moving part of a word takes exactly those bytes and leaves the others |
| Relocation.RelocateLive | runtime/gc.c:477-499 | moving one more object overwrites neither a moved object nor one still to come |
| MarkCompact.Collector.PhysicallyRelocate | runtime/gc.c:477-499 | all live objects arrive, with the words they had, in spite of overlapping moves |
| MarkCompact.Collector.CompactPhase | runtime/gc.c:276-303 | the new chunk holds exactly the live objects, compacted, marks cleared, references redirected, and has the size asked for |
| MarkCompact.Collector.Collect | runtime/gc.c:199-241 | from any valid state a full cycle gives a valid state with room for the request, of the largest of 64 words, the old size, and twice the live words and the request; the survivors are the least set that roots and items lead to, in their order, each with its header, and each item and root refers to the new place of the object it referred to, or is what it was |
| ObjectFormat.ObjectEnds | runtime/gc.c:792-825 | an object ends behind its two header words and its items, the tag of an s-expression included, or behind its bytes and a zero |
| ObjectFormat.FieldsAreItems | runtime/gc.c:827-864 | the words a collection follows are all contents of an array, those behind the tag or the code pointer of an s-expression or a closure, and none of a string |
| ObjectFormat.SurvivorsLeast | runtime/gc.c:524-554 | the objects reachable from the roots are the least set that holds what roots refer to and what items of its members refer to |
| ObjectFormat.CollectionKeeps | runtime/gc.c:276-303 | what a collection leaves, read by header bits: survivors, order, headers, items and roots |
| Compaction.CollectedReady | runtime/gc.c:276-303 | after a collection heap and roots meet all conditions for the next one |
| MarkCompact.Collector.Bump | runtime/gc.c:189-197 | appends one object, everything else as before |
| MarkCompact.Collector.Alloc | runtime/gc.c:58-80 | never fails, never shrinks the heap; a collection takes place exactly if the request does not fit |
| MarkCompact.Collector.StoreField | runtime/runtime.c:949-969 | the program's assignment of a proper word to a field keeps the state valid, so it is valid in every run of allocations, assignments and collections |
| MarkCompact.Collector.StoreRoot | src/X86_64.ml:729-735 | the program's assignment of a proper word to a variable keeps the state valid |
| Observation.CollectionInvisible | runtime/gc.c:276-303 | following any path of fields from any root ends alike before and after a collection, with the result redirected |
| Observation.RedirectInjective | runtime/gc.c:276-303 | two words a program can hold are equal after a collection if and only if they were before: sharing is kept |
| Observation.ObjectAlike | runtime/gc.c:477-499 | live objects keep kind, length, string bytes, constructor tag and code pointer |
| Observation.RootRedirectedUnlessOverlooked | runtime/gc.c:354-422 | a root slot refers to the new heap if and only if it is not one the fixing scan overlooks |
| Observation.RootLost | runtime/gc.c:354-422 | a heap, a root and a collection after which the root refers to nothing: an extra root at the top word of the stack |
| CopyingHeap.Apart | runtime32/runtime.c:1735-1801 | objects laid out one behind the other do not overlap |
| CopyingPass.Forwarded | runtime32/runtime.c:1603-1613 | a header lies in to-space if and only if the object has been copied, and is then its new address |
| CopyingPass.RoomFor | runtime32/runtime.c:1713-1722 | an object not copied yet fits into as many words as from-space has in use |
| CopyingPass.Taken | runtime32/runtime.c:1735-1801 | taking space for an object, moving its head and leaving the new address keeps the state of a pass, within the words in use |
| CopyingCollector.Spaces.Strcpy | runtime32/runtime.c:1767-1779 | the copy holds the bytes up to the first zero, nothing else changes |
| CopyingCollector.Spaces.CopyElements | runtime32/runtime.c:1621-1661 | all fields of the copy are redirected and everything they refer to is copied completely |
| CopyingCollector.Spaces.GcCopy | runtime32/runtime.c:1690-1819 | ends on cyclic structures, never reaches the out-of-space exit, copies each object once, and all it copies is complete when it returns |
| CopyingCollector.Spaces.ScanRoots | runtime32/runtime.c:1821-1853 | every root slot is redirected exactly once however often it comes up |
| CopyingPass.ExactlyReached | runtime32/runtime.c:1876-1949 | the copied objects are exactly those reachable from the roots |
| CopyingPass.PassCarries | runtime32/runtime.c:1690-1819 | copies correspond one to one to the objects, with kind, length, tag and redirected fields, and no field refers to from-space |
| CopyingOutcome.StringKeptIff | runtime32/runtime.c:1767-1779 | a string is unchanged by a collection if and only if nothing but zeros follows its first zero |
| CopyingOutcome.ByteLost | runtime32/runtime.c:1767-1779 | a string with a byte behind a zero that loses it |
| CopyingOutcome.CutBytes | runtime32/runtime.c:1767-1779 | byte by byte, a copied string is the string up to its first zero and zero from there on |
| CopyingOutcome.NewHeapOk | runtime32/runtime.c:1567-1583 | the new space is a heap again, every word in it a reference to an object or harmless |
| CopyingOutcome.ImageReached | runtime32/runtime.c:1920-1924 | what is reachable stays reachable, so a second pass keeps all of it |
| CopyingOutcome.CarriedTwice | runtime32/runtime.c:1920-1924 | copying twice keeps what copying once keeps |
| CopyingCollector.Spaces.Gc | runtime32/runtime.c:1876-1949 | ends, whether spaces can grow in place or not; the reachable objects and only they survive and the words asked for are free behind them |
| CopyingCollector.Spaces.Alloc | runtime32/runtime.c:2041-2077 | gives size words inside from-space; nothing moves if they fit, otherwise a collection has taken place, of which the least set of objects that roots and items lead to is left, with headers, tags and items, each item the new address of what it referred to |
| CopyingFormat.ObjectsFollow | runtime32/runtime.c:1735-1801 | each object begins where the one before it ends, by kind and length in the headers |
| CopyingFormat.ItemsEnd | runtime32/runtime.c:1621-1661 | the words a collection follows are as many as the length in the header says, and none in a string |
| CopyingFormat.HoldsIsClosed | runtime32/runtime.c:1690-1819 | a set is closed for the collection if and only if it holds what roots and items lead to |
| CopyingFormat.CollectionKeeps | runtime32/runtime.c:1876-1949 | what a collection leaves, read by header bits |
| PatternCompilation.PatternCorrect | src/SM.ml:1280-1335 | pattern code falls through if the source pattern matches and jumps to lfalse if not, having consumed exactly the tested value both ways |
| PatternCompilation.BoxedAgreesIff | src/SM.ml:703-713 | the machine's #box agrees with the source matcher exactly on numbers, strings, arrays and s-expressions |
| PatternCompilation.BoxedClosure | src/Language.ml:563-570 | a closure is boxed for the machine and not for the source |
| PatternCompilation.UnitIsSeen | src/SM.ml:1426 | the source's unit value is compiled to 0, which #unboxed matches |
| PatternCompilation.UnitMatchesIff | src/Language.ml:554-570 | a pattern matches 0 if and only if it matches the unit value, unless under its names it is 0 or #unboxed |
| PatternCompilation.UnitAgreesIff | src/SM.ml:1280-1335 | pattern code run on the compiled unit value goes where the source's matcher goes if and only if the pattern under its names is neither 0 nor #unboxed |
| ScopeCompilation.MatchBinds | src/Language.ml:549-575 | a successful match binds each name to the value at the name's path |
| ScopeCompilation.BindingsCorrect | src/SM.ml:1336-1379 | binding code stores the value at each path in the place of its name and leaves the stack as it was |
| CodeShape.ExprShape | src/SM.ml:1390-1588 | compilation restores scopes, only moves label numbers on, and marks each new label at most once and no other label |
| CodeShape.FindsTheDefinition | src/SM.ml:750-762 | a label defined once is found where it is defined |
| Correspondence.UpdateAlike | src/Language.ml:112-120 | corresponding updates of elements keep the stores in correspondence |
| Correspondence.BuiltinAlike | src/Language.ml:153-180 | builtins give corresponding results on corresponding arguments |
| CompilerCorrectness.ListCorrect | src/SM.ml:1382-1389 | operand code pushes values corresponding to the evaluator's, in order |
| CompilerCorrectness.IfCorrect | src/SM.ml:1507-1521 | both branches leave through the exit label with the evaluator's result |
| CompilerCorrectness.WhileCorrect | src/SM.ml:1522-1532 | a terminating loop ends at the end of its code with the evaluator's state |
| CompilerCorrectness.DoWhileCorrect | src/SM.ml:1533-1545 | likewise for a loop that tests behind its body |
| CompilerCorrectness.BranchesCorrect | src/SM.ml:1547-1588 | the first matching branch runs with its bindings, earlier ones leave nothing but fresh strings |
| CompilerCorrectness.ScopeCorrect | src/SM.ml:1403-1425 | local scopes place and initialise variables as the evaluator does and give the places back |
| CompilerCorrectness.AssignCorrect | src/SM.ml:1492-1504 | assignments change the variable or element the evaluator changes and leave the value |
| CompilerCorrectness.CallCorrect | src/SM.ml:1448-1473 | calls of builtins get their arguments in order and give the evaluator's result |
| CompilerCorrectness.ExprCorrect | src/SM.ml:1380-1588 | if the source expression terminates, its code reaches a corresponding stack, store and output: at the exit label exactly if the flag says so, else at its end |
| ProgramCorrectness.ProgramLabels | src/SM.ml:1646-1684 | labels of a compiled program are distinct, those of scopes included, and none is a builtin's |
| ProgramCorrectness.ProgramCorrect | src/SM.ml:1646-1684 | a compiled program halts with the evaluator's remaining input, output, objects and value whenever the source terminates |
| ProgramCorrectness.HaltsOnce | src/SM.ml:440-745 | a program halts in one way at most, so the machine can do nothing else |
| OperatorLaws.LawHolds | src/Language.ml:428-446 | a difference and the right operand add up to the left one, quotients and remainders divide with a remainder on the side of the dividend, comparisons and connectives give 1 exactly where they hold, and so on |
| OperatorLaws.LawUnique | src/Language.ml:428-446 | the laws leave one result |
| OperatorLaws.EvalObeys | src/Language.ml:509 | an expression with an operator obeys the law for what its left and then its right operand evaluate to |
| OperatorLaws.StepObeys | src/SM.ml:452-480 | BINOP obeys the law with the right operand on top of the left one |
| OperatorLaws.OpcodeObeys | byterun/interpretatorv1_0.cpp:377-449 | the opcode obeys the law for the operands' words without their lowest bits, and keeps 31 bits of the result |
| ValueLaws.NewObjects | src/Language.ml:98-113 | a new object lists its items in order and is of its kind; the others are what they were |
| ValueLaws.AssignedElement | src/Language.ml:115-120 | an assigned element is found at its place, everything else unchanged |
| ValueLaws.AssignableIff | src/Language.ml:115-120 | elements can be assigned if and only if they can be read, in strings bytes only |
| ValueLaws.LengthCounts | src/Language.ml:160-178 | the length is the number of elements that can be read |
| ValueLaws.WriteAppends | src/Language.ml:162 | output grows by the number written, at its end |
| ValueLaws.UpdatedIsFound | src/Language.ml:225-246 | a variable is found with the value last assigned, all others as before |
| ValueLaws.ScopeHides | src/Language.ml:248-283 | names of a scope hide those outside; leaving it brings them back |
| ValueLaws.AssignableName | src/Language.ml:225-246 | names of a scope can be assigned if and only if they are variables; assignments to others go through to the scopes outside |
| ValueLaws.BuiltinsVisible | src/Language.ml:277-281 | the outermost scope has the six builtins, not to be assigned, besides the names given |
| EvaluatorLaws.ResultUnique | src/Language.ml:456-590 | an expression has one result at most, whatever the fuel |
| EvaluatorLaws.WhileUnrolls | src/Language.ml:541-542 | a loop ends as its condition, and if that holds its body in front of the loop again |
| EvaluatorLaws.DoWhileEnds | src/Language.ml:543-544 | the other loop ends as its body in front of the first kind of loop |
| EvaluatorLaws.ScopeEnds | src/Language.ml:465-480 | a scope ends if and only if the initialisers of its definitions, in their order, its body and the way out of it do, with the same result |
| WellFormedness.InitialisedWellFormed | src/Language.ml:465-480 | turning initialisers into assignments keeps programs well formed and what they leave |
| ClosurePropagation.Convert | src/SM.ml:947-972 | each location is found where it stood in the list or added once at the end |
| ClosurePropagation.MeaningStays | src/SM.ml:947-972 | appending to closure lists changes the meaning of no location |
| ClosurePropagation.PathFoundIff | src/SM.ml:939-943 | a way down to the calling function is found if and only if that is the function the callee is defined in or within it |
| ClosurePropagation.FunInfo.Downwards | src/SM.ml:947-976 | passing a list down a path gives the caller locations that mean the same variables |
| ClosurePropagation.FunInfo.ForCall | src/SM.ml:936-980 | reports a change exactly if a list has changed; without one the list of the call is right |
| ClosurePropagation.Bounded | src/SM.ml:936-991 | no list outgrows the captured variables times its level |
| ClosurePropagation.FunInfo.PropagateClosures | src/SM.ml:982-991 | terminates, and then each call's list means, variable for variable, what the callee's list means where it is defined |
| ClosurePropagation.CallCaptures | src/SM.ml:547-560 | a closure made with the list of a call captures the values of the callee's captured variables |
| ClosurePropagation.CalleeFinds | src/SM.ml:504-516 | in the callee each captured cell holds the value of the variable it stands for |
| ClosureFixing.FixesPieces | src/SM.ml:1623-1643 | the pass never fails on code whose calls are nested properly, pairs every call with its beginning and leaves the calls around it alone |
| ClosureFixing.PassFits | src/SM.ml:1623-1643 | after the pass every closure lists as many variables as its function captures, direct calls go to functions that capture none, the code is otherwise what it was, and it names the same functions as often |
| ClosureFixing.PassKeepsSkeleton | src/SM.ml:1623-1643 | of all code the pass accepts, labels, numbers of arguments and locals, calls with their numbers of arguments, and all instructions but closures stay in their order |
| ClosureFixing.ClosuresExpected | byterun/interpretatorv1_0.cpp:616-680 | such closures are what the interpreter's BEGIN expects |
| ClosureFixing.FixedCaptures | src/SM.ml:547-560 | the closure instruction the pass emits captures the values of the function's captured variables |
| ClosureFixing.DirectCallSame | src/SM.ml:1632-1640 | a direct call enters the function with the arguments, stack and caller of the call through an empty closure, and the function finds the same values |
| ByteFormat.IntRoundTrip | src/SM.ml:181-185 | an operand is read back if and only if it fits 32 bits |
| ByteFormat.StringRoundTrip | byterun/byterun.h:30-37 | a table entry reads back as the string if and only if it contains no zero |
| ByteFormat.OpRoundTrip | byterun/byterun.c:11-232 | decoding an instruction's bytes gives the instruction and the position behind it |
| ByteFormat.OpLayout | src/SM.ml:171-217 | opcode first, then the operands in order, 32 bits each with the lowest byte first; of a closure also the places with their modes |
| ByteFormat.CodeRoundTrip | byterun/byterun.c:11-232 | decoding a program's bytes gives all its instructions with their positions |
| ByteFormat.Disassemble | byterun/byterun.c:11-232 | the loop decodes from the start to the end mark, or fails on an invalid opcode or a truncated operand |
| Translation.InsnSize | src/SM.ml:218-334 | the size of an instruction does not depend on names and label offsets |
| Translation.PatchFills | src/SM.ml:337-346 | writing an offset at a remembered operand gives the bytes of the instruction with that offset |
| Translation.DecodesFrom | src/SM.ml:335-346 | decoding from the offset of any position gives the instructions from there on |
| OpcodeMeaning.StringReads | byterun/byterun.h:48-176 | a string in the table is read up to its first zero |
| OpcodeMeaning.TranslationMeans | byterun/byterun.c:18-232 | the operation an instruction is translated to means, by the two halves of its opcode, what the instruction says, with indices for names and offsets for labels |
| OpcodeMeaning.ProgramUnderstood | src/SM.ml:218-334 | so do all operations of a program |
| Assembler.Writer.AddString | src/SM.ml:108-124 | a string gets one index, at which the table holds it; earlier indices stay |
| Assembler.Writer.InsnCode | src/SM.ml:218-334 | code, strings, globals, labels, public names and open operands are those of one instruction more |
| Assembler.Writer.Patch | src/SM.ml:335-346 | all open operands hold the offsets of their labels |
| Assembler.Writer.Publish | src/SM.ml:347-357 | the table lists the public names and their offsets |
| Assembler.Assemble | src/SM.ml:171-367 | succeeds if and only if every label meant is defined and no function is used as a variable; the file then holds the program |
| Assembler.FileRoundTrip | byterun/byterun.h:48-176 | the loader splits a file into the sections it was made of |
| Assembler.FileLayout | byterun/byterun.h:48-176 | three counts, the public names with their offsets, the strings and the code, where the counts say |
| Assembler.BytecodeRoundTrip | src/SM.ml:171-367 | code decodes from the file, each label's offset decodes to the code behind the label, the decoded operations mean what the instructions say, and string indices read back the strings |
| Linking.SoundLinks | src/SM.ml:335-346 | code the interpreter can run can be assembled |
| Linking.CompiledLinks | src/SM.ml:171-367 | the assembler refuses no compiled program |
| Linking.CompiledBytes | src/SM.ml:750-762 | wherever the machine finds a label, the bytes at the label's offset decode to operations that mean the instructions it continues with |
| FlatMemory.ChainTake | byterun/interpretatorv1_0.cpp:176-251 | popping operands off the flat stack is popping them off the machine's |
| RuntimeCalls.LtagHash | runtime32/runtime.c:315-338 | the hash loop, with its failures on characters without a code and on hashes that do not give the tag back |
| RuntimeCalls.CodesAreTable | runtime32/runtime.h:54 | codes of characters are their positions in the table |
| RuntimeCalls.HashValue | runtime32/runtime.c:315-363 | hashes are numbers to the base 64 with the codes as digits |
| RuntimeCalls.TagHashDefinedIff | runtime32/runtime.c:315-363 | a tag has a hash if and only if its first five characters have codes and the first is not the one coded 0 |
| RuntimeCalls.TagsHashAlikeIff | runtime32/runtime.c:315-338 | two tags have the same hash if and only if their first five characters agree |
| RuntimeCalls.TagTestAgreesIff | byterun/interpretatorv1_0.cpp:723-730 | the interpreter's tag test is the machine's if and only if the object is not one of another tag with these five characters and as many items |
| RuntimeCalls.ApplesTakenForEachOther | runtime32/runtime.c:1104-1117 | Apple1 matches Apple2 in the interpreter and not on the machine |
| RuntimeCalls.BinopAgreesIff | byterun/interpretatorv1_0.cpp:377-449 | an operator is the machine's if and only if the result fits 31 bits and no number is taken for half an address |
| RuntimeCalls.NumberTakenForReference | byterun/interpretatorv1_0.cpp:377-449 | a number that equals a reference in the interpreter |
| RuntimeCalls.ArrayTestAgreesIff | runtime32/runtime.c:1119-1127 | the array test is the machine's if and only if the value is a number or an object |
| RuntimeCalls.KindTestAgreesIff | byterun/interpretatorv1_0.cpp:753-780 | a test of kind is the machine's if and only if the interpreter has an opcode for it and the value is a number or an object |
| RuntimeCalls.LiteralAgreesIff | byterun/interpretatorv1_0.cpp:821-827 | a literal becomes the machine's string if and only if it contains no zero |
| RuntimeCalls.LiteralPrefix | byterun/interpretatorv1_0.cpp:821-827 | a literal becomes the string in front of its first zero |
| RuntimeCalls.ElementAgreesIff | runtime32/runtime.c:856-870 | an element is the machine's if and only if it is no byte from 128 up; bytes are read as the numbers from -128 to 127 with the same bits |
| RuntimeCalls.ByteWithSign | runtime32/runtime.c:856-870 | byte 200 is -56 |
| RuntimeCalls.AssignmentAgrees | runtime32/runtime.c:1177-1192 | assignments to elements the machine accepts are the machine's |
| RuntimeCalls.ByteTruncated | runtime32/runtime.c:1177-1192 | a number too large for a byte is assigned with its lowest eight bits |
| RuntimeCalls.StringTestAgreesIff | runtime32/runtime.c:1129-1143 | a string pattern is the machine's if and only if it meets a string, or none of the two is one and the second is a number, and strings that are equal up to their first zeros are equal |
| RuntimeCalls.EmptyTextTaken | runtime32/runtime.c:1129-1143 | a string that begins with a zero matches the empty pattern |
| RuntimeCalls.BuiltinAgreesIff | byterun/interpretatorv1_0.cpp:782-810 | a builtin's opcode does what the machine's call does if and only if the result fits and the call has no argument for read and one for write and length |
| RuntimeCalls.LengthOfClosure | byterun/interpretatorv1_0.cpp:796-798 | the length of a closure is one more than it captures, where the machine has none |
| RuntimeCalls.WriteOfTwo | byterun/interpretatorv1_0.cpp:791-795 | write of 1 and 2 prints 1 on the machine and 2 in the interpreter, where 1 stays on the stack |
| RuntimeCalls.ReadOfOne | byterun/interpretatorv1_0.cpp:788-790 | an argument of read stays on the interpreter's stack |
| Portability.StepFaithful | byterun/interpretatorv1_0.cpp:450-530 | at a mild step of portable code over plain strings and the program's tags, every opcode's runtime call does what the machine does |
| Portability.StepPlain | byterun/interpretatorv1_0.cpp:450-530 | such a step keeps the store to plain strings and the program's tags |
| Interpretation.CallLinks | byterun/interpretatorv1_0.cpp:710-722 | a call leaves arguments and linkage below the top, ready for the callee's BEGIN |
| Interpretation.CallClosureLinks | byterun/interpretatorv1_0.cpp:681-709 | likewise with the closure removed and its cells' addresses added |
| Interpretation.BeginRuns | byterun/interpretatorv1_0.cpp:587-649 | BEGIN claims the linkage again and sets up an activation that represents the machine's |
| Interpretation.EndReturns | byterun/interpretatorv1_0.cpp:484-498 | END leaves one result in place of arguments and closure and restores the caller's ip and scope |
| Interpretation.LoadFinds | byterun/interpretatorv1_0.cpp:896-990 | the slot of a global, local, argument or captured variable holds the value the machine loads |
| Interpretation.StoreRuns | byterun/interpretatorv1_0.cpp:555-561 | a store reaches the variable the machine assigns and disturbs nothing else |
| Interpreter.Worker.Call | byterun/interpretatorv1_0.cpp:710-722 | the interpreter's call represents the machine's |
| Interpreter.Worker.CallClosure | byterun/interpretatorv1_0.cpp:681-709 | the interpreter's call of a closure represents the machine's |
| Interpreter.Worker.Closure | byterun/interpretatorv1_0.cpp:650-680 | making a closure captures the values the machine captures |
| Interpreter.Worker.Begin | byterun/interpretatorv1_0.cpp:587-615 | claims arguments and return address and sets up the scope record |
| Interpreter.Worker.BeginCaptured | byterun/interpretatorv1_0.cpp:616-649 | the same with the captured cells kept |
| Interpreter.Worker.End | byterun/interpretatorv1_0.cpp:484-498 | returns as the machine does, and exits exactly where it halts |
| Interpreter.Worker.Execute | byterun/interpretatorv1_0.cpp:345-372 | every opcode, with the runtime function it calls, does what one step of the machine does wherever that function does, and the loop ends exactly when the machine halts |
| Interpreter.Worker.Eval | byterun/interpretatorv1_0.cpp:345-372 | whole runs of such steps, calls and recursion included, end with the machine's output and objects |
| BalancedCode.PlanPattern | src/SM.ml:1280-1335 | the code of every pattern takes one operand whichever way it is left |
| BalancedCode.PlanExpr | src/SM.ml:1380-1588 | every position of the code of every expression has one operand depth, whatever path leads there |
| EndToEnd.ProgramSound | src/SM.ml:1646-1684 | compiled programs meet the interpreter's static condition |
| EndToEnd.TameAlong | byterun/interpretatorv1_0.cpp:345-372 | a halting run of portable code that reads no local before it is assigned and is mild goes through on the interpreter |
| EndToEnd.CompileAndRun | byterun/interpretatorv1_0.cpp:345-372 | compiling and interpreting prints what the source evaluator prints, if the compiled text is portable, its run mild and there is stack space |
| OrderedTrees.RotationsExact | stdlib/Collection.lama:59-90 | the factor formulas of both rotations are exact for any heights |
| OrderedTrees.RotationsOrdered | stdlib/Collection.lama:59-90 | rotations keep the order |
| OrderedTrees.Insert | stdlib/Collection.lama:51-134 | factors stay exact and within -1 and 1, and the flag says whether the height has grown by one |
| OrderedTrees.InsertOrdered | stdlib/Collection.lama:51-134 | insertion keeps the order |
| OrderedTrees.InsertAt | stdlib/Collection.lama:51-134 | insertion changes what is stored for the key and for no other |
| OrderedTrees.RemoveKeeps | stdlib/Collection.lama:159-182 | removal keeps shape, balance and order |
| OrderedTrees.RemoveAt | stdlib/Collection.lama:159-182 | removal changes what is stored for the key and for no other |
| OrderedTrees.ContentsAscending | stdlib/Collection.lama:185-201 | contents are strictly ascending |
| OrderedTrees.ContentsExact | stdlib/Collection.lama:185-201 | contents list exactly the visible entries |
| OrderedTrees.ValidateMeans | stdlib/Collection.lama:30-49 | validation succeeds if and only if factors are exact and each key is ordered against its parent |
| OrderedTrees.InsertValidates | stdlib/Collection.lama:51-134 | insertion never makes a tree validation rejects |
| OrderedTrees.ValidateMissesDisorder | stdlib/Collection.lama:30-49 | an unordered, unbalanced tree that validation accepts |
| Collections.MapCorrect | stdlib/Collection.lama:213-236 | after any operations lookups and bindings show the latest value added and not removed, bindings ascending |
| Collections.MapCorrectOn | stdlib/Collection.lama:213-236 | lookups are right as soon as the comparison orders the keys the map is used with |
| Collections.SetsCorrect | stdlib/Collection.lama:254-287 | elements are the members in order; union and diff are the set operations |
| FlatKeys.FlatOrdersIff | runtime/runtime.c:619-626 | flat comparison orders a set of keys whose differences fit if and only if the words of its numbers lie below its addresses |
| FlatKeys.LostByRotation | stdlib/Collection.lama:51-134 | with two keys each less than the other, the one added first is not found after a rotation |
| FlatKeys.KeyLost | stdlib/Data.lama:40 | a map keyed by flat comparison that loses an address |
| GraphEquality.Comparison.Walk | stdlib/Data.lama:44-58 | finds the root of a class and shortens the path without changing the partition |
| GraphEquality.Comparison.Find | stdlib/Data.lama:43-64 | the class of a node, if the tree of nodes has one |
| GraphEquality.Comparison.AlreadyEq | stdlib/Data.lama:42-95 | says whether two nodes are in one class and unites them if not, adding to the tree or merging two classes |
| GraphEquality.Comparison.CmpArgs | stdlib/Data.lama:97-105 | compares fields until a difference shows, whose sign is that of the field that shows it |
| GraphEquality.Comparison.CmpRec | stdlib/Data.lama:107-134 | zero makes the new pairs locally equal; bisimilar nodes give zero; a sign says in which of the nodes something less is found behind equal fields |
| Bisimulation.AlikeEquivalence | stdlib/Data.lama:39-137 | nodes alike up to the classes form an equivalence |
| GraphEquality.Compare | stdlib/Data.lama:39-137 | terminates on every graph whose nodes flat comparison orders, with zero if and only if the nodes are bisimilar, strings taken up to their first zeros; a result is negative only if at the end of some path of fields the first node has the smaller number, kind, tag, code address, length or text, and positive only if the second has |
| StructuralOrder.Flips | runtime/runtime.c:628-686 | structural comparison is antisymmetric in sign |
| StructuralOrder.OrderChains | runtime/runtime.c:628-686 | it is transitive |
| StructuralOrder.ZeroIffSame | runtime/runtime.c:628-686 | it gives zero if and only if the values are equal with strings cut at their first zeros |
| StructuralOrder.ZeroIffEqual | runtime/runtime.c:628-686 | without zeros in strings it gives zero if and only if the values are equal |
| StructuralOrder.StructureOrders | runtime/runtime.c:628-686 | it orders keys as maps and sets need it |
| StructuralOrder.DifferenceSign | runtime/runtime.c:628-640 | a boxed difference has the right sign if and only if it fits 63 bits |
| StructuralOrder.FarApart | runtime/runtime.c:628-640 | the largest number compares below the smallest |
| StructuralOrder.FlatFlipsIff | runtime/runtime.c:618-626 | flat comparison is antisymmetric if and only if a number's word lies below the address it is compared with |
| StructuralOrder.NumberAboveAddress | runtime/runtime.c:619-626 | 2^47 and an address below it are each less than the other |
| StructuralOrder.Compare | runtime/runtime.c:628-686 | on acyclic values Lcompare terminates with the sign of the structural order, case by case: numbers by size, numbers below references, objects below addresses outside, strings by the first byte that differs or ends, then kinds, tags or code addresses, lengths, and the first items that differ |
| StructuralOrder.OrderDirection | runtime/runtime.c:628-686 | what the structural order puts first, level by level |
| StructuralHash.InnerHash | runtime/runtime.c:565-609 | terminates on any heap with the hash of what can be seen within three levels: one number after the other is fed to it, kind, length and tag of an object before its items, the first item first |
| StructuralHash.AppendStep | runtime/runtime.c:561-563 | a step adds and exchanges halves, and loses nothing |
| StructuralHash.HashFed | runtime/runtime.c:565-609 | the hash is that of the numbers fed, in their order |
| StructuralHash.TwinsHashIff | runtime/runtime.c:565-609 | values that differ in one number fed at the end of a path have different hashes if and only if the path ends within three levels |
| StructuralHash.NumbersHashIff | runtime/runtime.c:567 | so it is for two numbers, alone or within equal objects |
| StructuralHash.AddressesHashIff | runtime/runtime.c:608 | for two addresses outside the heap |
| StructuralHash.MarksHashIff | runtime/runtime.c:587-601 | for two tags or code addresses |
| StructuralHash.LengthsHashIff | runtime/runtime.c:570-573 | for two lengths of strings alike up to their first zeros |
| StructuralHash.BytesHashIff | runtime/runtime.c:576-584 | for two bytes in front of the zeros of strings of one length |
| StructuralHash.KindsHashIff | runtime/runtime.c:570-573 | for the empty string and the empty array |
| StructuralHash.CompareZeroHashes | runtime/runtime.c:561-609 | what compares equal hashes equal, to any depth and from any accumulator, if no string contains a zero |
| StructuralHash.StringsHashAlikeIff | runtime/runtime.c:565-609 | strings that compare equal hash equal if and only if they have the same length |
| StructuralHash.ZerosHashDifferently | runtime/runtime.c:565-609 | strings of one zero and of two compare equal and hash differently |

## Left out

- Functions and lambdas in the compiler: the source language is the first-order fragment without definitions of
  functions; captured variables and their closures are covered by `ClosurePropagation` and `ClosureFixing`, and calls
  of functions and closures by the interpreter.
- Non-terminating programs: nothing is said about compiled code whose source does not terminate.
- Conditional and other computed references as assignment targets, and the instructions LDA and STI: not modelled.
- The builtin `string`, line numbers, debug scopes and the declarations of other modules: not modelled beyond their
  opcodes.
- CompilerCorrectness.CallCorrect: covers builtins only, since the fragment has no other functions.
- PatternCompilation.PatternCorrect: closures do not occur as tested values in the fragment, see `BoxedAgreesIff`.
- Interpreter.Worker.Execute: STI, RET, LDA, SWAP and the tests for boxed values and s-expressions are not covered;
  the interpreter rejects them or, for SWAP, does something else than the machine.
- Portability.StepFaithful: one direction only; the exact condition of each operation is its own theorem in
  `RuntimeCalls`.
- The interpreter's checks that report errors on malformed bytecode, and the prompt `read` prints: not modelled.
- Assembler.Assemble: the order in which public names are listed is not modelled, nor is the set of imports, which is
  never used.
- EndToEnd.CompileAndRun: stack space and mild steps are preconditions on the run; the interpreter's check for space
  is not modelled, and objects keep their addresses during the run.
- The garbage collector under the interpreter: both are modelled separately.
- MarkCompact.Collector.Alloc: 64-bit wrap-around of sizes and addresses is not modelled.
- CopyingCollector.Spaces.Alloc: writing the header of the new object is left to its callers, and wrap-around of
  32-bit sizes is not modelled.
- Scanning the stack for roots in assembly: roots are a list of slots.
- Hash tables, memo tables and the other collections of the standard library: not modelled.
- GraphEquality.Compare: nothing is said where flat comparison does not order the nodes, see `FlatKeys.KeyLost`;
  differences of numbers and tags do not wrap.
- StructuralOrder.Compare: numbers, tags, lengths and addresses are such that differences fit 63 bits; outside of
  that see `DifferenceSign`.
- Native code generation, parsing, printing, files and regular expressions: not modelled.
