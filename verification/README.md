# A model of the JITC compiler

JITC is a small C compiler that turns a token stream into x86-64 code in one pass: macros are
expanded, declarators and expressions are parsed by recursive descent and precedence climbing, the
tree is flattened, laid out in a frame, lowered to a stack IR, and the IR is turned into register
code by simulating its stack at compile time. This project models that path, and the containers it
runs on, in Dafny, and proves what the parts promise each other.

Where the program changes things in place, the model does too: the assembler, the back end, the
frame allocator, the parsers, the preprocessor, the build sorter, the layout of structs, the ring
buffer, the sorted map and the byte writers are classes and loops, each proved against a
specification. Next to each stands an independent account of what it is for (a source semantics and
a machine, a grammar, a finite map, a decoder, a rewriting relation), and theorems tie the two
together.

| part | modules |
|---|---|
| expressions and statements, from tree to running code | `Words`, `Syntax`, `Machine`, `StackIr`, `Emitter`, `Fragments`, `EmitExpr`, `EmitStmt`, `ExprEffects`, `ExprCorrect`, `StmtCorrect`, `Backend`, `Compiler`, `SethiUllman`, `Limits`; `Arithmetic` on the operators, and `Basics` below all of them |
| flattening, frames, and the whole pipeline | `Flatten`, `FrameLayout`, `Programs` |
| calling convention, and the pipeline up to the caller | `CallConv`, `Entry` |
| parsers | `Climbing`, `Conditions`, `Declarators` |
| macros, build order, layout and initializers | `Macros`, `BuildOrder`, `Layout` |
| bytes | `GotoPatch`, `Encoding` |
| containers | `RingQueue`, `SortedMap` |

How the compiler proof is built. `Syntax` gives expressions and statements a big-step meaning, in
which fuel bounds loop iterations and nothing else. `Machine` is a small-step machine with seven
stack registers, three scratch registers, spill slots and relative jumps, and is stuck once it
leaves the code; two-operand instructions are legalised through `rax` as the encoder does it.
`StackIr` lowers trees to IR (Sethi-Ullman order, `swp`, merged short-circuit chains), `Emitter` says
what each IR instruction does to the back end's state, and `Backend` is the imperative back end,
proved to do that.
`Fragments` describes, without the emitter's state, the code of each tree as a list with jumps that
are still open. `EmitExpr` and `EmitStmt` prove that emitting assembled IR produces exactly these
lists, every jump patched through the emitter's several pending stacks; `ExprCorrect` and
`StmtCorrect` prove that they run as the source means. `Programs` adds flattening and the frame, and
`Entry` the moves of the caller and the prologue, so that the last theorem speaks of a function as
it is called.

What source and machine, caller and callee, or two parsers share is also said on its own terms:
`Arithmetic` characterises the operators on words, `Climbing.GroupedExactly` the operator table,
`Declarators.SuffixExactly` the types there are, `CallConv.SpotsExactly` the registers by number, and
`Layout.LeavesPlaced` and `Layout.ArrayLeaf` where initialized parts lie.

Several properties hold only under a condition, and the condition is proved to be exact.

- The code of a bitwise not is right exactly when its operand is already in a register
  (`Limits.BitNotExactly`).
- The code of a two-operand operator is right in every state exactly when its operands are not a
  right one in the last register and a left one in the first spill slot (`Limits.SwapExactly`), which
  happens exactly in the situation of `SethiUllman.UnnoticedExactly`. What an expression of any size
  comes to then is `ExprCorrect.RunActual`; the largest number of leaves that is always safe is 128
  (`Limits.SafeBound`), and `Limits.SwapCounterexample` is an expression of 129 that comes out wrong.
- A loop leaves the operand stack as it was exactly when its body is neither an expression nor an
  assignment (`Limits.LoopExactly`).
- Caller and prologue agree exactly when no float beyond the eighth comes while integer registers are
  free (`CallConv.AgreeExactly`), prologue and frame layout exactly when no unnamed parameter makes
  the prologue pad where the layout does not (`CallConv.HomesExactly`).
- A designator and field lookup agree exactly when every part before the field is full
  (`Layout.DesignatorsExactly`); see also `Layout.ElementsAreLeaves` and `Layout.SizeMultipleExactly`.
- A flattened body has no list inside a list, and no empty block, exactly when the source has none of
  a certain kind (`Flatten.SplicedExactly`, `Flatten.SolidExactly`).
- A pop that is rolled back restores a queue exactly when it did not hold a single item
  (`RingQueue.Queue.PopAndRollback`).

## Model

| member | source | states |
|---|---|---|
| Entry.CompileForCalls | compiler.c:440-503 | the pipeline and the calling convention together: whatever the arguments a caller moves, after the prologue the code returns the value, faults or runs on inside the code just as the unflattened source does with the parameters bound to them |
| Entry.CallAgrees | platform/sysv-x86_64.c:139-160 | after the caller's moves, the pushes and the prologue's moves, the frame holds each argument under the name of its parameter, at the offset that the layout computed |
| Programs.CompileSource | compiler.c:440-503 | the pipeline (flatten, lay out, assemble, emit) yields code that, from every frame that holds the arguments and for every fuel, returns the value, faults or keeps running inside the code just as the unflattened source does |
| Programs.CompileProgram | compiler.c:183-196 | the same from an already flattened body; parameters have offsets in the computed frame |
| Programs.LayoutIsCompilable | compiler.c:156-196 | the computed frame meets everything the code correctness proof asks of a frame: variables alive together are apart, all are inside the frame, scopes keep names distinct |
| Programs.FlatWellFormed | parser.c:1032-1076 | flattening keeps a function within what the compiler accepts (scoping, single declaration, balance, size) |
| Programs.TreeIsSound | compiler.c:106-154 | the scope tree built from a body has every declared name exactly once, and its top level holds the names in scope at the top |
| Programs.ScopeList.Append | compiler.c:106-154 | appending a statement adds exactly its scope tree to the shared list |
| Compiler.FunctionCorrect | compiler.c:488-503 | from any store that agrees with the arguments, the emitted code ends as the source does: same return value through the epilogue, 0 when the end is reached, a divide fault, or at least fuel steps after which it is still inside the code |
| Compiler.FunctionDiverges | compiler.c:363-372 | a source that never ends is compiled to code that, after any number of steps, is running and inside the code |
| Compiler.EmitFunction | compiler.c:489-502 | emitting an assembled function succeeds, patches every break and return, and leaves operand stack, branches, returns and short circuits empty |
| Compiler.CompileFunction | compiler.c:488-502 | the imperative assembler followed by the imperative back end writes that code |
| ExprCorrect.RunActual | compiler.c:198-346 | for every expression of any size whose ~ are of registers, at every register base and from every machine state: the emitted code leaves one item with the source value but for unnoticed swaps (or the divide fault), every variable and every register owned by deeper items unchanged, despite right-first order, swaps and lazily read variables |
| ExprCorrect.RunCode | compiler.c:198-346 | so without an unnoticed swap it leaves the source value |
| ExprCorrect.RunOrdered | platform/x86_64.c:1078-1082 | two operands evaluated in either order and then combined give the operator applied in source order, or the right one combined with itself if the swap goes unnoticed |
| ExprCorrect.RunChain | platform/x86_64.c:759-776 | a short-circuit chain either falls through with the last operand's value or jumps out with the deciding value already in the merge register |
| ExprCorrect.RunLogic | platform/x86_64.c:1084-1111 | a whole short-circuit operator yields 0 or 1 on both paths |
| ExprCorrect.RunCond | compiler.c:334-346 | a conditional expression evaluates one arm only, and both arms end in the same register |
| ExprEffects.SimpleYields | platform/x86_64.c:645-664 | the two-operand operators, through writeback, direct or scratch registers, yield the source value and disturb nothing below, unless a swap goes unnoticed |
| ExprEffects.WideEffects | platform/x86_64.c:686-706 | multiplication, division and remainder through rax and rdx give the wrapped product or truncating quotient and remainder, or fault exactly as the source operator |
| Words.FaultsExactly | platform/x86_64.c:686-706 | a division faults if and only if the divisor is zero or the quotient of the smallest word by -1 is asked for |
| Arithmetic.DivisionExactly | platform/x86_64.c:686-706 | quotient q and remainder r, of source and machine alike: a = b q + r, r smaller than b and of the sign of a or zero, so the quotient rounds towards zero |
| Arithmetic.QuotientUnique | platform/x86_64.c:686-706 | there is only one such quotient and remainder |
| Arithmetic.RingExactly | platform/x86_64.c:914-925 | sums, differences, products and negation are right modulo 2^64 |
| Arithmetic.BitsExactly | platform/x86_64.c:937-947 | each bit of and, or, exclusive or comes from that bit of the operands |
| Arithmetic.ComplementExactly | platform/x86_64.c:1022-1024 | a bitwise not turns each bit over |
| EmitExpr.EmitClosed | compiler.c:198-346 | emitting the IR of an expression from any regular state appends the expression's closed code and pushes one item, and restores the short-circuit and branch stacks |
| EmitExpr.PatchOpen | platform/x86_64.c:768-776 | patching all jumps recorded for a fragment is binding its label, whatever order they are popped in |
| EmitStmt.EmitStatement | platform/x86_64.c:1212-1244 | emitting a statement leaves the operand stack as it was, appends its code, and records each break with the nearest enclosing loop through any nesting of ifs |
| EmitStmt.LoopClosed | platform/x86_64.c:811-824 | closing a loop binds its back edge, its exit and every break of its body, and hands nothing on |
| EmitStmt.HandOver | platform/x86_64.c:811-824 | closing an if hands its pending breaks to the enclosing branch and loses none |
| StmtCorrect.RunStatement | compiler.c:347-383 | the code of a statement simulates its big-step meaning: normal ends behind it, breaks behind the nearest loop, returns at the epilogue with the value in rax, and an unfinished run of the source by as many steps that stay inside the code |
| StmtCorrect.RunLoop | compiler.c:363-372 | the same for a loop, by induction on fuel, with at least one machine step an iteration |
| StmtCorrect.RunBranch | compiler.c:347-356 | the same for if and else |
| StmtCorrect.RunReturn | platform/sysv-x86_64.c:276-284 | a return brings its value to rax and control to the epilogue |
| StackIr.Assembler.Append | compiler.c:198-346 | the imperative assembler appends exactly the IR of the expression, with its memoised Sethi-Ullman numbers |
| StackIr.Assembler.AppendStmt | compiler.c:347-383 | the same for statements, and reports whether an item stays on the operand stack |
| StackIr.Assembler.AppendFunction | compiler.c:489-501 | the same for a body, with a return of zero added unless the last statement is a return |
| StackIr.Assembler.GetSuNumber | compiler.c:81-104 | the memoised number is the pure recurrence |
| Backend.Writer.EmitOne | platform/x86_64.c:1435-1504 | one IR instruction changes code, operand stack, counters, branches, returns and short circuits as specified |
| Backend.Writer.EmitProgram | platform/x86_64.c:1435-1504 | so does a whole IR list |
| Backend.Writer.BinaryOperator | platform/x86_64.c:645-664 | the three paths of an operator, with both temporaries given back |
| Backend.Writer.EndBranch | platform/x86_64.c:811-824 | the whole state after a branch is closed |
| Backend.Writer.PatchPending | platform/x86_64.c:793-800 | every pending jump gets its offset, and no other code changes |
| Backend.Writer.PushRvalue | platform/x86_64.c:290-312 | the next of seven registers, or a new spill slot |
| Backend.Writer.PopTop | platform/x86_64.c:329-341 | gives the register or spill slot back |
| SethiUllman.SuLeaves | compiler.c:81-104 | a tree with number k has at least 2^(k-1) leaves |
| SethiUllman.CodeBelow | compiler.c:250-260 | code assembled at register base b touches only stack locations below b plus the number plus 1 |
| SethiUllman.NeverSpills | platform/x86_64.c:301-307 | an expression with fewer than 64 leaves, on an empty stack, touches no spill slot |
| SethiUllman.LightIsSafe | platform/x86_64.c:273-279 | if base plus number is at most seven, no swap can go unnoticed anywhere in the tree |
| SethiUllman.SmallIsSafe | platform/x86_64.c:273-279 | trees of at most 128 leaves are compiled safely on an empty stack |
| SethiUllman.UnnoticedExactly | platform/x86_64.c:273-279 | a swap goes unnoticed if and only if both operands end in registers, the right one is heavier, and six registers are in use |
| SethiUllman.UnsafeIsHeavy | platform/x86_64.c:273-279 | with b registers in use an unsafe tree has more than 2^(7-b) leaves, and b is below seven |
| Limits.BitNotExactly | platform/x86_64.c:666-672 | the code of ~ is right if and only if its operand is already in a register |
| Limits.SwapExactly | platform/x86_64.c:645-664 | the code of +, - and the bitwise operators on any two operands is right in every state if and only if they are not a right one in the last register with a left one in the first spill slot |
| Limits.UnnoticedSwap | platform/x86_64.c:645-664 | run anywhere, an operator whose swap goes unnoticed comes to its right operand combined with itself |
| Limits.RightExactly | platform/x86_64.c:273-279 | a run of any whole expression is right if and only if the unnoticed swaps in it make no difference to its value |
| Limits.SafeBound | platform/x86_64.c:273-279 | all expressions of at most n leaves are safe on an empty stack if and only if n is at most 128 |
| Limits.SwapCounterexample | platform/x86_64.c:273-279 | a whole expression of 129 leaves, compiled on an empty stack, comes out as 126 instead of 123 |
| Limits.LoopExactly | compiler.c:363-372 | for every loop with a body that is balanced by itself, emission leaves the operand stack unchanged if and only if its body is neither an expression nor an assignment; otherwise that one item stays behind |
| FrameLayout.Allocator.Process | compiler.c:156-181 | the two loops over leaves and inner scopes compute the specified offsets and the size |
| FrameLayout.ScopeIsLaid | compiler.c:156-181 | every scope lies between its parent's leaves and the returned size, its leaves in order |
| FrameLayout.FrameIsSound | compiler.c:183-196 | any two variables of equal or enclosing scopes have disjoint bytes, all are inside the frame and aligned if and only if their size is a multiple of their alignment, and nothing else in the map changes |
| FrameLayout.FrameIsTight | compiler.c:156-181 | without globals the frame is empty or some variable ends where it does |
| FrameLayout.GrowExactly | compiler.c:159-171 | a variable starts at the first aligned place and takes its size, a global one takes only the padding |
| FrameLayout.SpillsBelow | platform/x86_64.c:391-393 | every spill slot lies below every local |
| FrameLayout.SiblingsShare | compiler.c:173-178 | sibling scopes do share bytes: an instance |
| CallConv.Counter.Classify | platform/sysv-x86_64.c:38-78 | class and counters of one scalar argument |
| CallConv.EmitCall | platform/sysv-x86_64.c:80-160 | the argument loops send each argument to its spot and size the outgoing area |
| CallConv.EmitPrologue | platform/sysv-x86_64.c:233-274 | the parameter loop receives each named parameter from its spot into its home |
| CallConv.AgreeExactly | platform/sysv-x86_64.c:139-160 | the prologue looks where the call put each argument if and only if no float beyond the eighth comes while integer registers are free |
| CallConv.EightFloatsAgree | platform/sysv-x86_64.c:248-273 | so they agree on every signature with at most eight floats |
| CallConv.StackFits | platform/sysv-x86_64.c:120-122 | whatever the signature, arguments moved to the stack stay inside the area counted for them |
| CallConv.SpotsExactly | platform/sysv-x86_64.c:139-160 | for every signature, in closed form: which register or stack word each argument is sent to and each parameter is expected in |
| CallConv.SixIntegersEightFloats | platform/sysv-x86_64.c:248-273 | with at most eight floats: the n-th float in float register n, the n-th integer in integer register n up to the sixth, the others on the stack in order, 56 bytes further on from the callee's side |
| CallConv.TallyExactly | platform/sysv-x86_64.c:90-92 | the outgoing area has a word for each integer beyond the sixth and each float beyond the eighth |
| CallConv.CallAligned | platform/sysv-x86_64.c:116-122 | rsp is a multiple of 16 at every call, given the frame and saved registers of the prologue, the callee's rbp is 56 below it, and less than 16 bytes are padding |
| CallConv.CallDelivers | platform/sysv-x86_64.c:139-160 | running the call's moves, the pushes in between and the prologue's moves brings every argument value to its parameter's home |
| CallConv.HomesExactly | platform/sysv-x86_64.c:248-273 | the prologue stores every named parameter at the very offset that the frame layout gave the body if and only if each named parameter behind unnamed ones would be placed at a multiple of the widest of these anyway |
| CallConv.HomesMatch | platform/sysv-x86_64.c:248-273 | so always when all parameters have names |
| CallConv.UnnamedMisplaces | platform/sysv-x86_64.c:251-257 | with an unnamed parameter the two offsets can differ: an instance |
| Climbing.Parser.ParseOperand | parser.c:1253-1300 | the loop that stacks prefix operators and wraps them around the operand |
| Climbing.Parser.ParseExpression | parser.c:1558-1590 | the climbing loop builds the specified tree and leaves the specified tokens |
| Climbing.ParseSound | parser.c:1558-1590 | every tree built has the consumed tokens as its yield and respects precedence and associativity |
| Climbing.ParseComplete | parser.c:1520-1590 | every such tree, printed without further parentheses, is parsed back with the same suffix |
| Climbing.ParsesExactly | parser.c:1520-1590 | parsing gives a tree and a rest if and only if these are a reading that the grammar allows |
| Climbing.GroupedExactly | parser.c:1520-1556 | the trees that fit the precedences are those grouped as an ordered list of operator classes says: a tighter class inside a looser one, within a class from the left, among assignments from the right, ?: between or and assignments |
| Climbing.ParsesGrouped | parser.c:1558-1590 | parsing gives a tree and a rest if and only if the tree is so grouped, has the tokens before the rest, and no operator follows |
| Climbing.TwoOperators | parser.c:1520-1556 | a op1 b op2 c, for all operators and names, is grouped as their classes say |
| Climbing.CommaOutside | parser.c:1555-1555 | a comma without parentheses is an operand of nothing but a comma to its right |
| Climbing.PrefixFirst | parser.c:1261-1264 | prefix operators are +, -, ~ and ! only, and bind tighter than any other |
| Climbing.BeforeConditional | parser.c:1539-1539 | an operator in front of a conditional expression takes its condition if it binds tighter than ?:, else all of it |
| Climbing.BehindConditional | parser.c:1539-1539 | and one behind it takes the last operand, or all of it |
| Climbing.Unambiguous | parser.c:1520-1556 | two trees that respect the operator table and have the same tokens are equal |
| Climbing.ParenthesesProtect | parser.c:1285-1300 | a parenthesised tree is one operand |
| Conditions.Evaluator.GetOperand | preprocessor.c:160-207 | the operand of a condition has the value of the tree the parser would build for it |
| Conditions.Evaluator.ComputeExpression | preprocessor.c:234-274 | evaluation fused with climbing gives the value of that tree, or fails |
| Conditions.SameParse | preprocessor.c:209-232 | the two operator tables induce the same grouping |
| Conditions.NoValueExactly | preprocessor.c:255-256 | a tree has no value if and only if some divisor anywhere in it is zero |
| Conditions.ValueIsMeaning | preprocessor.c:251-271 | where a condition without shifts has a value, and does not divide the smallest word by -1, that value is the meaning of the same expression in the compiled language |
| Conditions.ShiftsExactly | preprocessor.c:260-261 | a left shift multiplies modulo 2^64, a right shift divides rounding down, by the power of two of the count modulo 64 |
| Conditions.ConditionExactly | preprocessor.c:234-274 | a condition gives the value of the tree the compiler would build from the same tokens, and fails if and only if there is none or it divides by zero |
| Declarators.ParseDeclarations | parser.c:137-260 | the two loops over a token queue and the declarator stack, with the nested queues, compute the specified type and rest |
| Declarators.Queue.TakeParenthesised | parser.c:188-201 | takes exactly the tokens up to the matching parenthesis |
| Declarators.ParseReads | parser.c:137-260 | every declarator of the grammar is read from the inside out and parsing stops right behind it |
| Declarators.ReadsExactly | parser.c:202-206 | that reading is the language's own, except that nameless functions without parentheses are refused |
| Declarators.SpellDenotes | parser.c:211-257 | the spelling of a valid type denotes that type; of an invalid one, nothing |
| Declarators.SuffixExactly | parser.c:214-226 | an array holds exactly scalars, pointers and arrays with a size; a function returns exactly scalars, void and pointers |
| Declarators.RoundTrip | parser.c:137-260 | parsing the spelled declaration of any type gives back that type and name if every array and function layer in it is one of these, and is refused if not |
| Declarators.NamelessRoundTrip | parser.c:137-260 | the same without a name, exactly for types that are not functions |
| Declarators.SpelledApart | parser.c:137-260 | no two types share a declaration |
| Flatten.FlattenAst | parser.c:1032-1076 | the recursion with an optional list to splice into produces the specified tree |
| Flatten.FlattenInto | parser.c:1061-1072 | the loop over the children |
| Flatten.FlattenKeepsIr | parser.c:1032-1076 | a body is assembled to the same IR before and after |
| Flatten.SplicedExactly | parser.c:1047-1067 | in a flattened body no list stands inside a list, at any depth, if and only if none did that had a scope as its only child |
| Flatten.SolidExactly | parser.c:1047-1050 | no empty block stands inside a list if and only if no block did whose contents vanish with the flattening |
| Flatten.Leftovers | parser.c:1051-1059 | an instance of both kinds that stay |
| Flatten.FlattenRefines | parser.c:1032-1076 | and does the same, although scopes collapse, lists are spliced and empty ones vanish |
| Macros.Preprocessor.Expand | preprocessor.c:296-351 | the repeat-until-stable loop ends, its result is one recursive replacement under the growing hide set, and the used set is restored |
| Macros.Preprocessor.ProcessIdentifier | preprocessor.c:353-368 | one name, replaced or passed on |
| Macros.OnePassDone | preprocessor.c:329-344 | after one pass no token is left that could still be replaced |
| Macros.SecondPassIdle | preprocessor.c:329-344 | so every later pass changes nothing |
| Macros.AnyOrder | preprocessor.c:296-368 | any order of replacing single names under hide sets ends in the same tokens as the expansion |
| Macros.ReplacingEnds | preprocessor.c:296-368 | and such replacing can always be carried to that end, for every table, cyclic ones included |
| BuildOrder.Builder.Dfs | jitc.c:1016-1032 | the search appends a task after its dependencies and keeps path, states and output consistent, or names a dependency that is no task, or a cycle |
| BuildOrder.Builder.SortBuilds | jitc.c:1034-1043 | succeeds if and only if every dependency is known and the graph is acyclic, then every task comes once and after its dependencies |
| BuildOrder.Builder.FindCycle | jitc.c:995-1014 | the path read off the turned-over stack is a cycle of the graph |
| BuildOrder.Unwound | jitc.c:995-1014 | turning the stack over and dropping down to the task leaves exactly the stack from that task on |
| BuildOrder.OrderNeedsAcyclic | jitc.c:1016-1043 | an order exists only for graphs without cycles and unknown names |
| Layout.Record.Update | jitc.c:96-126 | the loops compute size, alignment and offsets of a struct or union |
| Layout.FieldsLaidOut | jitc.c:96-126 | fields are aligned and inside, those of a struct disjoint and in order, those of a union at zero |
| Layout.StructPacked | jitc.c:96-126 | each field of a struct starts at the first aligned place behind the one before it |
| Layout.PackedTightly | jitc.c:96-126 | the alignment is one or that of some field, the size the content padded as little as possible, the content of a union its largest field |
| Layout.SizeMultipleExactly | jitc.c:96-126 | the size is a multiple of the alignment if and only if there is content or the alignment is one |
| Layout.Elements.Append | parser.c:1112-1131 | appends exactly the leaves of a type with their offsets |
| Layout.LeavesPlaced | parser.c:1112-1131 | every leaf lies inside the object; without unions the leaves follow each other and no two overlap |
| Layout.ArrayLeaf | parser.c:1119-1122 | leaf j of element k of an array is leaf j of the element type, k times its size further on, and the array ends with its last element |
| Layout.CountElements | parser.c:1133-1140 | the loop that counts elements |
| Layout.DesignateStruct | parser.c:1147-1161 | the search for a designated field |
| Layout.WalkStruct | jitc.c:840-860 | the search for a field's type and offset |
| Layout.ElementsAreLeaves | parser.c:1112-1140 | for every type a declaration can have, the count equals the number of leaves if and only if nothing in the type is empty or without a size |
| Layout.DesignatorsExactly | parser.c:1147-1161 | a designator finds a field exactly when lookup does; the field's leaves lie at the offset that lookup returns, and the designator is the index of the first of them if and only if every part before it, at each level, is full; a negative result encodes the number of leaves if and only if the whole type is full |
| Layout.DesignatorsAgree | jitc.c:840-860 | so the two agree throughout in a full type |
| Layout.EmptyMisleads | parser.c:1115-1128 | with an empty struct inside, a designator names the wrong leaf: an instance |
| GotoPatch.Writer.EmitGoto | platform/x86_64.c:1267-1279 | a jump to a known label, or one that waits |
| GotoPatch.Writer.EmitLabel | platform/x86_64.c:1281-1297 | everyone who waits is patched, nothing else changes, and the stack is empty |
| GotoPatch.Writer.EmitAll | platform/x86_64.c:1267-1297 | the bytes written are those of the linked program, and no defined label has anyone waiting |
| GotoPatch.PatchOne | platform/x86_64.c:1292-1295 | patching the four bytes before a recorded position changes that one jump |
| GotoPatch.JumpsLand | platform/x86_64.c:1267-1297 | with one definition of a label, every goto to it, before or after, holds the label's position minus the end of the jump |
| GotoPatch.JumpsDecoded | platform/x86_64.c:1267-1297 | in the emitted bytes, each such jump is a byte 0xE9 and four that, read as a signed number and added to their end, give the label's position |
| GotoPatch.LittleRoundTrip | platform/x86_64.c:1278-1278 | the four bytes of a 32-bit displacement give it back |
| RingQueue.Queue.Push | dynamics.c:396-412 | adds at the end of the sequence, through wrap-around and regrowth |
| RingQueue.Queue.Grow | dynamics.c:398-407 | copying the two parts of a full ring into one twice its size keeps the sequence |
| RingQueue.Queue.Pop | dynamics.c:420-427 | takes the first, or reports emptiness |
| RingQueue.Queue.Peek | dynamics.c:414-418 | shows the first |
| RingQueue.Queue.Rollback | dynamics.c:429-434 | puts the cell before the tail back in front, unless the queue is empty; what is left is a queue if and only if the ring was not full |
| RingQueue.Queue.PopAndRollback | dynamics.c:420-434 | restores the queue if and only if it did not hold exactly one item |
| RingQueue.Run | dynamics.c:376-434 | every run of operations gives the answers of a plain sequence |
| RingQueue.FirstInFirstOut | dynamics.c:376-434 | what a run pushes comes behind what was there, in the same order |
| SortedMap.Search | dynamics.c:203-206 | binary search finds an entry with the key, or there is none |
| SortedMap.Map.Find | dynamics.c:203-206 | the cursor is on the key's entry, or the finite map lacks the key |
| SortedMap.Map.Index | dynamics.c:208-212 | the cursor moves to the key that has exactly that many smaller ones, or stays if there is none |
| SortedMap.Map.Add | dynamics.c:228-235 | one entry is appended behind the sorted ones, with doubling |
| SortedMap.Map.Commit | dynamics.c:214-226 | the appended entry is sorted in, or dropped if its key is there already; the cursor is on the key either way |
| SortedMap.Map.Remove | dynamics.c:249-260 | removes exactly the key under the cursor |
| SortedMap.Map.Assign | dynamics.c:214-247 | adding, committing and setting is the update of a finite map, overwriting included |
| SortedMap.Inserted | dynamics.c:214-226 | inserting at its place keeps the order and updates the finite map |
| SortedMap.Dropped | dynamics.c:249-260 | removing an entry keeps the order and removes its key |
| SortedMap.Run | dynamics.c:183-260 | every run of add-and-commit, set, find, index, get, remove and size, in any order and with or without a cursor, gives the answers of a finite map with a key the cursor is on |
| Encoding.ByteWriter.EncodeInstruction | platform/x86_64.c:420-448 | prefixes, REX, opcode, ModRM, SIB and zero displacement in their order |
| Encoding.ByteWriter.Perform | platform/x86_64.c:536-561 | an instruction and its displacement of no, one or four bytes |
| Encoding.LengthExactly | platform/x86_64.c:420-448 | REX, SIB and displacement bytes are written only where they are needed, and the displacement in as few bytes as the source has it |
| Encoding.EmitAll | platform/x86_64.c:420-448 | the concatenated bytes of a list of instructions |
| Encoding.OperandDecoded | platform/x86_64.c:432-447 | a decoder written after sections 2.1.5 and 2.2.1 of the Intel SDM volume 2 gets register, base and displacement back, with the rsp/r12 SIB byte and the rbp/r13 zero displacement |
| Encoding.InstructionDecoded | platform/x86_64.c:420-448 | it takes exactly the encoded instruction off the front of any stream |
| Encoding.StreamDecoded | platform/x86_64.c:420-448 | so it reads back every list of instructions |
| Encoding.StreamsDiffer | platform/x86_64.c:420-448 | and different lists have different bytes |

## Left out

- Programs.CompileSource: expressions have one type, a signed 64-bit word; narrower integers, unsigned arithmetic, floats, pointers, arrays, structs, shifts, calls, increments and nested assignments are not in its trees, and assignment occurs as a statement only.
- Programs.CompileSource: asks for at most 128 leaves an expression and for ~ of computed values only, because beyond that the code can be wrong, as `Limits.SafeBound`, `Limits.SwapCounterexample` and `Limits.BitNotExactly` show; `ExprCorrect.RunActual` has expressions of any size.
- Programs.CompileSource: a variable read before it has a value makes the source unspecified, and then nothing is claimed about the code.
- Compiler.FunctionCorrect: `continue` is left out because inside an if its jump goes to a start that was never recorded (platform/x86_64.c:802-809), `switch` because it is lowered to gotos; a bare expression or assignment as a loop body is excluded by balance, see `Limits.LoopExactly`; void functions are left out.
- Compiler.FunctionCorrect: each abstract instruction is one code cell; the choice of encodings is not part of this theorem, bytes are treated in `Encoding` and `GotoPatch` on their own.
- Compiler.EmitFunction: the pre-pass that sizes the spill area (platform/x86_64.c:1332-1434) is not modelled; spill slots are taken to be there.
- StackIr.Assembler.GetSuNumber: numbers are remembered by tree rather than in a field of the node; equal trees have equal numbers.
- CallConv.CallDelivers: scalar arguments only; struct classes, variadic calls, saving and restoring r10 and r11 around calls, and return values are not part of the model.
- CallConv.Counter.Classify: scalars only, so the classes of struct members and the big structs passed by address are left out.
- CallConv.EmitCall: scalars and fixed arguments only.
- Entry.CompileForCalls: parameters are words with names, as in the trees of the compiled language.
- Climbing.Parser.ParseOperand: casts, sizeof, dereference, address-of, increments and postfix forms are not in its operands; type checks and constant folding (parser.c:612-1030) are not modelled.
- Climbing.ParsesExactly: the grammar is the one the code follows, in which the middle of ?: is parsed at the level of ?: itself, narrower than in C.
- Conditions.Evaluator.GetOperand: `defined` is left out.
- Conditions.ConditionExactly: `defined` and macro expansion inside conditions are left out; a shift count is taken modulo 64 and the smallest word divided by -1 wraps, where the program leaves both to the processor it is built for.
- Declarators.ParseDeclarations: parameter lists are empty, array sizes are literals, tags are always defined.
- BuildOrder.Builder.SortBuilds: among the orders that respect all dependencies, which one comes out is not stated.
- Flatten.SplicedExactly: lists that wrap a scope, and blocks that become empty, can stay behind, as `Flatten.Leftovers` shows, so the code does not remove all nesting that it could.
- Flatten.FlattenKeepsIr: is about the statements of a body; a function whose body ends in a return only after flattening also loses the added return of zero, which nothing reaches; `Flatten.FlattenRefines` and `Programs.CompileSource` cover that case.
- Macros.Preprocessor.ProcessIdentifier: object-like macros only.
- Macros.Preprocessor.Expand: object-like macros only; function-like ones, `__VA_OPT__`, the built-in ones and token locations are left out.
- BuildOrder.Builder.SortBuilds: tasks are known by their file names; parsing them to find their dependencies and the reporting of errors are not modelled.
- Layout.Record.Update: bit-fields do not exist in the language; templates, methods and hashes of types are left out.
- Layout.DesignatorsAgree: designators of one name; array and nested designators and the `aggregate` field of elements are left out.
- GotoPatch.JumpsDecoded: code of less than 2 GiB, since a displacement has 32 bits. Labels of other functions and the check that labels exist are not part of it.
- RingQueue.Queue.Push: fresh arrays stand for reallocated memory, and cells that hold nothing yet hold some value of the type.
- SortedMap.Run: clearing is left out, as it leaves the cursor on an entry that is no longer there; setting without a cursor stores nothing, where a caller of the program must not do it.
- SortedMap.Map.Commit: keys are integers with their usual order; the library sort and search are written out as an insertion sort and a binary search with the same results. Sets, lists, stacks and strings would only add easy members.
- Encoding.InstructionDecoded: register and memory forms; immediates, the choice of an opcode row (platform/x86_64.c:454-535) and 8-bit use of registers 4 to 7 are left out.
- The lexer, conditional-inclusion directives, executable memory, linking of symbols, the Windows calling convention, debugger support and error messages.
