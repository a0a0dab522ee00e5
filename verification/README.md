# Verified models of the benchmark suite's harder workloads

This project models, in Dafny, the parts of the benchmark suite whose correctness is not obvious from reading one
function, and proves what their comments, tests and twin implementations promise. `dafny verify dfyconfig.toml`
checks everything.

What is modelled, module by module:

- **The GraphQL validation engine, in its two ports.** `Ast` holds the document tree, the visitor keys of both ports and
  the schema. `Traversal` defines the merged walk and the walk of one visitor alone; a hook is any function of its
  visitor's own state, the type information and the node. `ParallelVisitor` and `JsValidate` are the two programs as
  they run: one context and one `skipping` array, updated in place, with exceptions in the JavaScript port. `Rules`
  defines the five rules and, with no traversal at all, the errors a document has; `RulesWalk`, `AsValidate`, `JsWalk` and
  `Agreement` connect the programs, the specification and each other. `ExactAgreement` says on which documents the ports
  never differ, and `MetaField` where both differ from the GraphQL specification. `LoneVisitor` and `TypeTracking` settle
  what a hook can observe; `StaleFieldDef` and `Disagreement` hold the documents that show where a simpler statement
  fails. `Children` says what each node holds, without any key, and `Contents` that the rules meet all of it.
- **The exception-handling workload.** `Grammar` has the statements' grammar and a counter automaton, `Parser` the
  throwing recursive-descent parser, `EhParser` its error recovery and the generator of its input.
- **The pointer chase and the twins.** `Lcg` proves when a linear congruential map modulo a power of two is one cycle;
  `Chase`, `MultiMem` and `ExtConst` prove that each feature module, its twin and the reference return the same checksum.
- **Byte formats.** `Png` has the PNG writer and a decoder written from RFC 2083, 1950 and 1951; `Imports` has the LEB128
  and import-section reader and the module layout of the WebAssembly Core Specification.
- **Kernels.** `Crc`, `Sieve`, `Relaxed` and `AudioDsp`.
- **The femtovg guest.** `DisplayList` has the flattening of the group tree and its interpretation with a stack.
- `Options`, `Bits`, `Bytes`, `LinearMemory`, `Recipes` and `Modular` are shared by the others.

Programs that change state are classes or methods over arrays and fields, each tied to a specification function; the
theorems are about those functions. A method spells out its own literals and operations, and the specification its
own. A value of a 32-bit register is a `Word` with every wrap written out; `Bits` says what exclusive or and rotation do
to each bit. Random draws are left open (`:|` and `*`), so what is proved holds for every seed of Python's
generator and for every choice an engine may make.

Where the code and its comments disagree, the model follows the code:

- `visitor.ts` says that it mirrors graphql-js, but a visitor walked alone gets a leave call for a node it skipped
  (`LoneVisitor.LoneWalkAgreesExactly`).
- `fieldDef` is a variable, not a stack, in the AssemblyScript port: leaving any field clears it. A hook sees the
  definition of its innermost enclosing field if and only if there is none to see, or no field has been left since that
  one was entered (`TypeTracking.FieldDefIsRightExactly`). `{ f { g } }` is a document where it matters
  (`StaleFieldDef`).
- The JavaScript port looks up every operation's fields in the query type, gives an inline fragment without a type
  condition no type, does not walk the members of unions, and lets a type definition define the empty name
  (`Disagreement`). `ExactAgreement.PortsAgreeExactly` says on which documents this matters.
- Both ports report the meta-field `__typename`, which section 5.3.1 of the GraphQL specification allows, unless the
  parent type lists it: `{ __typename }` is such a document, and without such fields the reports are exactly the
  violations (`MetaField.ReportsAreViolationsExactly`).
- Both relaxed-SIMD kernels mark an empty cache with the lowest 32-bit seed, so a call with that very seed, before any
  other, runs on blank inputs and returns 0 (`Relaxed.Kernels.RelaxedDot`). The inputs are not those of that seed
  (`Relaxed.Kernels.BlankIsNotFilled`); that the reference's result for it is not 0 as well is not proved.
- `write_png` drops an incomplete last row, writes a stream without a final block for an image without rows, and
  wraps the length of a chunk that is too long; `Png.DecodesExactly` says for which calls the file is the image.
- The LEB128 reader goes on past five bytes: a checked build stops there, any other takes the shift modulo 32. It drops
  what does not fit 32 bits without a word (`Imports.TooLargeIsRead`, `Imports.TooLongIsRead`).
- `sieve` answers -1 for a negative argument, `sieve_reference` answers 0.

## Model

| member | source | states |
|---|---|---|
| Traversal.DispatchLane | workloads/graphql-validation/assemblyscript/assembly/visitor.ts:150-195 | A dispatch loop over all visitors changes visitor i's state, skipping entry and calls as if the others were not there |
| Traversal.WalkInfo | workloads/graphql-validation/assemblyscript/assembly/validate.ts:93-188 | The type information after a subtree does not depend on the visitors: it is what it was before, except that the AssemblyScript port has lost fieldDef exactly if a field can be reached in the subtree |
| Traversal.MergedIsSolo | workloads/graphql-validation/assemblyscript/assembly/visitor.ts:132-196 | In a merged walk of any tree, whatever all the hooks do, each visitor gets the calls and ends in the state of its own walk, where SKIP stops the descent and BREAK stops everything |
| Traversal.OthersDoNotMatter | workloads/graphql-validation/assemblyscript/assembly/visitor.ts:384-422 | And that is what it gets when it is merged with no other visitor at all |
| LoneVisitor.LoneWalkAgreesExactly | workloads/graphql-validation/assemblyscript/assembly/visitor.ts:437-483 | walkNode on one visitor gives the calls of the merged walk if and only if the run never answers SKIP on a kind that has a leave hook |
| LoneVisitor.VisitorsThatAgreeExactly | workloads/graphql-validation/assemblyscript/assembly/visitor.ts:437-483 | Of the visitor as such: the two walks agree on all trees, states and type information if and only if no kind with a leave hook has an enter hook that can answer SKIP |
| LoneVisitor.EnterOnlyNeverTells | workloads/graphql-validation/assemblyscript/assembly/visitor.ts:449-452 | A visitor without leave hooks, such as each rule, can never meet that case |
| LoneVisitor.LoneWalkDiffers | workloads/graphql-validation/assemblyscript/assembly/visitor.ts:449-452 | A concrete visitor and node for which the two walks differ |
| TypeTracking.SoloIsByPlace | workloads/graphql-validation/assemblyscript/assembly/validate.ts:93-188 | A visitor's own walk, which hands type information down and carries it on, is the walk that carries none and tells each hook the pure function InfoAt of the schema and its place |
| TypeTracking.MergedIsByPlace | workloads/graphql-validation/assemblyscript/assembly/validate.ts:93-188 | So in a whole merged walk, in either port, every visitor with any hooks makes the calls and ends in the state of its own walk told nothing but its places |
| TypeTracking.ParentTypeIsAFunctionOfThePath | workloads/graphql-validation/assemblyscript/assembly/validate.ts:93-188 | The parent type of a visitor's k-th call is the function TypeSeen of the path to the place of that very call, and the walk ends with the type it began with |
| TypeTracking.FieldDefIsRightExactly | workloads/graphql-validation/assemblyscript/assembly/validate.ts:154-188 | In a merged walk of the AssemblyScript port, the fieldDef that a visitor's k-th call sees is that of the innermost field enclosing the place of that call if and only if that is none or no field has been left since it was entered; the JavaScript port always shows the one enclosing the node from above |
| StaleFieldDef.FieldDefIsNotAFunctionOfThePath | workloads/graphql-validation/assemblyscript/assembly/validate.ts:154-188 | In a document walked with the port's own keys, entering and leaving one selection set show different fieldDefs on the same path |
| StaleFieldDef.StaleFieldDefIsSeen | workloads/graphql-validation/assemblyscript/assembly/validate.ts:180-188 | On that document a visitor that asks for fieldDef on leaving ends in another state than its path would give |
| ParallelVisitor.VisitInParallel | workloads/graphql-validation/assemblyscript/assembly/visitor.ts:384-422 | The table holds, for every kind, each visitor's hooks in order, and has no entry exactly when no visitor has a hook |
| ParallelVisitor.WalkRestoresSkipping | workloads/graphql-validation/assemblyscript/assembly/visitor.ts:150-195 | After a subtree each skipping entry is what it was before, unless its visitor broke |
| ParallelVisitor.WalkKeepsNone | workloads/graphql-validation/assemblyscript/assembly/visitor.ts:454-471 | While a node's children are walked, each skipping entry is empty, broken, or the node or an ancestor of it |
| ParallelVisitor.ParallelWalk.EnterTurn | workloads/graphql-validation/assemblyscript/assembly/visitor.ts:153-171 | One turn of the enter loop on the shared arrays is one Turn of the specification |
| ParallelVisitor.ParallelWalk.LeaveTurn | workloads/graphql-validation/assemblyscript/assembly/visitor.ts:177-192 | One turn of the leave loop, which also clears the entry of a node that was skipped |
| ParallelVisitor.ParallelWalk.DispatchEnter | workloads/graphql-validation/assemblyscript/assembly/visitor.ts:150-173 | The loop, and the missing table entry, give every visitor its turn at entering |
| ParallelVisitor.ParallelWalk.DispatchLeave | workloads/graphql-validation/assemblyscript/assembly/visitor.ts:175-195 | The same at leaving; a kind without an entry needs that nobody is skipping this node |
| ParallelVisitor.ParallelWalk.EnterOperationDefinition | workloads/graphql-validation/assemblyscript/assembly/validate.ts:93-105 | Pushes the old type; the hooks and the children see the root type of the operation |
| ParallelVisitor.ParallelWalk.EnterFragmentDefinition | workloads/graphql-validation/assemblyscript/assembly/validate.ts:115-124 | Pushes the old type; hooks and children see the condition's type |
| ParallelVisitor.ParallelWalk.EnterInlineFragment | workloads/graphql-validation/assemblyscript/assembly/validate.ts:134-144 | The same, and without a condition the type stays |
| ParallelVisitor.ParallelWalk.EnterField | workloads/graphql-validation/assemblyscript/assembly/validate.ts:154-179 | The field's hooks see the containing type and the field's own definition, the children see the field's type |
| ParallelVisitor.ParallelWalk.LeaveNode | workloads/graphql-validation/assemblyscript/assembly/validate.ts:106-188 | Leave hooks run first, then the type that was pushed comes back |
| ParallelVisitor.ParallelWalk.WalkNode | workloads/graphql-validation/assemblyscript/assembly/visitor.ts:437-472 | The recursion over keys, single children and lists is the walk of the specification, and the type stack is restored |
| ParallelVisitor.ParallelWalk.Visit | workloads/graphql-validation/assemblyscript/assembly/visitor.ts:428-435 | A whole run: every visitor's calls, state and entry are those of its own walk told its places and of the run without the others, and the type stack and type information are back |
| Rules.ReportNonExecutable | workloads/graphql-validation/assemblyscript/assembly/rules/ExecutableDefinitionsRule.ts:32-47 | One error per definition that is neither an operation nor a fragment, in order |
| Rules.DefinedTypes | workloads/graphql-validation/assemblyscript/assembly/rules/KnownTypeNamesRule.ts:54-78 | The pre-pass collects exactly the names of the type definitions that the port counts |
| Rules.RulesAreDisciplined | workloads/graphql-validation/assemblyscript/assembly/rules/FieldsOnCorrectTypeRule.ts:25-47 | No rule has a leave hook or reads fieldDef anywhere but on entering a field |
| Rules.EachRuleRunsAlone | workloads/graphql-validation/assemblyscript/assembly/visitor.ts:132-196 | So each of the five rules, merged with the other four, gets the calls and ends in the state of running alone, told nothing but its paths |
| RulesWalk.NamesUpToAreNamedBefore | workloads/graphql-validation/assemblyscript/assembly/rules/UniqueOperationNamesRule.ts:37-55 | The growing map of known names holds a name exactly when an earlier position names an operation so |
| RulesWalk.RulesWalkFrom | workloads/graphql-validation/assemblyscript/assembly/rules/UniqueOperationNamesRule.ts:37-67 | From any position of a document on, the walk of the five rules adds the errors of the positions below it, in order, with the skipping entries and known names the position calls for |
| RulesWalk.RunReportsExpected | workloads/graphql-validation/assemblyscript/assembly/rules/FieldsOnCorrectTypeRule.ts:25-47 | One merged run of the five rules, in either port, reports exactly the specified errors, in document order |
| AsValidate.Validate | workloads/graphql-validation/assemblyscript/assembly/validate.ts:240-262 | validate returns exactly the specified errors for every schema and document |
| AsValidate.ReportedIffEarned | workloads/graphql-validation/assemblyscript/assembly/validate.ts:240-262 | An error is in the specified list if and only if some position earns it |
| Ast.NamesAreRead | workloads/graphql-validation/assemblyscript/assembly/ast.ts:107-145 | The name of a name node, and of a named type that holds one, is its text |
| Children.KidsAreParts | workloads/graphql-validation/assemblyscript/assembly/ast.ts:107-525 | For every node class, the AssemblyScript table leads to exactly the nodes its constructor holds, in the order of its keys; so does the JavaScript table, but for unions and field definitions, which it does not enter |
| Contents.PositionsReach | workloads/graphql-validation/assemblyscript/assembly/visitor.ts:437-472 | The walk reaches a node if and only if it occurs in the document: it is the root, or occurs in a part of it |
| Contents.UnknownTypesExactly | workloads/graphql-validation/assemblyscript/assembly/rules/KnownTypeNamesRule.ts:40-78 | A named type is reported if and only if it occurs in the document and neither the schema nor a type definition of the document has its name |
| AsValidate.MissingFieldsExactly | workloads/graphql-validation/assemblyscript/assembly/rules/FieldsOnCorrectTypeRule.ts:25-47 | A field is reported if and only if some path to it gives it a parent type that lacks it |
| MetaField.MetaFieldIsReported | workloads/graphql-validation/assemblyscript/assembly/rules/FieldsOnCorrectTypeRule.ts:25-47 | Both ports report __typename wherever it stands on a composite type that does not list it |
| MetaField.BothPortsReportTypename | workloads/graphql-validation/assemblyscript/assembly/rules/FieldsOnCorrectTypeRule.ts:25-47 | `{ __typename }` is a document on which they do |
| MetaField.ReportsAreViolationsExactly | workloads/graphql-validation/assemblyscript/assembly/rules/FieldsOnCorrectTypeRule.ts:25-47 | The rule's errors are as many as the violations of section 5.3.1 of the GraphQL specification and such meta-fields together, so the reports are the violations if and only if the document has no such meta-field |
| AsValidate.NoErrorsIffValid | workloads/graphql-validation/assemblyscript/assembly/rules/FragmentsOnCompositeTypesRule.ts:40-85 | The list is empty if and only if the document meets what the five rules ask, stated on its positions: that is sections 5.1.1, 5.2.1.1, 5.3.1, 5.5.1.2 and 5.5.1.3 of the GraphQL specification without the meta-field __typename |
| AsValidate.RepeatsAreCounted | workloads/graphql-validation/assemblyscript/assembly/rules/UniqueOperationNamesRule.ts:37-67 | The number of UniqueOperationNames errors is the number of named operations less the number of distinct names |
| JsWalk.ReportAllCapped | workloads/graphql-validation/porffor/index.js:592-601 | A series of reports under a cap keeps what fits, adds the synthetic error and throws the abort object |
| JsWalk.CalledIffWalked | workloads/graphql-validation/porffor/index.js:32-75 | Hooks are called for exactly the kinds whose children are walked |
| JsWalk.ThrownSubtree | workloads/graphql-validation/porffor/index.js:747-775 | Once something has been thrown the rest of the walk changes nothing |
| JsWalk.JsSubtreeCapped | workloads/graphql-validation/porffor/index.js:747-775 | At every point of a walk, with any throwing hooks, the capped run is the uncapped one or its prefix with the synthetic error |
| JsWalk.CapKeepsAPrefix | workloads/graphql-validation/porffor/index.js:592-601 | validate's outcome under a cap: the uncapped outcome when the errors fit, else the first maxErrors and the synthetic one; no other exception is swallowed |
| JsWalk.QuietSubtree | workloads/graphql-validation/porffor/index.js:747-775 | Without a cap and without throwing hooks the JavaScript walk is the merged walk, and its two stacks are restored |
| JsValidate.MergeVisitors | workloads/graphql-validation/porffor/index.js:695-717 | The map has an entry for a walked kind exactly when some visitor has a hook for it, with the hooks in order |
| JsValidate.ValidationContext.ReportError | workloads/graphql-validation/porffor/index.js:592-601 | One report: the error, or the synthetic error and the abort |
| JsValidate.ValidationContext.CallHook | workloads/graphql-validation/porffor/index.js:651-660 | A hook call reports its errors in order until one throws |
| JsValidate.ValidationContext.CallOne | workloads/graphql-validation/porffor/index.js:651-686 | One turn of the loops in enter and leave, exceptions included, is one turn of the specification |
| JsValidate.ValidationContext.CallEntry | workloads/graphql-validation/porffor/index.js:640-690 | The whole loop; an exception leaves it at once |
| JsValidate.ValidationContext.EnterNodeContext | workloads/graphql-validation/porffor/index.js:780-822 | What is pushed on the two stacks is the type information that the children see |
| JsValidate.ValidationContext.LeaveNodeContext | workloads/graphql-validation/porffor/index.js:824-839 | Pops what EnterNodeContext pushed |
| JsValidate.ValidationContext.WalkSubtree | workloads/graphql-validation/porffor/index.js:747-775 | The recursion is the specified walk, and without an exception both stacks are restored |
| JsValidate.ValidationContext.Visit | workloads/graphql-validation/porffor/index.js:1053-1066 | The handler swallows the abort object and rethrows anything else |
| JsValidate.ValidateWith | workloads/graphql-validation/porffor/index.js:1030-1069 | validate with arbitrary rules and maxErrors (100 by default): the uncapped outcome, cut off at the cap |
| JsValidate.RulesAreQuiet | workloads/graphql-validation/porffor/index.js:845-982 | The five rules throw nothing themselves and hook no kind that is never walked |
| JsValidate.Validate | workloads/graphql-validation/porffor/index.js:1030-1069 | validate with the five rules returns the specified errors under the cap and never throws |
| Agreement.SameKids | workloads/graphql-validation/assemblyscript/assembly/ast.ts:30-85 | The two tables of visitor keys lead to the same children on every kind that both ports walk |
| Agreement.PortsAgree | workloads/graphql-validation/porffor/index.js:637-839 | Where no position is one that can tell them apart, both ports report the same errors in the same order |
| ExactAgreement.PortsAgreeExactly | workloads/graphql-validation/porffor/index.js:777-839 | The ports report the same errors on a document under every schema, or under every schema whose query type is the one named Query, if and only if: around each field the innermost operation or conditioned fragment is a condition with a name or, in the second case, a query, and no unconditioned fragment follows it; each named type that both ports reach is defined by the document for both or for neither; and each that only one reaches is defined |
| Disagreement.PortsDifferOnMutations | workloads/graphql-validation/porffor/index.js:782-789 | A mutation on which the ports report different errors |
| Disagreement.PortsDifferOnQueryType | workloads/graphql-validation/porffor/index.js:782-789 | A query on which they do, against a schema whose query type is not the one named Query |
| Disagreement.PortsDifferOnInlineFragments | workloads/graphql-validation/porffor/index.js:811-820 | A query with an inline fragment without a type condition on which they do |
| Disagreement.PortsDifferOnUnions | workloads/graphql-validation/assemblyscript/assembly/ast.ts:30-85 | A union with an unknown member, which only one port walks |
| Disagreement.PortsDifferOnEmptyNames | workloads/graphql-validation/assemblyscript/assembly/rules/KnownTypeNamesRule.ts:60-74 | A type definition with an empty name, which defines a type in one port only |
| Grammar.ScanStatement | workloads-wat/gen.py:139-198 | The counter automaton accepts every statement of the grammar |
| Grammar.Completion | workloads-wat/gen.py:139-198 | Whatever it has read, the automaton can be brought to acceptance |
| Grammar.ScanBalance | workloads-wat/gen.py:110-124 | Text that can be read has one digit more than operators once an operand is complete, and as many open as closed parentheses as its depth says |
| Parser.ParsesExactlyStatements | workloads-wat/gen.py:139-198 | The parser accepts at a position exactly when a statement of the grammar stands there, and returns its value with the usual precedence modulo 2^32 |
| Parser.ViableIffReadable | workloads-wat/gen.py:143-179 | A text begins some statement if and only if the automaton can read it |
| Parser.ErrorIsFirstOffendingByte | workloads-wat/gen.py:163-198 | On failure the text before the recorded position begins some statement, and with the byte there it begins none |
| Parser.Machine.ExprCall | workloads-wat/gen.py:143-152 | The loop over the position global is the parsing function, and a throw leaves the position in errpos |
| Parser.Machine.TermCall | workloads-wat/gen.py:153-162 | The same for products |
| Parser.Machine.FactorCall | workloads-wat/gen.py:163-179 | The same for digits and parentheses |
| Parser.Machine.StatementCall | workloads-wat/gen.py:192-198 | The same for an expression and its semicolon |
| EhParser.StatementAt | workloads-wat/reference.py:68-108 | A call at any position either accepts the text up to the statement's own semicolon, with its value, or fails where that text cannot be read on |
| EhParser.Skip | workloads-wat/gen.py:181-190 | Recovery stops just after the next semicolon |
| EhParser.EhParserRun | workloads-wat/gen.py:203-220 | Every statement of the stream is met exactly once and added to the sum or counted as an error with its position; the result is the signed 32-bit number with the residue of the sum and 1000003 for each error |
| EhParser.GeneratedIsAccepted | workloads-wat/gen.py:95-103 | The generator's ambiguous grammar yields sentences of the parser's grammar |
| EhParser.GenExpr | workloads-wat/gen.py:95-103 | Every sequence of draws yields a text of the generator's grammar |
| EhParser.Mutate | workloads-wat/gen.py:111-124 | Each of the ways to spoil a statement makes one that the parser rejects |
| EhParser.GenStatements | workloads-wat/gen.py:105-126 | bad is exactly the number of statements in the stream that are not accepted, and no statement holds an inner semicolon |
| EhParser.StartsAt | workloads-wat/gen.py:181-198 | Statement j of a stream is read from its own first byte to its own semicolon, whatever came before |
| EhParser.RunCountsBad | workloads-wat/reference.py:110-122 | The driver's error count is the generator's count of spoiled statements |
| Lcg.HopsAreDistinct | workloads-wat/gen.py:450-453 | With a = 1 mod 4 and c odd, fewer than 2^k hops never come back |
| Lcg.GeometricValuation | workloads-wat/gen.py:465-469 | 2^k divides 1 + a + ... + a^(n-1) exactly when it divides n |
| Lcg.FullPeriodExactly | workloads-wat/gen.py:450-453 | For every k of at least 2 the map is one cycle through all residues if and only if a = 1 mod 4 and c is odd |
| Chase.ChaseMeetsDistinctNodes | workloads-wat/gen.py:480-485 | The 262144 nodes of a call are pairwise different for every seed |
| Bytes.WrapMeans | workloads-wat/reference.py:16-22 | Wrapping keeps the residue modulo 2^32 or 2^64 |
| Bytes.XorMeans | workloads-wat/reference.py:122-122 | Every bit of an exclusive or is the sum of two bits, modulo two |
| Bytes.RotlMeans | workloads-wat/reference.py:25-37 | A rotation moves bit i up by r places, around the end |
| Bytes.HalvesAre | workloads-wat/reference.py:189-189 | The low word of a long exclusive-or its own upper half is that of its two halves |
| Chase.Reference | workloads-wat/reference.py:182-189 | The reference loop folds the payloads of those nodes, and the checksum is the exclusive or of the two halves of the sum |
| Chase.Module.LinkIsNext | workloads-wat/gen.py:465-469 | The link computed with 64-bit or with 32-bit wrapping is the address of the next node |
| Chase.Module.StoreNode | workloads-wat/gen.py:464-474 | One turn of the set-up loop adds a node, link and payload byte by byte, and keeps the earlier ones |
| Chase.Module.Run | workloads-wat/gen.py:476-486 | Both modules return the reference's checksum for every seed, on the first call and on later ones |
| MultiMem.Reference | workloads-wat/reference.py:165-179 | The reference folds the running hash of the source bytes through the table |
| MultiMem.Module.Init | workloads-wat/gen.py:399-412 | Fills source and table byte by byte, in three memories or in disjoint regions of one |
| MultiMem.Module.Run | workloads-wat/gen.py:413-436 | Either layout returns the reference's checksum for every seed, on every call, although stores into the output may be into the array that holds the table |
| LinearMemory.Store64 | workloads-wat/gen.py:465-472 | The eight bytes of a stored word read back as the word, and no other byte changes |
| ExtConst.EvaluatedIsExact | workloads-wat/gen.py:541-551 | Wrapping at every node of a constant expression is the same as wrapping its exact value once |
| ExtConst.TreeHasItsValue | workloads-wat/gen.py:541-551 | For every stream of draws, the generated expression evaluates to the folded value, which is also the reference's, after the same number of draws |
| ExtConst.SignedIsSame | workloads-wat/gen.py:514-521 | The folded constant written as a signed number has the same bits and is in the signed range |
| ExtConst.EveryOpIsDrawn | workloads-wat/gen.py:532-532 | The three operations are all drawn |
| ExtConst.TwinIsFolded | workloads-wat/gen.py:547-556 | One module has an expression for every global and every offset, its twin a constant |
| ExtConst.SegmentsAreLaid | workloads-wat/gen.py:555-560 | Segment k's offset evaluates to 16 k + 4096 in either spelling and holds the word the reference drew |
| ExtConst.Run | workloads-wat/gen.py:562-582 | Either module instantiates without a trap and returns the reference's checksum, for every stream of draws and every seed |
| Png.AdlerLoop | crates/benchmark-core/src/femtovg_e2e.rs:649-653 | Reducing after every byte gives the checksum of RFC 1950 defined on unreduced sums |
| Png.FilterRows | crates/benchmark-core/src/femtovg_e2e.rs:636-640 | A zero byte before each whole row |
| Png.WriteBlocks | crates/benchmark-core/src/femtovg_e2e.rs:641-648 | The stored blocks, only the last of them marked final |
| Png.WritePng | crates/benchmark-core/src/femtovg_e2e.rs:618-664 | The file is the signature and three chunks with their lengths and checksums |
| Png.ChunksAreBlocks | crates/benchmark-core/src/femtovg_e2e.rs:642-642 | Every block has between 1 and 65535 bytes |
| Png.InflateStored | crates/benchmark-core/src/femtovg_e2e.rs:641-648 | Reading stored blocks by RFC 1951 gives back the bytes and stops exactly behind them |
| Png.UnzlibZlib | crates/benchmark-core/src/femtovg_e2e.rs:641-654 | Reading the stream by RFC 1950, with its header and Adler-32 checks, gives back the bytes |
| Png.HeaderIsChecked | crates/benchmark-core/src/femtovg_e2e.rs:641-641 | The reader that the writer is measured by checks the two bytes before the stream as RFC 1950 has it |
| Png.OnlyDataBetween | crates/benchmark-core/src/femtovg_e2e.rs:660-662 | It takes only image data between the first chunk and the last |
| Png.EmptyBlockIsRead | crates/benchmark-core/src/femtovg_e2e.rs:641-648 | It takes a stored block without bytes |
| Png.UnzlibNothing | crates/benchmark-core/src/femtovg_e2e.rs:641-654 | For an image without rows the stream has no final block and cannot be read |
| Png.UnfilteredFiltered | crates/benchmark-core/src/femtovg_e2e.rs:636-640 | Taking the filter bytes off gives back whole rows |
| Png.ReadWritten | crates/benchmark-core/src/femtovg_e2e.rs:629-635 | A chunk reads back, its checksum tested against the remainder of RFC 2083, exactly when it is no longer than that standard allows |
| Png.WholeZlibSize | crates/benchmark-core/src/femtovg_e2e.rs:636-654 | The length of the compressed data of a whole image, in closed form from its width and height |
| Png.DecodedFits | crates/benchmark-core/src/femtovg_e2e.rs:618-664 | A file that decodes to the image it was written from keeps its data within the length of one chunk, also when the length field has wrapped |
| Png.DecodesExactly | crates/benchmark-core/src/femtovg_e2e.rs:618-664 | For every call, decoding the file by the three standards gives back width, height and pixels if and only if the image has rows, all of them were passed, and the data, of a length its sides determine, fits a chunk |
| Imports.LebOrIs | crates/benchmark-core/src/femtovg_e2e.rs:246-258 | Up to five bytes, or-ing shifted digits on 32 bits is the number modulo 2^32 |
| Imports.EveryFormIsRead | crates/benchmark-core/src/femtovg_e2e.rs:246-258 | Every LEB128 form of every u32, padded ones up to five bytes included, reads back as that number, in checked and unchecked builds |
| Imports.ReadIsAForm | crates/benchmark-core/src/femtovg_e2e.rs:246-258 | Conversely what is read is a form of the result if and only if it has at most five bytes and the fifth carries no bits above the 32nd |
| Imports.TooLargeIsRead | crates/benchmark-core/src/femtovg_e2e.rs:246-257 | 80 80 80 80 10 spells 2^32 and is read as 0 by every build |
| Imports.TooLongIsRead | crates/benchmark-core/src/femtovg_e2e.rs:246-257 | 80 80 80 80 80 00 spells 0; an unchecked build reads it, a checked one stops |
| Imports.LebDenotes | crates/benchmark-core/src/femtovg_e2e.rs:246-258 | Every number has a form of every width that it fits |
| Imports.Uleb | crates/benchmark-core/src/femtovg_e2e.rs:246-258 | The loop reads what ReadU32 says in either kind of build: the shifted digits or-ed together, the truncation error, or in a checked build the overflow at the sixth byte |
| Imports.Name | crates/benchmark-core/src/femtovg_e2e.rs:259-264 | A length and that many bytes, or the truncation error |
| Imports.ImportNames | crates/benchmark-core/src/femtovg_e2e.rs:245-289 | The scan terminates on every input, in either kind of build and with any room in memory, and returns what the section-by-section reading says |
| Imports.FunctionsAreNamed | crates/benchmark-core/src/femtovg_e2e.rs:271-284 | The expected outcome is the list of all imports exactly when all are functions |
| Imports.NamesAreExact | crates/benchmark-core/src/femtovg_e2e.rs:265-289 | For every well-formed import section, after any other sections and before anything, the outcome is the names in order, or the complaint about the first import that is not a function, unless there is no room for as many |
| Imports.NoImportsNoNames | crates/benchmark-core/src/femtovg_e2e.rs:265-289 | Without an import section the list is empty |
| Imports.CutShortIsRefused | crates/benchmark-core/src/femtovg_e2e.rs:265-289 | A file that ends anywhere inside its import section is refused as truncated, or for want of room for the imports it announces |
| Crc.StepsAreLinear | workloads-rs/crc32.rs:28-31 | Shifting the register is linear over exclusive or |
| Crc.TableStep | workloads-rs/crc32.rs:54-63 | Eight shifts are one shift by a byte and one look-up of the low byte |
| Crc.CrcIsRemainder | crates/benchmark-core/src/femtovg_e2e.rs:619-628 | The register is the remainder of the message, as a polynomial modulo two, on division by the polynomial of RFC 2083, section 3.4, with the first 32 coefficients and the result complemented |
| Crc.BuildTable | workloads-rs/crc32.rs:21-35 | Every entry is the register after eight shifts of its index |
| Crc.TableCrc | workloads-rs/crc32.rs:48-64 | The table-driven loop computes that remainder on every byte sequence |
| Crc.BitCrc | crates/benchmark-core/src/femtovg_e2e.rs:619-628 | So do the nested loops |
| Crc.Workload | workloads-rs/crc32.rs:37-64 | The exported function returns that remainder of the generated input whatever the buffer held |
| Crc.StepIsInjective | workloads-rs/crc32.rs:29-29 | No two registers shift to the same one |
| Crc.OneByteChangeIsDetected | crates/benchmark-core/src/femtovg_e2e.rs:619-628 | Changing one byte of a message always changes its checksum |
| Sieve.CompositeAddsNothing | workloads-rs/sieve.rs:36-44 | Skipping a number that is crossed out loses no multiple |
| Sieve.CrossedIffComposite | workloads-rs/sieve.rs:35-35 | Once p * p exceeds n, a number up to n is crossed out exactly when it is not prime |
| Sieve.Sieve | workloads-rs/sieve.rs:19-52 | The count of primes up to n for 0 <= n <= 10000 whatever the buffer held, -1 and an untouched buffer otherwise |
| Sieve.Reference | crates/benchmark-core/src/lib.rs:1022-1040 | The count of primes up to n for every n |
| Relaxed.ChoiceDoesNotMatter | workloads-rs/relaxed_kernels.rs:3-9 | With right operands of seven bits no choice of sign, saturation or wrapping changes a lane |
| Relaxed.ChoiceMattersOtherwise | workloads-rs/relaxed_kernels.rs:6-9 | Without that bound it does |
| Relaxed.PairMeans | workloads-rs/relaxed_kernels.rs:6-9 | A pair sum is kept exactly, at the nearest 16-bit number, or modulo 2^16, as the engine chooses |
| Relaxed.PolynomialIsExact | workloads-rs/relaxed_kernels.rs:11-16 | Every intermediate value of the polynomial is at most 39364 in magnitude |
| Relaxed.DotInstruction | workloads-rs/relaxed_kernels.rs:76-76 | Each lane gets its four products, whatever the engine chooses |
| Relaxed.MaddInstruction | workloads-rs/relaxed_kernels.rs:145-145 | Fused and unfused steps agree under any rounding that keeps integers up to 2^24 |
| Relaxed.FusingMattersOtherwise | workloads-rs/relaxed_kernels.rs:11-16 | Beyond 2^24 a fused and an unfused step can differ |
| Relaxed.ChunkAdds | workloads-rs/relaxed_kernels.rs:71-84 | The four lanes together hold the sum of the products read so far, modulo 2^32 |
| Relaxed.Kernels.DotKernel | workloads-rs/relaxed_kernels.rs:62-89 | The kernel returns the fold over all cells of the matrix product |
| Relaxed.Kernels.RelaxedDot | workloads-rs/relaxed_kernels.rs:44-95 | The reference's result for every seed, except 0 for the lowest seed while no other has been used |
| Relaxed.Kernels.MaddKernel | workloads-rs/relaxed_kernels.rs:128-156 | The kernel returns the fold of the exact polynomial values for every choice |
| Relaxed.Kernels.RelaxedMadd | workloads-rs/relaxed_kernels.rs:107-162 | The reference's result for every seed, with the same exception |
| Relaxed.Kernels.BlankIsNotFilled | workloads-rs/relaxed_kernels.rs:44-49 | In the exceptional case the kernel's inputs are not those that the seed generates |
| AudioDsp.EnvelopeFollows | workloads-rs/audio_dsp.rs:97-102 | The envelope machine follows a closed formula in the sample number inside a frame |
| AudioDsp.EnvelopeFollowsFrame | workloads-rs/audio_dsp.rs:119-128 | And across the phases that the ends of frames impose |
| AudioDsp.PositionFollows | workloads-rs/audio_dsp.rs:104-107 | Adding the increment and subtracting the limit keeps the position at t times the increment modulo 4096 * 2^12 |
| AudioDsp.SixthTruncates | workloads-rs/audio_dsp.rs:99-99 | The interpolation divides by six towards zero |
| AudioDsp.MixBounds | workloads-rs/audio_dsp.rs:86-110 | The mix of n voices is within n * 2^15 |
| AudioDsp.LowPassIsBetween | workloads-rs/audio_dsp.rs:112-112 | A low-pass step ends between the old state and the input |
| AudioDsp.FilteredBounds | workloads-rs/audio_dsp.rs:112-112 | The low-pass state stays within the bound of eight voices |
| AudioDsp.ReleaseEndsInSilence | workloads-rs/audio_dsp.rs:101-101 | 640 samples after the release every mix is zero |
| AudioDsp.Synth.Init | workloads-rs/audio_dsp.rs:43-70 | The sample memory, the voices and the filter depend on the seed alone |
| AudioDsp.Synth.VoiceTurn | workloads-rs/audio_dsp.rs:87-109 | A voice contributes what the formula says and moves to its next state, and no value leaves 32 bits |
| AudioDsp.Synth.NextOutput | workloads-rs/audio_dsp.rs:83-115 | One output sample is the formula's, and mix and filter stay in 32 bits |
| AudioDsp.Synth.Run | workloads-rs/audio_dsp.rs:77-135 | The result is the sum of the formula's output samples modulo 2^31, whatever an earlier run left |
| DisplayList.Scene.ClipGeometry | workloads-rs-cargo/femtovg-guest/src/lib.rs:124-140 | The clip's paths merged, under the even-odd rule if any path asks for it, with their segments counted |
| DisplayList.Scene.Walk | workloads-rs-cargo/femtovg-guest/src/lib.rs:64-121 | Appends the flattened tree to the list and its segments to the count |
| DisplayList.DrawsTheTree | workloads-rs-cargo/femtovg-guest/src/lib.rs:236-252 | Running the list with the stack of states draws the marks of the recursive rendering and leaves state and stack as they were |
| DisplayList.Canvas.DrawFrame | workloads-rs-cargo/femtovg-guest/src/lib.rs:226-254 | A frame clears, sets its view, runs the list and restores |
| DisplayList.FrameDrawsTheTree | workloads-rs-cargo/femtovg-guest/src/lib.rs:226-254 | A frame of a flattened tree is the tree rendered directly, and the stack is as deep as before |
| DisplayList.MarksAreMade | workloads-rs-cargo/femtovg-guest/src/lib.rs:64-121 | A mark is drawn if and only if some path leads to a visible shape of whose fill or stroke, not a pattern, it has the path, source and rule or line, with its opacity times those of exactly the groups on the path and under their clips |
| DisplayList.FlattenedIsBalanced | workloads-rs-cargo/femtovg-guest/src/lib.rs:67-120 | No prefix of the list restores more than it clipped, and the whole list restores all of it |

## Left out

- Error messages, and the nodes of an error beyond the one that identifies it: the ports differ in both.
- Hooks that edit the tree, a hook's key, parent, path and ancestors arguments, and documents that are not trees of the modelled kinds; a JavaScript document that lacks a field would throw a TypeError.
- The hooks of the rules are function values here, as a hook is in the walks; the loops inside them and before them are methods.
- The node classes are one datatype whose name fields are plain nodes, and `skipping` compares nodes structurally; a proper descendant never equals its ancestor, so this cannot confuse two nodes of one path.
- The 43 forwarding functions, one per kind, are collapsed into one table.
- Directives and the other kinds that no node class exists for: they are in the key tables, and lead nowhere.
- ExactAgreement.PortsAgreeExactly: asks that conditions are named types, as the node classes declare them, and that no operation, fragment or field stands inside a union or a field definition, where no grammar puts one.
- LoneVisitor.LoneWalkAgreesExactly: the lone walk's hooks are told the type information of their places, as in the merged walk; no code of the repository walks a lone visitor with types tracked.
- The size of the statement stream against the two pages that the module reserves, and stack depth.
- Python's generator of random numbers: every draw is arbitrary.
- Chase.Module.Run, MultiMem.Module.Run and ExtConst.Run return the 32 bits of their results; that these are read as signed numbers is left out.
- Png.WritePng: returns the bytes; writing the file is not part of this model. The decoder reads stored blocks, filter type 0 and the one colour type that is written.
- Imports.ImportNames: names are byte strings, without the lossy conversion to text; of the memory only the reservation for the announced number of imports can fail.
- Relaxed.Kernels.BlankIsNotFilled: says that the inputs differ, not that the results do.
- Relaxed.Kernels.RelaxedMadd: f32 values are integers under an arbitrary rounding that keeps integers up to 2^24; NaN and negative zero do not occur.
- `audio_dsp_reference` and `crc32_reference` repeat the modelled loops statement by statement and are not modelled a second time.
- In the guest, paths are sequences of opaque segments and paints are opaque sources: transforms, gradients, stroke attributes, zoom and float rounding are left out, and opacity is a real number. The canvas library is not part of this model; its restore with nothing saved is taken to reset the state.
- The runtime adapters, timing, residency and process probes, the apps, the build and result scripts, the GPU code, and the small workloads (factorial, fib, convolution, matmul, vtable and call-indirect): calls into code not shown, or easy.
