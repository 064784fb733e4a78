# Calculator core in Dafny

This project models the sequential core of a terminal calculator. The
calculator re-evaluates its input line on every keystroke. Each keystroke
becomes a line edit. The edit updates a byte buffer, and an incremental
parser turns the buffer into a syntax tree. The tree is validated and
lowered to an expression (`Expr`). A type resolver decides between integer
and float arithmetic, and the expression is lowered to typed machine
instructions. These are compiled and run, and the compiled function is
cached under a structural hash of the expression. After each miss the
calculator means to sweep cached entries unused for five minutes. As
written, the sweep runs on a copy of the cache and never removes anything
(see Findings); the model keeps the entry the code keeps in
`Cache.CleanupAsWritten`, and its orchestrator uses the intended sweep.

The modules follow the repository's structure:

| module | models |
|---|---|
| `Errors` | `src/language/error.rs`: the diagnostic and its seven kinds with their display strings |
| `Ast` | `Expr`, `BinaryOpKind`, `CalcValue` with `Default` and `eq` |
| `Numbers` | Rust's `i64::from_str`, which the `number` branch uses, and the decimal spelling |
| `Typing` | `determine_type` |
| `Semantics` | a reference evaluator: 64-bit wrap-around integer arithmetic, float operations as parameters |
| `Lowering` | `compile_node` as a typed instruction tree, the signature and tag choice of `compile_expr`, calling a compiled function |
| `Hashing` | the `Hash` implementation for `Expr` as the sequence of writes it makes, and `hash_ast` |
| `ParseTree` | parse tree nodes, and `collect_error_nodes` as a recursive method with a loop |
| `AstBuilder`, `AstBuilderLaws` | `node_to_expr`, and the trees the grammar builds for printed expressions |
| `Cache` | the function cache: hit, miss, and the sweep of `cleanup_cache` |
| `InputBuffer` | `src/language/input_buffer.rs` |
| `Calculator` | `update_input`, the orchestrator |
| `Scenarios` | whole updates matching the repository's own tests |
| `Repl` | `InputAction`, `InputState`, `handle_action`, and the edit the REPL loop derives from two successive lines |

The model takes several things as parameters:

- The parse engine's output: the tree for the current buffer, or none.
- Float literal parsing (`FloatParser`) and float arithmetic (`FloatSemantics`).
- The hasher (`Hasher`), a function of the writes fed to it.
- The native back end's failure, an optional message.
- The clock, a time in nanoseconds.

Text is modelled as ASCII, one byte per character (`Byte`). The REPL advances its
cursor by one per character, so this is the setting in which its byte
offsets are right.

The code and the description of the program disagree in three places.
The model follows the code in each:

- Diagnostics carry an empty source text. The calculator's `source` field
  is created empty and never filled (mod.rs:162). Only the empty-parentheses
  diagnostic attaches the input (mod.rs:341).
- The slash is division. Two tests expect `1 / 2` and `2 / 3` to fail with
  "Invalid operator" (mod.rs:757-768, 850-853). Yet `node_to_expr` maps
  "/" to `Divide` (mod.rs:392), and `Scenarios.DivisionIsAccepted` records
  that behaviour.
- The grammar has no `parenthesized_expression` rule, so the program
  rejects `(2 + 3) * 4`, which the test at mod.rs:943-953 expects to give
  20. The branch for such nodes is modelled as written, and
  `Scenarios.ParenthesizedBranchScenario` states what the branch does when
  given one, not what the program answers for that text.

## Model

| member | source | states |
|---|---|---|
| Errors.KindDisplayRoundTrip | src/language/error.rs:21-42 | every error kind can be recovered from its display text, except that a parse error's message is not shown |
| Errors.KindDisplayInjective | src/language/error.rs:21-42 | two kinds with the same display are equal, or are both parse errors |
| Errors.KindFromDisplay | src/language/error.rs:21-42 | a kind read back from a display text has that text's prefix |
| Ast.ValueEq | src/language/mod.rs:81-90 | when at most one side is a float, equality holds exactly when both are integers with the same value; two floats are equal exactly when the epsilon comparison holds of them |
| Ast.ValueEqSymmetric | src/language/mod.rs:81-90 | equality is symmetric whenever the float comparison is |
| Numbers.FormatParseRoundTrip | src/language/mod.rs:349-351 | parsing the decimal spelling of any 64-bit integer, sign included, gives that integer back |
| Numbers.ParseI64 | src/language/mod.rs:349-360 | accepted text is non-empty, a leading minus gives a non-positive value and no minus a non-negative one |
| Numbers.ParseI64Shape | src/language/mod.rs:349-360 | accepted text is an optional sign followed only by digits |
| Typing.DetermineType | src/language/mod.rs:501-516 | the float flag is set exactly when the returned value is a float |
| Typing.PromotionLaw | src/language/mod.rs:501-516 | an expression is float-typed exactly when it holds a float literal or a division at any depth |
| Typing.IntegerUnlessPromoted | src/language/mod.rs:505-513 | division is float whatever its operands; other operators on two integer sides stay integer |
| Typing.DetermineTypeLeaves | src/language/mod.rs:688-713 | literals keep their value and kind, parentheses are transparent, and integer plus float is float |
| Semantics.Wrap64 | src/language/mod.rs:556-558 | integer results are congruent to the exact result modulo 2^64 and equal it when it fits in 64 bits |
| Lowering.CompileNode | src/language/mod.rs:518-576 | the emitted instruction is well typed at the type of its tag, and the tag is the type resolver's verdict |
| Lowering.LoweringKeepsOperators | src/language/mod.rs:533-572 | lowering keeps every operator of the expression, in order and of the same kind |
| Lowering.IntegerTypedIsIntegerOnly | src/language/mod.rs:518-576 | an integer-typed instruction contains no float constant, float arithmetic or conversion |
| Lowering.IntegerExpressionLowersToIntegerCode | src/language/mod.rs:518-576 | an expression without float literals or division lowers to integer instructions only |
| Lowering.CompileExpr | src/language/mod.rs:434-499 | compilation fails exactly when the back end fails, with a JIT error at span (0, 0) and no help; otherwise the declared return type matches the body and the function is float-valued exactly when the expression promotes |
| Lowering.LoweringCorrect | src/language/mod.rs:518-576 | running the lowered instructions gives the reference value of the expression, which is a float exactly when the resolver says so |
| Lowering.CompiledCallCorrect | src/language/mod.rs:127-132 | calling the compiled function gives the reference value of the expression |
| Hashing.Encode | src/language/mod.rs:34-57 | every expression's writes start with its variant tag |
| Hashing.DecodeEncode | src/language/mod.rs:34-57 | the writes can be parsed back to the expression, whatever follows them |
| Hashing.EncodeInjective | src/language/mod.rs:34-57 | distinct expressions make distinct writes, so equal keys mean a hasher collision or equal expressions |
| Hashing.ParenthesizedDiffers | src/language/mod.rs:51-54 | a parenthesized expression never hashes the same writes as its content |
| ParseTree.CollectErrorNodes | src/language/mod.rs:137-146 | the method appends exactly the ERROR nodes of the tree, in pre-order, to the list it is given |
| ParseTree.ValidatorReportsFirstError | src/language/mod.rs:137-146 | the list is empty exactly when the tree has no ERROR node; otherwise its head is the first ERROR node in pre-order |
| AstBuilder.OperatorFromText | src/language/mod.rs:388-399 | an operator is recognised exactly for the texts "+", "-", "*" and "/" |
| AstBuilder.NodeToExpr | src/language/mod.rs:301-432 | every diagnostic from lowering carries a help text |
| AstBuilderLaws.BinaryCheckOrder | src/language/mod.rs:373-424 | a binary node is checked left operand, left lowering, operator, operator text, right operand, right lowering, and the first failure is the result with its message |
| AstBuilderLaws.OperatorTexts | src/language/mod.rs:388-392 | each operator text maps to its operator, "/" to division |
| AstBuilderLaws.OtherNodeKinds | src/language/mod.rs:306-372 | wrappers lower their first child or fail when it is missing; a number or float node succeeds exactly when its text parses, with that value, and otherwise fails with its invalid-number message; ERROR and unknown nodes are parse errors |
| AstBuilderLaws.LowerSourceNode | src/language/mod.rs:301-432 | lowering the tree of a printed expression gives the expression back |
| AstBuilderLaws.SourceNodeHasNoErrors | src/language/mod.rs:137-146 | the tree of a printed expression has no ERROR node |
| Cache.Touch | src/language/mod.rs:285-289 | a hit restamps only the entry it used and keeps its code |
| Cache.Insert | src/language/mod.rs:291-296 | a miss stores the new function under its key and changes no other entry |
| Cache.Sweep | src/language/mod.rs:578-584 | the sweep keeps exactly the entries used less than 300 seconds ago, unchanged |
| Cache.SweepIdempotent | src/language/mod.rs:578-584 | sweeping twice at one time removes nothing more |
| Cache.SweepWindow | src/language/mod.rs:578-584 | an entry survives every sweep within 300 seconds of its last use and no later one |
| Cache.HitEntrySurvives | src/language/mod.rs:285-289 | an entry hit within the window before a sweep survives it with its code |
| Cache.CleanupAsWritten | src/language/mod.rs:578-584 | the cleanup as written leaves the calculator's cache unchanged |
| Cache.CleanupAsWrittenKeepsStaleEntry | src/language/mod.rs:578-584 | an entry unused for 301 seconds survives the cleanup as written, while the sweep evicts it |
| InputBuffer.New | src/language/input_buffer.rs:9-14 | the new buffer is empty, its edit start is 0 and it reserves 1024 bytes |
| InputBuffer.Update | src/language/input_buffer.rs:16-31 | the buffer keeps its bytes before the edit start and then holds the edited region of the new text; capacity stays at least the length |
| InputBuffer.UpdateReproducesInput | src/language/input_buffer.rs:16-31 | when old and new text agree before the edit start and the edit reaches the end of the new text, the buffer holds exactly the new text |
| InputBuffer.UpdateIgnoresCapacity | src/language/input_buffer.rs:23-25 | the contents do not depend on whether the reserve step ran |
| InputBuffer.UpdateScenarios | src/language/input_buffer.rs:51-72 | the partial update and the successive appends of the buffer's tests give the texts they expect |
| Calculator.UpdateInput | src/language/mod.rs:224-299 | the buffer is always updated; a returned tree is kept even when a later stage fails; a failed update leaves the cache unchanged |
| Calculator.SyntaxErrorReportsFirstErrorNode | src/language/mod.rs:257-279 | a tree with ERROR nodes fails with a syntax error at the first ERROR node in pre-order, and the tree is kept |
| Calculator.LoweringFailureKeepsCache | src/language/mod.rs:281 | a lowering failure is returned as is, with the tree kept and the cache untouched |
| Calculator.HitTouchesOnlyItsEntry | src/language/mod.rs:285-289 | a hit answers with the cached function, restamps it, and changes no other entry |
| Calculator.MissInsertsUnderKey | src/language/mod.rs:291-298 | a miss answers with the expression's value and leaves the compiled function cached under the expression's key |
| Calculator.UpdateKeepsCoherence | src/language/mod.rs:224-299 | every cached function stays the compilation of some expression with its key |
| Calculator.CacheIsTransparent | src/language/mod.rs:283-298 | with a coherent cache and no hasher collision, a hit gives the same value as compiling afresh |
| Calculator.SecondEvaluationHits | src/language/mod.rs:722-731 | evaluating the same tree again is a hit, touches only that entry and gives the same value |
| Scenarios.FreshEvaluation | src/language/mod.rs:224-299 | typing a whole expression into a new calculator leaves its text in the buffer, caches one function and yields its value |
| Scenarios.PrecedenceScenario | src/language/mod.rs:862-866 | `1 + 2 * 3` evaluates to the integer 7 |
| Scenarios.ParenthesizedBranchScenario | src/language/mod.rs:336-348 | a tree for `(2 + 3) * 4` with a `parenthesized_expression` node lowers through the parentheses branch and evaluates to the integer 20 |
| Scenarios.NegativeLiteralScenario | src/language/mod.rs:623-627 | `-42` evaluates to the integer -42 |
| Scenarios.DivisionIsAccepted | src/language/mod.rs:392 | `1 / 2` evaluates to the float quotient of 1 and 2 |
| Scenarios.IncompleteSumIsValid | src/language/mod.rs:137-146 | the tree of `1 +` with a missing right operand has no ERROR node |
| Scenarios.IncompleteSumLowering | src/language/mod.rs:349-359 | lowering that tree fails with an invalid-number diagnostic, "Failed to parse integer", at the empty operand at byte 3, with the valid-integer help |
| Scenarios.IncompleteSumIsInvalidNumber | src/language/mod.rs:843-847 | `1 +` passes validation and fails with that diagnostic, keeping the tree and leaving the cache empty |
| Repl.HandleAction | src/repl.rs:48-126 | every action keeps the cursor on the line; the flag is set exactly when the state changed, except that setting the content always sets it; typing puts the character at the cursor and steps past it; backspace and delete remove the character before or under the cursor and do nothing at the start or end of the line; left and right move by one and stop at the ends; home and end reach the ends; cursor moves never change the text |
| Repl.BackspaceUndoesInsert | src/repl.rs:48-61 | backspace right after typing a character restores the previous state |
| Repl.InsertAndLeftUndoDelete | src/repl.rs:48-70 | typing back a deleted character and moving left restores the previous state |
| Repl.LeftRightInverse | src/repl.rs:72-88 | left and right undo each other wherever both can move |
| Repl.HomeEndIdempotent | src/repl.rs:90-106 | home and end reach the ends of the line, and a second press reports no change |
| Repl.CommonPrefix | src/repl.rs:288-293 | the count is within both lines, the lines agree on that prefix, and it cannot be extended |
| Repl.EditReproducesContent | src/repl.rs:288-305 | the REPL's edit is accepted by the buffer and leaves exactly the new line in a buffer holding the previous one |
| Repl.Step | src/repl.rs:281-345 | each action keeps the buffer, the remembered line and the line on screen equal; the calculator is updated exactly when the line editor reports a change, with the edit from the common prefix to the ends of the previous and new lines, and the session keeps the calculator that update returns |
| Repl.Run | src/repl.rs:256-350 | any run of actions keeps that invariant |
| Repl.TypingBuildsTheLine | src/repl.rs:48-51 | typing a text character by character appends it to the line and leaves the cursor at the end |

## Left out

- The parse engine is left out: tree-sitter, `Tree::edit`, and incremental reparsing. Its tree is a parameter, and the model does not say how a reused tree is edited.
- Node text is part of the tree parameter. The code reads a node's text from a string at the node's span: the buffer for the syntax-error message (mod.rs:269) and `new_input` for lowering (mod.rs:303). The model does not read it from the input, so it does not distinguish those two strings and admits trees whose text disagrees with the input.
- The grammar's precedence and associativity are left out. The model takes whatever tree the engine returns.
- Native code generation is left out: the Cranelift module, the function builder, symbol naming with a random suffix, and the executable memory. Compilation is an instruction tree plus an optional back-end failure.
- Floating-point arithmetic and float literal parsing are parameters. So is the epsilon comparison of two floats in `CalcValue::eq` (`Ast.ValueEq` takes it as `floatsClose`).
- The printing of values is left out. It belongs to the terminal display.
- AHasher is a parameter, because its output depends on a per-process seed. Collisions are excluded only where a lemma says so.
- The background thread of `cleanup_cache` is not modelled. The sweep runs synchronously at the time of the miss.
- Calculator.UpdateInput: a miss applies the intended `Cache.Sweep` to the calculator's cache. As written, `cleanup_cache` sweeps a copy, so the real cache is never swept and keeps every entry; `Cache.CleanupAsWritten` and `Cache.CleanupAsWrittenKeepsStaleEntry` record that behaviour.
- Locks, `Arc` sharing and concurrent access to the cache are left out.
- Terminal I/O is left out: `draw_input_line`, syntax highlighting, key reading, colours, and the rendering of diagnostics.
- The mapping from key events to actions in `run_repl` is left out. `Step` takes any action.
- Multi-byte UTF-8 text is not modelled. The buffer would be cut inside a character, and the REPL's character counts would be used as byte offsets.
- `usize` underflow in `InputBuffer::update` is left out. `UpdateRequires` excludes it, and every edit the REPL issues meets it (`Repl.EditReproducesContent`).
- InputBuffer.Update: the reserved capacity is modelled only as a lower bound of at least the length, because `Vec`'s growth policy is not part of the program.
- Calculator.UpdateInput: a parse that returns no tree leaves the stored tree as it was, but the real stored tree has already been edited in place.
- `Calculator::new` is modelled only as the empty initial state, and `CompiledFunction::new_int` and `new_float` only as a stamp with the compile time. Both depend on the back end and the clock.

## Findings

| source | as written | input that shows it | evidently intended | confidence | as-written member | corrected member |
|---|---|---|---|---|---|---|
| src/language/mod.rs:578-584 | `cleanup_cache` runs `retain` on `function_cache.clone()`; cloning a `DashMap` copies its shards, so only a private copy is swept and then dropped | a function cached at time 0 and not used again; any later miss at 301 seconds leaves it cached | evict entries unused for 300 seconds from the calculator's own cache | high; not executed; relies on `DashMap`'s `Clone` copying the map | Cache.CleanupAsWritten | Cache.Sweep |
