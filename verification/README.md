# rox compiler core in Dafny

A model of the single-pass compiler of rox, a Rust implementation of the Lox
scripting language, and of the bytecode chunk it writes to. The compiler reads
tokens, reports errors in panic mode, keeps the block-scope bookkeeping of local
variables, and emits bytecode for `if`, `while` and `for` by backpatching
placeholder jumps. The verified facts are the ones a wrong program would break:
where the parser stands in the token stream after each construct, when it
reports an error, jump distances, pop counts and scope depth.

Files:

- `wrappers.dfy`: `Option` and `Result`.
- `tokens.dfy`: token kinds, and a finite token list standing in for the lexer.
  The list ends in `EOF` (and has no other `EOF`), and `EOF` repeats once the
  list is exhausted.
- `chunks.dfy`: values with their tag tests and checked accessors, the opcode set,
  and the `Chunk` class. A chunk is an instruction sequence plus a constant pool.
  It also holds the disassembly walk.
- `scopes.dfy` (module `Scopes`): the locals list as values. It covers the
  duplicate scan of a local declaration, the marking of a declared local, and the
  pop count of a scope exit.
- `parsing_code.dfy` (module `CodeShapes`): the instruction shapes of `if`,
  `while` and `for`, with lemmas on where each jump lands.
- `flow.dfy` (module `TokenFlow`): the parser's position and error state as a
  value (`Progress`). The token-level steps are functions on it: advance, report,
  consume, match and resynchronise.
- `statements.dfy` (module `StatementFlow`): each statement's walk through the
  tokens, composed from those steps. Each composite states when the
  statement fails.
- `parsing.dfy` (module `Parsing`): the `Parser` class. Its methods change the
  parser state in place: the cursor, `current` and `previous`, panic mode and the
  result, the scope depth, locals and local count, the chunk, and the stack of
  enclosing contexts. Every method that reads tokens ensures
  `Prog() == XOf(tokens, old(Prog()), …)` for the matching `StatementFlow` or
  `TokenFlow` function. So the cursor, the current and previous tokens, panic
  mode and the result after each method are stated exactly, and the functions'
  own contracts say when the result is an error.

Modelling choices:

- **Expressions and statement bodies.** Expressions are parsed by a Pratt parser
  outside this model. They, and nested statements, are *fragments*: the
  instructions they emit and the number of tokens they read. A fragment is
  emitted as given and advances that many times. It reports no error of its own.
- **The compiler context.** `compiler.rs` and `function.rs` are not part of this
  model. Their behaviour is assumed as follows.
  - `add_local` appends the local with depth -1 and counts one more live local.
  - `Compiler::new` gives an empty chunk, no locals and depth 0.
  - `resolve_local`'s answer and error queue are parameters.
  - `emit_return`'s instructions are a parameter.
  - `emit_byte`, `len`, `replace_opcode` and `make_constant` are `Chunk`'s append,
    length, slot overwrite and `AddConstant`.
- **Token comparison (assumed).** The parser compares token kinds with `==`
  (`check` at src/parser.rs:247-249, `consume` at src/parser.rs:435). It asks for
  `Identifier("")` to mean any identifier (src/parser.rs:124). The model assumes
  that this comparison looks at the variant only and ignores the name; that is
  `SameKind`. The only `TokenType` in view derives `PartialEq`
  (src/token.rs:1). A derived `==` would also compare the names. Then
  `consume(Identifier(""))` would reject every named identifier with "Expect
  variable name". At global scope `identifier_constant` would then find a
  non-identifier in `previous` and abort (src/parser.rs:139). The model does not
  follow that reading.
- **Stale locals.** `end_scope` only lowers the local count; the locals list keeps
  its entries. This has two consequences, and the model keeps both.
  - The declaration scan walks the whole locals list, so entries above the count
    stay visible. `{ var a; } { var a; }` therefore reports a duplicate
    (`Scopes.PoppedLocalClashes`, for any local the scope exit popped).
  - `mark_initialized` marks slot `local_count - 1` (src/parser.rs:508-514).
    `add_local` has just appended at the end of the list, so that slot is the new
    local only when no stale entries remain. Otherwise the oldest stale entry is
    marked again and the new local stays uninitialised (`Scopes.DeclaredLocals`,
    `Scopes.PoppedSlotMarked`, `Scopes.StaleSlotMarked`).
  - Either way, a `for` scope whose initializer declares a variable pops exactly
    one slot when it closes, provided no live local was deeper than the
    enclosing depth (`Scopes.DeclaredScopePops`, `Parsing.Parser.ForStatement`).
- **Wrap-around.** The `as u16` casts after an oversize jump are written out as
  `Wrap16` (remainder modulo 65536).
- **Panics.** Each place where the source aborts is a precondition here:
  - `patch_jump` given a non-jump opcode (src/parser.rs:392-395): `IsJump(op)`;
  - the `usize` subtractions `len - loop_start`, `len - offset` and `offset - 1`
    (src/parser.rs:371, 383, 398): `EmitLoop`'s `loopStart <= |chunk.opCodes| + 1`
    (the subtraction follows the push of `OpLoop`) and
    `PatchJump`'s `0 < offset <= |chunk.opCodes|`;
  - `identifier_constant` on a non-identifier (src/parser.rs:139):
    `IdentifierConstant`'s requires, and `ParseVariable`'s at global scope;
  - `push_compiler` without an identifier (src/parser.rs:78);
  - `pop_compiler` with no enclosing context (src/parser.rs:90);
  - `mark_initialized` with a local count of 0 (src/parser.rs:511-513):
    `MarkInitialized`'s `localCount > 0`;
  - the `unwrap` of the opcode at an offset (src/chunk.rs:120) and of the constant
    at an index (src/chunk.rs:162): `DisassembleInstruction`'s and
    `DisassembleChunk`'s requires.
- **Scope depth.** The scope depth is kept non-negative as part of `Valid()`.
- **The initial token.** `Token::dummy()` is modelled as an `EOF` token on line 0.
- **Long statements.** `if`, `while` and `for` are split into one method per part.
  Each method states the exact code it emits and the exact progress it makes.

## Model

| member | source | states |
|---|---|---|
| Tokens.SameKindIsReflexive | src/parser.rs:247-249 | every token kind matches itself |
| Tokens.SameKindIsSymmetric | src/parser.rs:247-249 | kind matching does not depend on argument order |
| Tokens.SameKindIsTransitive | src/parser.rs:247-249 | kind matching is transitive, so it is an equivalence |
| Tokens.SameKindIsEqualityOffIdentifiers | src/parser.rs:247-249 | apart from identifiers, a kind matches exactly itself |
| Tokens.FirstNonError | src/parser.rs:37-50 | the scan stops at the first token at or after the cursor that is not an error token, and every token it skips is an error token |
| Tokens.FirstNonErrorSkipsErrors | src/parser.rs:41-49 | skipping one error token does not change where the scan stops, and the list does not end there |
| Chunks.AsNumber | src/chunk.rs:31-38 | `Ok` exactly for a number, carrying that number; otherwise the error "Must be a number" |
| Chunks.AsBool | src/chunk.rs:40-48 | `Ok` exactly for a boolean, carrying that boolean; otherwise the error "Must be a boolean" |
| Chunks.TagsExclusive | src/chunk.rs:13-30 | `is_number` holds exactly for numbers and `is_bool` exactly for booleans, so no value is both |
| Chunks.ConstantsValidAppend | src/chunk.rs:161-165 | after an append, every constant operand still indexes the pool exactly when the new opcode's operand does |
| Chunks.ConstantsValidGrow | src/chunk.rs:104-107 | growing the pool never invalidates an operand already emitted |
| Chunks.AddedConstantIsOperand | src/chunk.rs:104-107 | an index handed out by `add_constant` is a valid `OpConstant` operand and names the added value, even after more additions |
| Chunks.Mnemonic | src/chunk.rs:121-152 | the eleven named opcodes get an `OP_` name; every other opcode gets none |
| Chunks.MnemonicIdentifies | src/chunk.rs:121-152 | two named opcodes with one mnemonic are the same instruction, up to a constant's index |
| Chunks.Chunk.constructor | src/chunk.rs:80-85 | a new chunk has no instructions and no constants |
| Chunks.Chunk.WriteChunk | src/chunk.rs:100-102 | appends one opcode at the end; earlier slots and the pool are unchanged; operand validity is kept |
| Chunks.Chunk.AddConstant | src/chunk.rs:104-107 | appends the value without deduplicating and returns the old pool length, where the value now sits |
| Chunks.Chunk.ReplaceOpcode | src/parser.rs:396-398 | overwrites exactly one existing slot |
| Chunks.Chunk.DisassembleInstruction | src/chunk.rs:118-165 | the next offset is always one slot further; a constant load shows the pool value at its index |
| Chunks.Chunk.DisassembleChunk | src/chunk.rs:109-116 | visits every index once, in order, leaves the chunk unchanged, and lists each instruction's mnemonic and constant |
| Scopes.IdentifiersEqual | src/parser.rs:189-205 | true exactly for two identifiers with equal length and equal name |
| Scopes.ScopeStart | src/parser.rs:161-166 | the innermost scope starts just after the last local of an enclosing scope; no local after it is enclosing |
| Scopes.RedeclaresInScope | src/parser.rs:161-167 | a clash is only ever an identifier equal to some local; an equal newest local of the innermost scope is always a clash |
| Scopes.RedeclaresInScopeIff | src/parser.rs:154-170 | the backward scan reports a duplicate exactly when an equal identifier sits at or after the start of the innermost scope |
| Scopes.PoppedLocalClashes | src/parser.rs:159-170 | after a scope exit, a name equal to any local it popped counts as a duplicate in the next block at the same depth |
| Scopes.PoppedSlotMarked | src/parser.rs:508-514 | after a scope exit, a declaration in the next block marks the first popped entry with the depth, leaves the new local at -1 and keeps the live locals |
| Scopes.DeclaredLocals | src/parser.rs:494-514 | with no stale entries the new local is appended with the current depth; otherwise the slot at the old live count gets the depth and the new local stays at -1 |
| Scopes.StaleSlotMarked | src/parser.rs:508-514 | after `{ var a; }` closes, declaring `b` at the same depth marks the stale `a` again and leaves `b` uninitialised |
| Scopes.PopCount | src/parser.rs:520-537 | the pops of a scope exit are the trailing live locals deeper than the new depth, stopping at the first that is not |
| Scopes.PopCountOfScope | src/parser.rs:523-536 | when exactly the k innermost live locals are deeper than the new depth, the pop count is k |
| Scopes.DeclaredScopePops | src/parser.rs:520-537 | when no live local is deeper than the depth, a scope holding one declaration pops exactly one slot, whichever slot the declaration marked, and an empty scope pops none |
| CodeShapes.Wrap16 | src/parser.rs:388-390 | the `as u16` cast never exceeds 65535 and leaves a distance that fits unchanged |
| CodeShapes.Patched | src/parser.rs:388-394 | the patched jump keeps its variant and carries the 16-bit distance |
| CodeShapes.IfTargets | src/parser.rs:265-286 | the false jump lands on the pop that starts the else part, and the then-branch's jump lands just past the statement |
| CodeShapes.WhileTargets | src/parser.rs:288-304 | the exit jump lands on the final pop, and the loop returns to the first instruction of the condition |
| CodeShapes.ForCondCode | src/parser.rs:321-330 | the condition clause is its condition plus two instructions, or nothing when absent |
| CodeShapes.ForIncrCode | src/parser.rs:334-347 | the increment clause is its increment plus three instructions, or nothing when absent |
| CodeShapes.ForTargets | src/parser.rs:310-357 | the body loops back to the increment (or to the condition), the increment loops back to the condition, the jump over the increment lands on the body, and the exit jump lands on the final pop |
| TokenFlow.AdvanceOf | src/parser.rs:37-50 | `previous` becomes the old `current`, `current` is never an error token, and panic mode and the result are untouched |
| TokenFlow.Skipped | src/parser.rs:456-461 | reading a fragment's tokens keeps panic mode and the result, and after at least one token leaves a non-error token current |
| TokenFlow.ReportIfRecordsFailure | src/parser.rs:553-568 | with panic only after an error, the result after a report is an error exactly when it already was one or the check failed |
| TokenFlow.ReportOf | src/parser.rs:553-568 | the tokens stay put; panic mode goes on exactly when the check failed or was on; the first report's message wins; a passing check changes nothing, and neither does any report while panic mode is on |
| TokenFlow.ConsumeOf | src/parser.rs:434-441 | succeeds exactly when the current kind matches, and then advances exactly one token as `AdvanceOf`, keeping the result; otherwise it is a report of `msg` at the current token as `ReportOf` describes, which turns panic on and stays put |
| TokenFlow.MatchOf | src/parser.rs:236-245 | advances exactly one token on a matching kind and otherwise changes nothing; never reports |
| TokenFlow.SyncOf | src/parser.rs:414-431 | panic mode is off afterwards and the result is kept; no token is skipped after a `;` or before a declaration keyword, one token otherwise |
| TokenFlow.RecoverOf | src/parser.rs:103-105 | panic mode is off afterwards; in panic mode it synchronises as `SyncOf` does, otherwise nothing changes |
| StatementFlow.DeclareOf | src/parser.rs:154-170 | the tokens stay put, and the result stays `Ok` exactly when there is no duplicate in the innermost scope of a local declaration |
| StatementFlow.ParseVariableOf | src/parser.rs:123-131 | succeeds exactly when the current token is an identifier that no local of the innermost scope already names; an identifier is consumed and the next token becomes current; anything else stays current and is reported with `msg` unless panic mode is already on, in which case nothing changes |
| StatementFlow.RedeclarationFails | src/parser.rs:154-170 | two locals of one name in one scope fail to compile |
| StatementFlow.StatementEndOf | src/parser.rs:403-410 | after the expression, succeeds exactly when `;` follows it |
| StatementFlow.InitialValueOf | src/parser.rs:109-118 | with `=`, the value and then `;`; without, `;` at once; succeeds exactly when that `;` is there |
| StatementFlow.VarDeclOf | src/parser.rs:108-121 | succeeds exactly when the name parses and the `;` follows the optional `= value` |
| StatementFlow.DeclarationOf | src/parser.rs:97-106 | never leaves panic mode on; fails exactly when an error was already recorded or the `var` declaration fails; a statement outside panic mode only reads its tokens |
| StatementFlow.ParenOf | src/parser.rs:266-268 | fails exactly when the `(` or the `)` after the condition is missing |
| StatementFlow.BranchesOf | src/parser.rs:270-285 | once the condition is parsed, fails exactly when the then-branch is too long to jump over, or when `else` follows and the else-branch is too long |
| StatementFlow.IfOf | src/parser.rs:265-286 | fails exactly when a parenthesis is missing or a branch is too long to jump over |
| StatementFlow.LoopBodyOf | src/parser.rs:293-303 | once the condition is parsed, fails exactly when the loop back to the condition does not fit |
| StatementFlow.WhileOf | src/parser.rs:288-304 | fails exactly when a parenthesis is missing or the loop back does not fit |
| StatementFlow.DeclaredInitOf | src/parser.rs:315-319 | after `var`, fails exactly when the declaration does; otherwise fails exactly when `;` does not follow the expression |
| StatementFlow.ForInitOf | src/parser.rs:313-319 | a `;` is consumed at once and never fails; otherwise the initializer decides |
| StatementFlow.CondClause | src/parser.rs:321-322 | the condition is present exactly when the next token is not `;` |
| StatementFlow.ForCondOf | src/parser.rs:321-330 | fails exactly when a present condition is not followed by `;` |
| StatementFlow.IncrClause | src/parser.rs:334 | the increment is present exactly when the token after the condition clause is not `)` |
| StatementFlow.IncrClauseOf | src/parser.rs:335-346 | fails exactly when `)` does not follow the increment or one of its two jumps does not fit |
| StatementFlow.ForIncrOf | src/parser.rs:334-347 | a `)` is consumed at once and never fails; otherwise fails exactly as the increment clause does |
| StatementFlow.ForLoopOf | src/parser.rs:320-355 | once the clauses are parsed, fails exactly when the body's loop back or the exit jump does not fit |
| StatementFlow.ForLoopFits | src/parser.rs:320-355 | with the clauses parsed without error, the loop fails exactly when some jump of `ForFits` does not fit in 16 bits |
| StatementFlow.ForOf | src/parser.rs:312-355 | succeeds only after a `(`, and after a `(` it is the initializer followed by the loop |
| Parsing.Parser.constructor | src/parser.rs:25-35 | a new parser is at the first token, with an `Ok` result, no panic, an empty chunk, no locals and depth 0 |
| Parsing.Parser.PushCompiler | src/parser.rs:69-81 | the current context is pushed unchanged, and a fresh one named after the identifier takes its place |
| Parsing.Parser.PopCompiler | src/parser.rs:83-92 | returns the finished function with its return code; resumes the innermost suspended context, with its chunk untouched |
| Parsing.Parser.ScanToken | src/parser.rs:40 | the lexer stand-in hands out the token at the cursor and moves on, repeating `EOF` at the end |
| Parsing.Parser.Advance | src/parser.rs:37-50 | the loop ends in exactly the state `AdvanceOf` describes |
| Parsing.Parser.Skip | src/parser.rs:456-461 | advancing once per token of a fragment ends in the state `Skipped` describes |
| Parsing.Parser.Check | src/parser.rs:247-249 | any two identifiers match; true only when both kinds are identifiers or neither is; off identifiers, true exactly when the kinds are equal |
| Parsing.Parser.MatchToken | src/parser.rs:236-245 | returns whether the current kind matches, and ends in the state `MatchOf` describes |
| Parsing.Parser.ErrorAt | src/parser.rs:553-568 | a failed check, as `ReportOf` describes |
| Parsing.Parser.Error | src/parser.rs:547-549 | reports at the previous token, as `ErrorAt` |
| Parsing.Parser.ErrorAtCurrent | src/parser.rs:541-543 | reports at the current token, as `ErrorAt` |
| Parsing.Parser.Consume | src/parser.rs:434-441 | ends in the state `ConsumeOf` describes |
| Parsing.Parser.Synchronize | src/parser.rs:414-431 | ends in the state `SyncOf` describes |
| Parsing.Parser.BeginScope | src/parser.rs:516-518 | raises the scope depth by one |
| Parsing.Parser.EndScope | src/parser.rs:520-537 | lowers the depth by one, emits exactly `PopCount` pops and nothing else, and lowers the local count by the same number |
| Parsing.Parser.AddLocal | src/parser.rs:494-506 | under the assumed behaviour: the local is appended with depth -1 and the count grows by one |
| Parsing.Parser.ResolveLocal | src/parser.rs:484-492 | returns the resolver's answer; reports every queued error, newest first, so panic mode keeps the newest |
| Parsing.Parser.DeclareVariable | src/parser.rs:154-187 | at depth 0 nothing changes; otherwise the local is added, and the report is exactly `DeclareOf`'s |
| Parsing.Parser.MarkInitialized | src/parser.rs:508-514 | only the slot at `local_count - 1` changes, and it gets the current depth |
| Parsing.Parser.DefineVariable | src/parser.rs:143-152 | a local is marked initialised with no code; a global gets one `OpDefineGlobal` with its name's index |
| Parsing.Parser.IdentifierConstant | src/parser.rs:133-141 | the name of the previous identifier is appended to the pool, and its index is returned |
| Parsing.Parser.ParseVariable | src/parser.rs:123-131 | ends in the state `ParseVariableOf` describes, so a duplicate is an error; a local is appended and yields index 0; a global yields the pool index of its name |
| Parsing.Parser.EmitOpaque | src/parser.rs:456-458 | appends the given code and nothing else |
| Parsing.Parser.Opaque | src/parser.rs:456-461 | appends the fragment's code and reads its tokens, as `Skipped` |
| Parsing.Parser.EmitJump | src/parser.rs:361-364 | appends the placeholder and returns the length after it, so the placeholder is at the returned position minus one |
| Parsing.Parser.PatchJump | src/parser.rs:382-399 | only the slot before the position changes; it gets the same jump variant carrying length minus position; "Too much code to jump over" is reported exactly when that exceeds 65535 |
| Parsing.Parser.EmitLoop | src/parser.rs:366-378 | appends one `OpLoop` whose distance is the new length minus the loop start; "Loop body too large" is reported exactly when that exceeds 65535 |
| Parsing.Parser.ExpressionStatement | src/parser.rs:403-410 | the expression's code and one pop; ends in the state `StatementEndOf` describes, so it fails exactly when `;` is missing |
| Parsing.Parser.PrintStatement | src/parser.rs:254-260 | the expression's code and one `OpPrint`; ends in the state `StatementEndOf` describes |
| Parsing.Parser.VarDeclaration | src/parser.rs:108-121 | ends in the state `VarDeclOf` describes; `hasValue` is whether `=` follows the name; the value or `nil`; a global gets its name in the pool and an `OpDefineGlobal`; the locals become `DeclaredLocals` of the old ones |
| Parsing.Parser.InitialValue | src/parser.rs:109-120 | the value's code when `=` follows, `OpNil` otherwise, then the definition; ends in the state `InitialValueOf` describes |
| Parsing.Parser.Declaration | src/parser.rs:97-106 | ends in the state `DeclarationOf` describes; a statement appends exactly its fragment's code and leaves the locals and the constant pool alone; a `var` declaration declares the name after `var`, appends the value or `nil` (and `OpDefineGlobal` at global scope), and puts the name in the pool (global) or the locals become `DeclaredLocals` of the old ones (local) |
| Parsing.Parser.VarOrStatement | src/parser.rs:98-102 | the same code, locals and constants as `Declaration`, before resynchronising: ends in the state `VarDeclOf` (after `var`) or the statement fragment describes |
| Parsing.Parser.RecoverIfPanicking | src/parser.rs:103-105 | ends in the state `RecoverOf` describes |
| Parsing.Parser.ParenCondition | src/parser.rs:266-268 | the condition's code; ends in the state `ParenOf` describes |
| Parsing.Parser.ElseBranch | src/parser.rs:281-283 | an `else` is consumed and its branch compiled exactly when the current token is `else`; otherwise nothing changes |
| Parsing.Parser.Guarded | src/parser.rs:270-274 | a false-jump placeholder, a pop and the fragment; returns the position after the placeholder |
| Parsing.Parser.ThenBranch | src/parser.rs:270-279 | the false jump patched past the then-branch and its jump, then a pop; reports exactly when that jump is too long |
| Parsing.Parser.IfBranches | src/parser.rs:270-285 | `hasElse` is whether `else` follows the then-branch; ends in the state `BranchesOf` describes; the code is `IfCode` without the condition |
| Parsing.Parser.IfStatement | src/parser.rs:265-286 | the code is exactly `IfCode`, whose jump targets `IfTargets` proves; `hasElse` is `HasElse`; ends in the state `IfOf` describes |
| Parsing.Parser.WhileBody | src/parser.rs:293-303 | the exit jump, the body and the loop back to the loop start; ends in the state `LoopBodyOf` describes |
| Parsing.Parser.WhileStatement | src/parser.rs:288-304 | the code is exactly `WhileCode`, whose targets `WhileTargets` proves; ends in the state `WhileOf` describes |
| Parsing.Parser.ForInitializer | src/parser.rs:313-319 | no initializer after `;`, a local declaration after `var`, an expression statement otherwise; ends in the state `ForInitOf` describes; a `var` initializer makes the locals `DeclaredLocals` of the old ones for the name after `var`, any other leaves them alone |
| Parsing.Parser.DeclaredInitializer | src/parser.rs:315-319 | a `var` initializer declares exactly one local, the locals becoming `DeclaredLocals` of the old ones for the name after `var`; an expression initializer leaves the locals alone; ends in the state `DeclaredInitOf` describes |
| Parsing.Parser.ForCondition | src/parser.rs:321-330 | the clause is `CondClause`; an exit placeholder follows a present condition at a known position; ends in the state `ForCondOf` describes |
| Parsing.Parser.ConditionClause | src/parser.rs:323-330 | the condition, then the exit placeholder, whose position is returned, then a pop; consumes the `;` or reports "Expect ';' after loop condition" |
| Parsing.Parser.EmitIncrement | src/parser.rs:335-340 | the jump placeholder, the increment and a pop; the increment starts just after the placeholder |
| Parsing.Parser.IncrementEnd | src/parser.rs:344-346 | the loop back to the condition and the patched jump over the increment, giving `ForIncrCode`; each distance that does not fit is reported |
| Parsing.Parser.IncrementClause | src/parser.rs:335-346 | the code is exactly `ForIncrCode`; ends in the state `IncrClauseOf` describes |
| Parsing.Parser.ForIncrement | src/parser.rs:334-347 | an increment is present exactly when the next token is not `)`, and the loop start then moves to it; ends in the state `ForIncrOf` describes |
| Parsing.Parser.PatchExit | src/parser.rs:350-355 | a present exit jump is patched to the end and followed by a pop, reporting exactly when it is too long; an absent one changes nothing |
| Parsing.Parser.LoopBack | src/parser.rs:349-355 | the loop back, then the exit jump's patch and pop; each distance that does not fit is reported |
| Parsing.Parser.ForBody | src/parser.rs:348-355 | after the clauses, the code becomes exactly `ForLoopCode`; the body's tokens are read and the two reports are stated exactly |
| Parsing.Parser.ForLoop | src/parser.rs:320-355 | the code is exactly `ForLoopCode`, whose targets `ForTargets` proves; the clauses are `CondClause` and `IncrClause`; ends in the state `ForLoopOf` describes |
| Parsing.Parser.ForScoped | src/parser.rs:311-355 | opens the `for` scope one level deeper, then everything `ForClauses` states |
| Parsing.Parser.ForClauses | src/parser.rs:312-355 | the `(`, the initializer and the loop, with the clauses tied to the tokens; ends in the state `ForOf` describes; the locals as the initializer leaves them |
| Parsing.Parser.EndForScope | src/parser.rs:356 | the `end_scope` closing a `for`, as `EndScope` states; when no live local was deeper than the enclosing depth, the local count returns to its value before the initializer and exactly one `OpPop` follows a `var` initializer (none otherwise) |
| Parsing.Parser.ForStatement | src/parser.rs:310-357 | the initializer, the loop and the pops of its scope, with the depth restored; ends in the state `ForOf` describes at the inner depth; the locals as the initializer leaves them; when no live local was deeper than the enclosing depth, the local count is restored and exactly one `OpPop` follows a `var` initializer (none otherwise) |
| Parsing.Parser.BeginCompile | src/parser.rs:54-57 | the result is reset to `Ok`, panic mode is cleared, and the first token is read |
| Parsing.Parser.FinishCompile | src/parser.rs:65-66 | the script gets its return code, and the compile succeeds exactly when no error was reported |

## Left out

- The lexer (`Scanner`) is not part of this model. A finite token list ending in `EOF` stands in for it, and it repeats `EOF` at the end.
- The error text printed by `error_at`, the message printed for error tokens in `advance`, the disassembly printing, and `end_compiler`'s dump to standard output are I/O. Only the state changes are modelled.
- The `while` loops of `compile` and `block`, and the dispatch in `statement`, are not modelled. `compile` is modelled as its start (`BeginCompile`) and its end (`FinishCompile`).
- The Pratt expression parser (`expression`, `parse_precedence`) is not part of this model. It dispatches through rule tables in `precedence.rs`, which is not part of this model either. A fragment stands for what it emits and how many tokens it reads; errors it would report itself ("Expect expression") are not modelled.
- `Value::Number` is a 64-bit float. It is modelled as a `real` payload with no arithmetic. `Display` for values is not modelled.
- Heap objects are opaque constants: a string or a function name.
- Parsing.Parser.AddLocal: assumes that `compiler.rs`'s `add_local` appends and reports no error, for example no local-count limit. Its queued errors are not modelled.
- Parsing.Parser.EndScope: requires an open scope (depth above 0). Every caller in the parser pairs it with `begin_scope`, and the type of the depth in `compiler.rs` is not part of this model.
- Parsing.Parser.PushCompiler: the new context's initial state is the assumed behaviour of `Compiler::new`, which is not part of this model.
- Parsing.Parser.PopCompiler: the return sequence stands for `emit_return`, which is not part of this model. The resumed chunk is stated to be untouched only when every context has a chunk of its own.
- Line numbers passed to `emit_byte` are not modelled; the chunk keeps no line table.
