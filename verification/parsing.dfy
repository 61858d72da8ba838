/**
 * The single-pass compiler's state machine: a token cursor, error reporting with
 * panic-mode suppression, block scopes and locals, jump emission and backpatching,
 * the instruction shapes of `if`/`while`/`for`, and the stack of enclosing
 * function contexts. Expressions and nested statements are opaque emitters.
 */
module Parsing {
  import opened Wrappers
  import opened Tokens
  import opened Chunks
  import opened Scopes
  import opened CodeShapes
  import opened TokenFlow
  import opened StatementFlow

  datatype FunctionKind = Script | Function

  /** A suspended per-function compilation context. */
  datatype Context = Context(name: string, kind: FunctionKind, chunk: Chunk,
                             locals: seq<Local>, localCount: nat, scopeDepth: int)

  /** A finished function: its name, kind and bytecode. */
  datatype ObjectFunction = ObjectFunction(name: string, kind: FunctionKind, chunk: Chunk)

  /** How a `for` statement's initializer clause was compiled. */
  datatype Initializer = NoInitializer | VarInitializer(hasValue: bool) | ExprInitializer

  function InitializerCode(init: Initializer, code: seq<Opcode>): seq<Opcode> {
    match init
    case NoInitializer => []
    case VarInitializer(hasValue) => if hasValue then code else [OpNil]
    case ExprInitializer => code + [OpPop]
  }

  /** Backpatching one slot leaves everything around it in place. */
  lemma PatchSlot(before: seq<Opcode>, placeholder: Opcode, patched: Opcode, after: seq<Opcode>)
    ensures (before + [placeholder] + after)[|before| := patched] == before + [patched] + after
  {
  }

  /**
   * The code of an `if` as its emitters leave it, once the jump over the else-branch
   * is backpatched, is `IfCode`.
   */
  lemma IfAssembled(o: seq<Opcode>, cond: seq<Opcode>, thenCode: seq<Opcode>, e: seq<Opcode>,
                    emitted: seq<Opcode>, elseJump: nat, c: seq<Opcode>)
    requires emitted == o + cond + ([OpJumpIfFalse(Wrap16(|thenCode| + 2)), OpPop] + thenCode + [OpJump(0), OpPop]) + e
    requires elseJump == |o| + |cond| + |thenCode| + 3
    requires c == emitted[elseJump - 1 := Patched(OpJump(0), |emitted| - elseJump)]
    ensures c == o + IfCode(cond, thenCode, e)
  {
    var head := o + cond + [OpJumpIfFalse(Wrap16(|thenCode| + 2)), OpPop] + thenCode;
    assert emitted == head + [OpJump(0)] + ([OpPop] + e);
    PatchSlot(head, OpJump(0), OpJump(Wrap16(|e| + 1)), [OpPop] + e);
    assert c == head + [OpJump(Wrap16(|e| + 1))] + ([OpPop] + e);
  }

  /** The code of an `if` is its condition's code followed by that of its branches. */
  lemma IfCodeAfter(o: seq<Opcode>, cond: seq<Opcode>, thenCode: seq<Opcode>, e: seq<Opcode>)
    ensures o + cond + IfCode([], thenCode, e) == o + IfCode(cond, thenCode, e)
  {
  }

  /** The code of an `if`'s then-branch as its emitters leave it, once its own jump is backpatched. */
  lemma ThenAssembled(o: seq<Opcode>, thenCode: seq<Opcode>, thenJump: nat, c4: seq<Opcode>, c6: seq<Opcode>)
    requires c4 == o + [OpJumpIfFalse(0)] + [OpPop] + thenCode + [OpJump(0)] && thenJump == |o| + 1
    requires c6 == c4[thenJump - 1 := Patched(OpJumpIfFalse(0), |c4| - thenJump)] + [OpPop]
    ensures |c4| - thenJump == |thenCode| + 2
    ensures c6 == o + ([OpJumpIfFalse(Wrap16(|thenCode| + 2)), OpPop] + thenCode + [OpJump(0), OpPop])
  {
    var rest := [OpPop] + thenCode + [OpJump(0)];
    assert c4 == o + [OpJumpIfFalse(0)] + rest;
    PatchSlot(o, OpJumpIfFalse(0), OpJumpIfFalse(Wrap16(|thenCode| + 2)), rest);
  }

  /**
   * The code of a `while`'s body as its emitters leave it, step by step after code
   * `o` that ends in the condition, once the exit jump is backpatched.
   */
  lemma LoopAssembled(o: seq<Opcode>, body: seq<Opcode>, loopStart: nat, exitJump: nat, c3: seq<Opcode>, c5: seq<Opcode>)
    requires loopStart <= |o|
    requires c3 == o + [OpJumpIfFalse(0)] + [OpPop] + body && exitJump == |o| + 1
    requires var looped := c3 + [OpLoop(Wrap16(|c3| + 1 - loopStart))];
      c5 == looped[exitJump - 1 := Patched(OpJumpIfFalse(0), |looped| - exitJump)] + [OpPop]
    ensures |c3| + 1 - loopStart == |o| - loopStart + |body| + 3 && |c3| + 1 - exitJump == |body| + 2
    ensures c5 == o + [OpJumpIfFalse(Wrap16(|body| + 2)), OpPop] + body
                  + [OpLoop(Wrap16(|o| - loopStart + |body| + 3)), OpPop]
  {
    var rest := [OpPop] + body + [OpLoop(Wrap16(|o| - loopStart + |body| + 3))];
    assert c3 + [OpLoop(Wrap16(|c3| + 1 - loopStart))] == o + [OpJumpIfFalse(0)] + rest;
    PatchSlot(o, OpJumpIfFalse(0), OpJumpIfFalse(Wrap16(|body| + 2)), rest);
  }

  /** The code of a `for`'s increment clause once the jump over it is backpatched. */
  lemma IncrAssembled(o: seq<Opcode>, incr: seq<Opcode>, cond: Clause, loopStart: nat, bodyJump: nat,
                      c3: seq<Opcode>, c4: seq<Opcode>, c5: seq<Opcode>)
    requires loopStart + CondLen(cond) == |o|
    requires c3 == o + [OpJump(0)] + incr + [OpPop] && bodyJump == |o| + 1
    requires c4 == c3 + [OpLoop(Wrap16(|c3| + 1 - loopStart))]
    requires c5 == c4[bodyJump - 1 := Patched(OpJump(0), |c4| - bodyJump)]
    ensures |c3| + 1 - loopStart == CondLen(cond) + |incr| + 3 && |c4| - bodyJump == |incr| + 2
    ensures c5 == o + ForIncrCode(cond, Present(incr))
  {
    var jump, back := OpJump(Wrap16(|incr| + 2)), OpLoop(Wrap16(CondLen(cond) + |incr| + 3));
    var rest := incr + [OpPop, back];
    assert |c3| == |o| + |incr| + 2;
    assert c4 == o + [OpJump(0)] + incr + [OpPop] + [back];
    assert [OpPop] + [back] == [OpPop, back];
    Appended(o + [OpJump(0)], incr, [OpPop], [back]);
    assert c4 == o + [OpJump(0)] + rest;
    PatchSlot(o, OpJump(0), jump, rest);
    Appended(o, [jump], incr, [OpPop, back]);
    assert ForIncrCode(cond, Present(incr)) == [jump] + incr + [OpPop, back];
  }

  /** Backpatching an exit jump that follows a condition, then the pop it lands on. */
  lemma ExitAssembled(o: seq<Opcode>, cond: seq<Opcode>, mid: seq<Opcode>, exit: Opcode, c: seq<Opcode>)
    requires c == (o + (cond + [OpJumpIfFalse(0), OpPop]) + mid)[|o| + |cond| := exit] + [OpPop]
    ensures c == o + (cond + [exit, OpPop] + mid + [OpPop])
  {
    assert o + (cond + [OpJumpIfFalse(0), OpPop]) + mid == (o + cond) + [OpJumpIfFalse(0)] + ([OpPop] + mid);
    PatchSlot(o + cond, OpJumpIfFalse(0), exit, [OpPop] + mid);
    assert c == (o + cond) + [exit] + ([OpPop] + mid) + [OpPop];
  }

  /**
   * The code of a `for` after its initializer, as its emitters leave it once the
   * exit jump (when there is a condition) is backpatched, is `ForLoopCode`.
   */
  lemma ForAssembled(o: seq<Opcode>, cond: Clause, incr: Clause, body: seq<Opcode>, exitJump: Option<nat>, loopStart: nat,
                     c1: seq<Opcode>, c2: seq<Opcode>, c5: seq<Opcode>)
    requires c1 == o + (if cond.Present? then cond.code + [OpJumpIfFalse(0), OpPop] else [])
    requires exitJump.Some? <==> cond.Present?
    requires exitJump.Some? ==> exitJump.value == |o| + |cond.code| + 1
    requires c2 == c1 + ForIncrCode(cond, incr)
    requires |c2| + |body| + 1 - loopStart == BodyLoop(cond, incr, body)
    requires var looped := c2 + body + [OpLoop(Wrap16(|c2| + |body| + 1 - loopStart))];
      && (exitJump.Some? ==>
            c5 == looped[exitJump.value - 1 := Patched(OpJumpIfFalse(0), |looped| - exitJump.value)] + [OpPop])
      && (exitJump.None? ==> c5 == looped)
    ensures exitJump.Some? ==> |c2| + |body| + 1 - exitJump.value == IncrLen(incr) + |body| + 2
    ensures c5 == o + ForLoopCode(cond, incr, body)
  {
    var inc, loop := ForIncrCode(cond, incr), [OpLoop(Wrap16(BodyLoop(cond, incr, body)))];
    var c4 := c2 + body + loop;
    if cond.Present? {
      var raw := o + (cond.code + [OpJumpIfFalse(0), OpPop]);
      assert c4 == raw + inc + body + loop;
      Appended(raw, inc, body, loop);
      ExitAssembled(o, cond.code, inc + body + loop, OpJumpIfFalse(Wrap16(IncrLen(incr) + |body| + 2)), c5);
    } else {
      assert c5 == o + [] + inc + body + loop;
      Appended(o + [], inc, body, loop);
      assert ForLoopCode(cond, incr, body) == [] + (inc + body + loop) + [];
    }
  }

  /** Appending three pieces one after another is appending them joined. */
  lemma Appended(a: seq<Opcode>, b: seq<Opcode>, c: seq<Opcode>, d: seq<Opcode>)
    ensures a + b + c + d == a + (b + c + d)
  {
  }

  /** Every suspended context counts no more live locals than it holds. */
  predicate ContextsValid(cs: seq<Context>) {
    forall i :: 0 <= i < |cs| ==> cs[i].localCount <= |cs[i].locals| && cs[i].scopeDepth >= 0
  }

  /** Suspending a context that satisfies the invariant keeps the stack valid. */
  lemma ContextsValidPush(cs: seq<Context>, c: Context)
    requires ContextsValid(cs) && c.localCount <= |c.locals| && c.scopeDepth >= 0
    ensures ContextsValid(cs + [c])
  {
    forall i | 0 <= i < |cs| + 1
      ensures (cs + [c])[i].localCount <= |(cs + [c])[i].locals| && (cs + [c])[i].scopeDepth >= 0
    {
      if i < |cs| {
        assert (cs + [c])[i] == cs[i];
      }
    }
  }

  class Parser {
    /** The lexer stand-in: the tokens it yields and the position of the next one. */
    const tokens: seq<Token>
    var cursor: nat
    var current: Token
    var previous: Token
    var result: Result<()>
    var panicMode: bool

    /** The current function's context. */
    var name: string
    var kind: FunctionKind
    var chunk: Chunk
    var locals: seq<Local>
    var localCount: nat
    var scopeDepth: int
    /** The suspended contexts of the enclosing functions, innermost last. */
    var enclosing: seq<Context>

    ghost predicate Valid()
      reads this
    {
      && WellFormedStream(tokens)
      && cursor < |tokens|
      && localCount <= |locals|
      && scopeDepth >= 0
      && (panicMode ==> result.Err?)
      && ContextsValid(enclosing)
    }

    /** Every context, current or suspended, writes to a chunk of its own. */
    ghost predicate ChunksDistinct()
      reads this`chunk, this`enclosing
    {
      && (forall i :: 0 <= i < |enclosing| ==> enclosing[i].chunk != chunk)
      && (forall i, j :: 0 <= i < j < |enclosing| ==> enclosing[i].chunk != enclosing[j].chunk)
    }

    /** The position in the token stream and the error state, as one value. */
    function Prog(): Progress
      reads this`cursor, this`current, this`previous, this`panicMode, this`result
    {
      Progress(cursor, current, previous, panicMode, result)
    }

    /** The current function's context, as it is suspended when a nested function begins. */
    function Ctx(): Context
      reads this
    {
      Context(name, kind, chunk, locals, localCount, scopeDepth)
    }

    constructor (ts: seq<Token>)
      requires WellFormedStream(ts)
      ensures Valid() && fresh(chunk)
      ensures tokens == ts && cursor == 0
      ensures result == Ok(()) && !panicMode
      ensures chunk.opCodes == [] && chunk.constants == []
      ensures locals == [] && localCount == 0 && scopeDepth == 0 && enclosing == []
      ensures name == "script" && kind == Script
      ensures ChunksDistinct()
    {
      tokens, cursor := ts, 0;
      current := Token(EOF, 0, 0, 0);
      previous := Token(EOF, 0, 0, 0);
      result, panicMode := Ok(()), false;
      name, kind := "script", Script;
      chunk := new Chunk();
      locals, localCount, scopeDepth, enclosing := [], 0, 0, [];
    }

    /**
     * Starts compiling a nested function named by the identifier just consumed: the
     * current context is suspended on the stack and a fresh one (assumed empty, as
     * the compiler context's constructor is not part of this model) takes its place.
     */
    method PushCompiler(k: FunctionKind)
      requires Valid() && previous.kind.Identifier?
      modifies this`name, this`kind, this`chunk, this`locals, this`localCount, this`scopeDepth, this`enclosing
      ensures Valid()
      ensures enclosing == old(enclosing) + [old(Ctx())]
      ensures fresh(chunk) && chunk.opCodes == [] && chunk.constants == []
      ensures name == previous.kind.name && kind == k
      ensures locals == [] && localCount == 0 && scopeDepth == 0
      ensures old(ChunksDistinct()) ==> ChunksDistinct()
    {
      var suspended := Ctx();
      var nested := new Chunk();
      ContextsValidPush(enclosing, suspended);
      enclosing := enclosing + [suspended];
      name, kind, chunk := previous.kind.name, k, nested;
      locals, localCount, scopeDepth := [], 0, 0;
    }

    /**
     * Finishes the nested function: its code gets the return sequence `ret` (the
     * function's own `emit_return` is not part of this model), and the innermost
     * suspended context is resumed. Popping with no enclosing context is a panic.
     */
    method PopCompiler(ret: seq<Opcode>) returns (f: ObjectFunction)
      requires Valid() && |enclosing| > 0
      modifies this`name, this`kind, this`chunk, this`locals, this`localCount, this`scopeDepth, this`enclosing,
               chunk
      ensures Valid()
      ensures f == ObjectFunction(old(name), old(kind), old(chunk))
      ensures f.chunk.opCodes == old(chunk.opCodes) + ret && f.chunk.constants == old(chunk.constants)
      ensures Ctx() == old(enclosing[|enclosing| - 1])
      ensures enclosing == old(enclosing[..|enclosing| - 1])
      ensures old(ChunksDistinct()) ==>
        && ChunksDistinct()
        && chunk.opCodes == old(enclosing[|enclosing| - 1].chunk.opCodes)
        && chunk.constants == old(enclosing[|enclosing| - 1].chunk.constants)
    {
      EmitOpaque(ret);
      f := ObjectFunction(name, kind, chunk);
      var top := enclosing[|enclosing| - 1];
      assert top.localCount <= |top.locals| && top.scopeDepth >= 0;
      name, kind, chunk := top.name, top.kind, top.chunk;
      locals, localCount, scopeDepth := top.locals, top.localCount, top.scopeDepth;
      enclosing := enclosing[..|enclosing| - 1];
    }

    /** The lexer stand-in: hands out the next token; at the end EOF repeats. */
    method ScanToken() returns (t: Token)
      requires Valid()
      modifies this`cursor
      ensures Valid()
      ensures t == tokens[old(cursor)] && cursor == NextIndex(tokens, old(cursor))
    {
      t := tokens[cursor];
      cursor := NextIndex(tokens, cursor);
    }

    /** Moves `current` to `previous` and scans to the next token that is not an error. */
    method Advance()
      requires Valid()
      modifies this`previous, this`current, this`cursor
      ensures Valid()
      ensures Prog() == AdvanceOf(tokens, old(Prog()))
    {
      previous := current;
      ghost var k := cursor;
      var t := ScanToken();
      current := t;
      while current.kind.Error?
        invariant Valid()
        invariant old(cursor) <= k < |tokens|
        invariant current == tokens[k] && cursor == NextIndex(tokens, k)
        invariant FirstNonError(tokens, k) == FirstNonError(tokens, old(cursor))
        invariant previous == old(current)
        decreases |tokens| - k
      {
        FirstNonErrorSkipsErrors(tokens, k);
        t := ScanToken();
        current := t;
        k := k + 1;
      }
    }

    /** Advances `n` times: the tokens read by an expression or statement this model leaves opaque. */
    method Skip(n: nat)
      requires Valid()
      modifies this`previous, this`current, this`cursor
      ensures Valid()
      ensures Prog() == Skipped(tokens, old(Prog()), n)
    {
      var i := 0;
      while i < n
        invariant i <= n && Valid()
        invariant Prog() == Skipped(tokens, old(Prog()), i)
      {
        Advance();
        i := i + 1;
      }
    }

    /** Whether the current token has kind `t`; identifiers match whatever their name. */
    predicate Check(t: TokenType): (r: bool)
      reads this
      ensures r ==> (current.kind.Identifier? <==> t.Identifier?)
      ensures current.kind.Identifier? && t.Identifier? ==> r
      ensures !t.Identifier? ==> (r <==> current.kind == t)
    {
      SameKind(current.kind, t)
    }

    /** Advances past the current token exactly when it has kind `t`. */
    method MatchToken(t: TokenType) returns (matched: bool)
      requires Valid()
      modifies this`previous, this`current, this`cursor
      ensures Valid()
      ensures matched == SameKind(old(current).kind, t)
      ensures Prog() == MatchOf(tokens, old(Prog()), t)
    {
      if !Check(t) {
        return false;
      }
      Advance();
      matched := true;
    }

    /** Reports `msg` unless already panicking; panicking suppresses every later report. */
    method ErrorAt(token: Token, msg: string)
      requires Valid()
      modifies this`panicMode, this`result
      ensures Valid()
      ensures Prog() == ReportOf(old(Prog()), true, msg)
    {
      if panicMode {
        return;
      }
      panicMode := true;
      result := Err(msg);
    }

    /** Reports at the token just consumed. */
    method Error(msg: string)
      requires Valid()
      modifies this`panicMode, this`result
      ensures Valid()
      ensures Prog() == ReportOf(old(Prog()), true, msg)
    {
      ErrorAt(previous, msg);
    }

    /** Reports at the token about to be consumed. */
    method ErrorAtCurrent(msg: string)
      requires Valid()
      modifies this`panicMode, this`result
      ensures Valid()
      ensures Prog() == ReportOf(old(Prog()), true, msg)
    {
      ErrorAt(current, msg);
    }

    /** Advances past a token of kind `t`, or reports `msg` at it without advancing. */
    method Consume(t: TokenType, msg: string)
      requires Valid()
      modifies this`previous, this`current, this`cursor, this`panicMode, this`result
      ensures Valid()
      ensures Prog() == ConsumeOf(tokens, old(Prog()), t, msg)
    {
      if Check(t) {
        Advance();
        return;
      }
      ErrorAtCurrent(msg);
    }

    /**
     * Error recovery at a declaration boundary: leaves panic mode, then skips one
     * token unless the last one was `;` or the next one starts a declaration.
     */
    method Synchronize()
      requires Valid()
      modifies this`panicMode, this`previous, this`current, this`cursor
      ensures Valid()
      ensures Prog() == SyncOf(tokens, old(Prog()))
    {
      panicMode := false;
      if previous.kind.SemiColon? {
        return;
      }
      if StartsDeclaration(current.kind) {
        return;
      }
      Advance();
    }

    method BeginScope()
      requires Valid()
      modifies this`scopeDepth
      ensures Valid()
      ensures scopeDepth == old(scopeDepth) + 1
    {
      scopeDepth := scopeDepth + 1;
    }

    /**
     * Leaves a block: lowers the depth by one, then pops every trailing live local
     * deeper than the new depth, one `OpPop` each. Only `localCount` shrinks; the
     * locals list keeps its entries.
     */
    method EndScope()
      requires Valid() && scopeDepth > 0
      modifies this`scopeDepth, this`localCount, chunk
      ensures Valid()
      ensures scopeDepth == old(scopeDepth) - 1
      ensures localCount + PopCount(locals, old(localCount), scopeDepth) == old(localCount)
      ensures chunk.opCodes == old(chunk.opCodes) + Pops(PopCount(locals, old(localCount), scopeDepth))
      ensures chunk.constants == old(chunk.constants)
    {
      scopeDepth := scopeDepth - 1;
      while localCount > 0 && locals[localCount - 1].depth > scopeDepth
        invariant Valid()
        invariant scopeDepth == old(scopeDepth) - 1
        invariant localCount <= old(localCount)
        invariant forall i :: localCount <= i < old(localCount) ==> locals[i].depth > scopeDepth
        invariant chunk.opCodes == old(chunk.opCodes) + Pops(old(localCount) - localCount)
        invariant chunk.constants == old(chunk.constants)
      {
        chunk.WriteChunk(OpPop);
        PopsGrow(old(chunk.opCodes), old(localCount) - localCount);
        localCount := localCount - 1;
      }
      PopCountOfScope(locals, old(localCount), scopeDepth, old(localCount) - localCount);
    }

    /**
     * Registers a new local, not yet initialised. The compiler context's own
     * `add_local` is not part of this model; this is its assumed behaviour (append,
     * and count one more live local), with no error of its own.
     */
    method AddLocal(token: Token)
      requires Valid()
      modifies this`locals, this`localCount
      ensures Valid()
      ensures locals == old(locals) + [Local(token, -1)]
      ensures localCount == old(localCount) + 1
    {
      locals := locals + [Local(token, -1)];
      localCount := localCount + 1;
    }

    /**
     * Resolves the identifier just consumed among the locals. The compiler context's
     * own `resolve_local` is not part of this model: its answer `found` and the errors
     * it queued, oldest first, are parameters. The queue is drained newest first and
     * each error is reported, so panic mode keeps only the newest one.
     */
    method ResolveLocal(found: Option<nat>, errors: seq<string>) returns (r: Option<nat>)
      requires Valid()
      modifies this`panicMode, this`result
      ensures Valid() && r == found
      ensures panicMode == (old(panicMode) || |errors| > 0)
      ensures result == ReportIf(|errors| > 0, old(panicMode), old(result),
                                 if |errors| > 0 then errors[|errors| - 1] else "")
    {
      var queue := errors;
      while |queue| > 0
        invariant Valid()
        invariant queue == errors[..|queue|]
        invariant panicMode == (old(panicMode) || |queue| < |errors|)
        invariant result == ReportIf(|queue| < |errors|, old(panicMode), old(result),
                                     if |queue| < |errors| then errors[|errors| - 1] else "")
      {
        Error(queue[|queue| - 1]);
        queue := queue[..|queue| - 1];
      }
      r := found;
    }

    /**
     * Declares the identifier just consumed as a local (nothing at global scope),
     * reporting a duplicate in the innermost scope; the backward scan covers the
     * whole locals list, including entries above `localCount`.
     */
    method DeclareVariable()
      requires Valid()
      modifies this`locals, this`localCount, this`panicMode, this`result
      ensures Valid()
      ensures scopeDepth == 0 ==> locals == old(locals) && localCount == old(localCount)
      ensures scopeDepth > 0 ==>
        locals == old(locals) + [Local(previous, -1)] && localCount == old(localCount) + 1
      ensures Prog() == DeclareOf(old(Prog()), old(locals), scopeDepth)
    {
      if scopeDepth == 0 {
        return;
      }
      var token := previous;
      if RedeclaresInScope(locals, scopeDepth, token) {
        Error(AlreadyDeclared);
      }
      AddLocal(token);
    }

    /** Gives the newest live local the current depth. */
    method MarkInitialized()
      requires Valid() && localCount > 0
      modifies this`locals
      ensures Valid()
      ensures locals == old(locals)[localCount - 1 := Local(old(locals)[localCount - 1].token, scopeDepth)]
    {
      locals := locals[localCount - 1 := Local(locals[localCount - 1].token, scopeDepth)];
    }

    /** Completes a declaration: a local is marked initialised, a global is defined by name. */
    method DefineVariable(index: nat)
      requires Valid() && (scopeDepth > 0 ==> localCount > 0)
      modifies this`locals, chunk
      ensures Valid()
      ensures scopeDepth > 0 ==>
        locals == old(locals)[localCount - 1 := Local(old(locals)[localCount - 1].token, scopeDepth)]
        && chunk.opCodes == old(chunk.opCodes)
      ensures scopeDepth == 0 ==>
        locals == old(locals) && chunk.opCodes == old(chunk.opCodes) + [OpDefineGlobal(index)]
      ensures chunk.constants == old(chunk.constants)
    {
      if scopeDepth > 0 {
        MarkInitialized();
        return;
      }
      chunk.WriteChunk(OpDefineGlobal(index));
    }

    /** Puts the name of the identifier just consumed in the constant pool. */
    method IdentifierConstant() returns (index: nat)
      requires previous.kind.Identifier?
      modifies chunk
      ensures chunk.constants == old(chunk.constants) + [Object(StringObject(previous.kind.name))]
      ensures index == |old(chunk.constants)|
      ensures chunk.opCodes == old(chunk.opCodes)
    {
      index := chunk.AddConstant(Object(StringObject(previous.kind.name)));
    }

    /**
     * Consumes a variable name and declares it: a local yields index 0, a global the
     * pool index of its name. At global scope the token then consumed must be an
     * identifier (otherwise the compiler aborts), hence the precondition.
     */
    method ParseVariable(msg: string) returns (index: nat, ghost name: Token)
      requires Valid()
      requires scopeDepth > 0 || current.kind.Identifier? || previous.kind.Identifier?
      modifies this`previous, this`current, this`cursor, this`panicMode, this`result,
               this`locals, this`localCount, chunk
      ensures Valid()
      ensures Prog() == ParseVariableOf(tokens, old(Prog()), old(locals), scopeDepth, msg)
      ensures name == previous && name == if old(current).kind.Identifier? then old(current) else old(previous)
      ensures scopeDepth > 0 ==>
        locals == old(locals) + [Local(name, -1)] && localCount == old(localCount) + 1
      ensures scopeDepth == 0 ==> locals == old(locals) && localCount == old(localCount)
      ensures scopeDepth > 0 ==> index == 0 && chunk.constants == old(chunk.constants)
      ensures scopeDepth == 0 ==>
        name.kind.Identifier? && index == |old(chunk.constants)|
        && chunk.constants == old(chunk.constants) + [Object(StringObject(name.kind.name))]
      ensures chunk.opCodes == old(chunk.opCodes)
    {
      Consume(Identifier(""), msg);
      name := previous;
      DeclareVariable();
      if scopeDepth > 0 {
        return 0, name;
      }
      index := IdentifierConstant();
    }

    /** Appends the given instructions; used for code whose own compilation is not modelled. */
    method EmitOpaque(code: seq<Opcode>)
      modifies chunk
      ensures chunk.opCodes == old(chunk.opCodes) + code
      ensures chunk.constants == old(chunk.constants)
    {
      chunk.opCodes := chunk.opCodes + code;
    }

    /** Stands for `expression()` or `statement()`: emits the fragment's instructions and reads its tokens. */
    method Opaque(f: Fragment)
      requires Valid()
      modifies this`previous, this`current, this`cursor, chunk
      ensures Valid()
      ensures chunk.opCodes == old(chunk.opCodes) + f.code
      ensures chunk.constants == old(chunk.constants)
      ensures Prog() == Skipped(tokens, old(Prog()), f.width)
    {
      EmitOpaque(f.code);
      Skip(f.width);
    }

    /** Emits a placeholder jump and returns the position just after it. */
    method EmitJump(op: Opcode) returns (pos: nat)
      modifies chunk
      ensures chunk.opCodes == old(chunk.opCodes) + [op]
      ensures pos == |chunk.opCodes| && pos > 0 && chunk.opCodes[pos - 1] == op
      ensures chunk.constants == old(chunk.constants)
    {
      chunk.WriteChunk(op);
      pos := chunk.Len();
    }

    /**
     * Backpatches the placeholder just before `offset` with the distance from
     * `offset` to the end of the code, reporting a distance beyond 16 bits. Only that
     * slot changes; a non-jump opcode aborts the compiler, hence `IsJump(op)`.
     */
    method PatchJump(offset: nat, op: Opcode)
      requires Valid() && IsJump(op) && 0 < offset <= |chunk.opCodes|
      modifies this`panicMode, this`result, chunk
      ensures Valid()
      ensures chunk.opCodes == old(chunk.opCodes)[offset - 1 := Patched(op, |old(chunk.opCodes)| - offset)]
      ensures chunk.constants == old(chunk.constants)
      ensures Prog() == ReportOf(old(Prog()), |old(chunk.opCodes)| - offset > U16Max, TooMuchCode)
    {
      var jump := chunk.Len() - offset;
      if jump > U16Max {
        Error(TooMuchCode);
      }
      var patched := if op.OpJumpIfFalse? then OpJumpIfFalse(Wrap16(jump)) else OpJump(Wrap16(jump));
      chunk.ReplaceOpcode(offset - 1, patched);
    }

    /**
     * Emits one `OpLoop` whose distance, counted back from the slot after it,
     * reaches `loopStart`; a distance beyond 16 bits is reported.
     */
    method EmitLoop(loopStart: nat)
      requires Valid() && loopStart <= |chunk.opCodes| + 1
      modifies this`panicMode, this`result, chunk
      ensures Valid()
      ensures chunk.opCodes == old(chunk.opCodes) + [OpLoop(Wrap16(|old(chunk.opCodes)| + 1 - loopStart))]
      ensures chunk.constants == old(chunk.constants)
      ensures Prog() == ReportOf(old(Prog()), |old(chunk.opCodes)| + 1 - loopStart > U16Max, LoopTooLarge)
    {
      chunk.WriteChunk(OpLoop(0));
      var len := chunk.Len();
      var offset := len - loopStart;
      if offset > U16Max {
        Error(LoopTooLarge);
      }
      chunk.ReplaceOpcode(len - 1, OpLoop(Wrap16(offset)));
    }

    /** `expression ;`: the expression, its `;`, then a pop of its value. */
    method ExpressionStatement(e: Fragment)
      requires Valid()
      modifies this`previous, this`current, this`cursor, this`panicMode, this`result, chunk
      ensures Valid()
      ensures chunk.opCodes == old(chunk.opCodes) + e.code + [OpPop]
      ensures chunk.constants == old(chunk.constants)
      ensures Prog() == StatementEndOf(tokens, old(Prog()), e.width)
    {
      Opaque(e);
      Consume(SemiColon, ExpectSemicolon);
      chunk.WriteChunk(OpPop);
    }

    /** `print expression ;` after the `print`: the expression, its `;`, then `OpPrint`. */
    method PrintStatement(e: Fragment)
      requires Valid()
      modifies this`previous, this`current, this`cursor, this`panicMode, this`result, chunk
      ensures Valid()
      ensures chunk.opCodes == old(chunk.opCodes) + e.code + [OpPrint]
      ensures chunk.constants == old(chunk.constants)
      ensures Prog() == StatementEndOf(tokens, old(Prog()), e.width)
    {
      Opaque(e);
      Consume(SemiColon, ExpectSemicolon);
      chunk.WriteChunk(OpPrint);
    }

    /**
     * `var name (= value)? ;` after the `var`: a global is defined by name after its
     * value; a local is registered uninitialised, and once its value is compiled the
     * live slot at the old `localCount` is marked with the current depth.
     */
    method VarDeclaration(value: Fragment) returns (hasValue: bool, ghost declared: Token)
      requires Valid()
      requires scopeDepth > 0 || current.kind.Identifier? || previous.kind.Identifier?
      modifies this`previous, this`current, this`cursor, this`panicMode, this`result,
               this`locals, this`localCount, chunk
      ensures Valid()
      ensures declared == if old(current).kind.Identifier? then old(current) else old(previous)
      ensures Prog() == VarDeclOf(tokens, old(Prog()), old(locals), scopeDepth, value)
      ensures hasValue == ParseVariableOf(tokens, old(Prog()), old(locals), scopeDepth, ExpectVariableName).current.kind.Equal?
      ensures scopeDepth > 0 ==>
        && chunk.opCodes == old(chunk.opCodes) + (if hasValue then value.code else [OpNil])
        && chunk.constants == old(chunk.constants)
        && localCount == old(localCount) + 1
        && locals == DeclaredLocals(old(locals), old(localCount), declared, scopeDepth)
      ensures scopeDepth == 0 ==>
        && declared.kind.Identifier?
        && chunk.opCodes == old(chunk.opCodes) + (if hasValue then value.code else [OpNil])
                            + [OpDefineGlobal(|old(chunk.constants)|)]
        && chunk.constants == old(chunk.constants) + [Object(StringObject(declared.kind.name))]
        && locals == old(locals) && localCount == old(localCount)
    {
      var index;
      index, declared := ParseVariable(ExpectVariableName);
      hasValue := InitialValue(index, value);
    }

    /**
     * The rest of a `var` declaration once its name is parsed: the initial value
     * (`nil` when there is no `=`), the `;`, and the definition of the variable.
     */
    method InitialValue(index: nat, value: Fragment) returns (hasValue: bool)
      requires Valid() && (scopeDepth > 0 ==> localCount > 0)
      modifies this`previous, this`current, this`cursor, this`panicMode, this`result, this`locals, chunk
      ensures Valid()
      ensures hasValue <==> old(current).kind.Equal?
      ensures Prog() == InitialValueOf(tokens, old(Prog()), value)
      ensures chunk.constants == old(chunk.constants)
      ensures scopeDepth > 0 ==>
        && chunk.opCodes == old(chunk.opCodes) + (if hasValue then value.code else [OpNil])
        && locals == old(locals)[localCount - 1 := Local(old(locals)[localCount - 1].token, scopeDepth)]
      ensures scopeDepth == 0 ==>
        && chunk.opCodes == old(chunk.opCodes) + (if hasValue then value.code else [OpNil]) + [OpDefineGlobal(index)]
        && locals == old(locals)
    {
      hasValue := MatchToken(Equal);
      if hasValue {
        Opaque(value);
      } else {
        chunk.WriteChunk(OpNil);
      }
      Consume(SemiColon, ExpectSemicolon);
      DefineVariable(index);
    }

    /**
     * One declaration: a `var` declaration or (opaquely) a statement; a
     * declaration that left the compiler panicking resynchronises before returning.
     * `declared` and `hasValue` name the variable a `var` declaration declares and
     * whether it has an initial value.
     */
    method Declaration(value: Fragment, statement: Fragment) returns (ghost declared: Token, ghost hasValue: bool)
      requires Valid()
      requires scopeDepth > 0 || !current.kind.Var? || tokens[FirstNonError(tokens, cursor)].kind.Identifier?
      modifies this`previous, this`current, this`cursor, this`panicMode, this`result,
               this`locals, this`localCount, chunk
      ensures Valid()
      ensures Prog() == DeclarationOf(tokens, old(Prog()), old(locals), scopeDepth, value, statement)
      ensures !old(current).kind.Var? ==>
        && chunk.opCodes == old(chunk.opCodes) + statement.code
        && chunk.constants == old(chunk.constants)
        && locals == old(locals) && localCount == old(localCount)
      ensures old(current).kind.Var? ==>
        && declared == NameAfter(tokens, old(Prog()))
        && hasValue == ParseVariableOf(tokens, AdvanceOf(tokens, old(Prog())), old(locals), scopeDepth,
                                       ExpectVariableName).current.kind.Equal?
      ensures old(current).kind.Var? && scopeDepth > 0 ==>
        && chunk.opCodes == old(chunk.opCodes) + (if hasValue then value.code else [OpNil])
        && chunk.constants == old(chunk.constants)
        && localCount == old(localCount) + 1
        && locals == DeclaredLocals(old(locals), old(localCount), declared, scopeDepth)
      ensures old(current).kind.Var? && scopeDepth == 0 ==>
        && declared.kind.Identifier?
        && chunk.opCodes == old(chunk.opCodes) + (if hasValue then value.code else [OpNil])
                            + [OpDefineGlobal(|old(chunk.constants)|)]
        && chunk.constants == old(chunk.constants) + [Object(StringObject(declared.kind.name))]
        && locals == old(locals) && localCount == old(localCount)
    {
      declared, hasValue := VarOrStatement(value, statement);
      ghost var code, pool, declaredLocals, live := chunk.opCodes, chunk.constants, locals, localCount;
      RecoverIfPanicking();
      assert chunk.opCodes == code && chunk.constants == pool && locals == declaredLocals && localCount == live;
    }

    /** A declaration up to its resynchronisation: a `var` declaration after `var`, a statement otherwise. */
    method VarOrStatement(value: Fragment, statement: Fragment) returns (ghost declared: Token, ghost hasValue: bool)
      requires Valid()
      requires scopeDepth > 0 || !current.kind.Var? || tokens[FirstNonError(tokens, cursor)].kind.Identifier?
      modifies this`previous, this`current, this`cursor, this`panicMode, this`result,
               this`locals, this`localCount, chunk
      ensures Valid()
      ensures Prog() == if old(current).kind.Var? then VarDeclOf(tokens, AdvanceOf(tokens, old(Prog())), old(locals), scopeDepth, value)
                        else Skipped(tokens, old(Prog()), statement.width)
      ensures !old(current).kind.Var? ==>
        && chunk.opCodes == old(chunk.opCodes) + statement.code
        && chunk.constants == old(chunk.constants)
        && locals == old(locals) && localCount == old(localCount)
      ensures old(current).kind.Var? ==>
        && declared == NameAfter(tokens, old(Prog()))
        && hasValue == ParseVariableOf(tokens, AdvanceOf(tokens, old(Prog())), old(locals), scopeDepth,
                                       ExpectVariableName).current.kind.Equal?
      ensures old(current).kind.Var? && scopeDepth > 0 ==>
        && chunk.opCodes == old(chunk.opCodes) + (if hasValue then value.code else [OpNil])
        && chunk.constants == old(chunk.constants)
        && localCount == old(localCount) + 1
        && locals == DeclaredLocals(old(locals), old(localCount), declared, scopeDepth)
      ensures old(current).kind.Var? && scopeDepth == 0 ==>
        && declared.kind.Identifier?
        && chunk.opCodes == old(chunk.opCodes) + (if hasValue then value.code else [OpNil])
                            + [OpDefineGlobal(|old(chunk.constants)|)]
        && chunk.constants == old(chunk.constants) + [Object(StringObject(declared.kind.name))]
        && locals == old(locals) && localCount == old(localCount)
    {
      var isVar := MatchToken(Var);
      if isVar {
        var parsed;
        parsed, declared := VarDeclaration(value);
        hasValue := parsed;
      } else {
        declared, hasValue := current, false;
        Opaque(statement);
      }
    }

    /** Resynchronises at a declaration boundary when the declaration left panic mode on. */
    method RecoverIfPanicking()
      requires Valid()
      modifies this`panicMode, this`previous, this`current, this`cursor
      ensures Valid()
      ensures Prog() == RecoverOf(tokens, old(Prog()))
    {
      if panicMode {
        Synchronize();
      }
    }

    /** `( cond )`: the parenthesised condition shared by `if` and `while`. */
    method ParenCondition(cond: Fragment, openMsg: string, closeMsg: string)
      requires Valid()
      modifies this`previous, this`current, this`cursor, this`panicMode, this`result, chunk
      ensures Valid()
      ensures chunk.opCodes == old(chunk.opCodes) + cond.code
      ensures chunk.constants == old(chunk.constants)
      ensures Prog() == ParenOf(tokens, old(Prog()), cond.width, openMsg, closeMsg)
    {
      Consume(LeftParen, openMsg);
      Opaque(cond);
      Consume(RightParen, closeMsg);
    }

    /** `(else other)?`: compiles the else branch when the next token is `else`, which is consumed. */
    method ElseBranch(elsePart: Fragment) returns (hasElse: bool)
      requires Valid()
      modifies this`previous, this`current, this`cursor, chunk
      ensures Valid()
      ensures hasElse == old(current).kind.Else?
      ensures hasElse ==> Prog() == Skipped(tokens, AdvanceOf(tokens, old(Prog())), elsePart.width)
      ensures !hasElse ==> Prog() == old(Prog())
      ensures chunk.opCodes == old(chunk.opCodes) + (if hasElse then elsePart.code else [])
      ensures chunk.constants == old(chunk.constants)
    {
      hasElse := MatchToken(Else);
      if hasElse {
        Opaque(elsePart);
      }
    }

    /**
     * A fragment guarded by a conditional jump: the placeholder jump, the pop of the
     * condition, and the fragment. Returns the position just after the jump.
     */
    method Guarded(f: Fragment) returns (jump: nat)
      requires Valid()
      modifies this`previous, this`current, this`cursor, chunk
      ensures Valid()
      ensures chunk.opCodes == old(chunk.opCodes) + [OpJumpIfFalse(0)] + [OpPop] + f.code
      ensures jump == |old(chunk.opCodes)| + 1
      ensures chunk.constants == old(chunk.constants)
      ensures Prog() == Skipped(tokens, old(Prog()), f.width)
    {
      jump := EmitJump(OpJumpIfFalse(0));
      chunk.WriteChunk(OpPop);
      Opaque(f);
    }

    /**
     * The then-branch of an `if`: a conditional jump over it, backpatched once the
     * branch and the unconditional jump over the else-branch are emitted. Returns the
     * position just after that unconditional jump, still to be patched.
     */
    method ThenBranch(thenPart: Fragment) returns (elseJump: nat)
      requires Valid()
      modifies this`previous, this`current, this`cursor, this`panicMode, this`result, chunk
      ensures Valid()
      ensures chunk.opCodes == old(chunk.opCodes)
        + ([OpJumpIfFalse(Wrap16(|thenPart.code| + 2)), OpPop] + thenPart.code + [OpJump(0), OpPop])
      ensures elseJump == |old(chunk.opCodes)| + |thenPart.code| + 3
      ensures chunk.constants == old(chunk.constants)
      ensures Prog() == ReportOf(Skipped(tokens, old(Prog()), thenPart.width), |thenPart.code| + 2 > U16Max, TooMuchCode)
    {
      var thenJump := Guarded(thenPart);
      elseJump := EmitJump(OpJump(0));
      ghost var c4 := chunk.opCodes;
      PatchJump(thenJump, OpJumpIfFalse(0));
      chunk.WriteChunk(OpPop);
      ThenAssembled(old(chunk.opCodes), thenPart.code, thenJump, c4, chunk.opCodes);
    }

    /** `if (cond) then (else other)?` after the `if`, with both jumps backpatched. */
    method IfStatement(cond: Fragment, thenPart: Fragment, elsePart: Fragment) returns (hasElse: bool)
      requires Valid()
      modifies this`previous, this`current, this`cursor, this`panicMode, this`result, chunk
      ensures Valid()
      ensures hasElse == HasElse(tokens, old(Prog()), cond, thenPart)
      ensures Prog() == IfOf(tokens, old(Prog()), cond, thenPart, elsePart)
      ensures chunk.opCodes == old(chunk.opCodes) + IfCode(cond.code, thenPart.code, if hasElse then elsePart.code else [])
      ensures chunk.constants == old(chunk.constants)
    {
      ParenCondition(cond, IfOpen, IfClose);
      hasElse := IfBranches(thenPart, elsePart);
      IfCodeAfter(old(chunk.opCodes), cond.code, thenPart.code, if hasElse then elsePart.code else []);
    }

    /** The branches of an `if`, once its condition is compiled. */
    method IfBranches(thenPart: Fragment, elsePart: Fragment) returns (hasElse: bool)
      requires Valid()
      modifies this`previous, this`current, this`cursor, this`panicMode, this`result, chunk
      ensures Valid()
      ensures hasElse == Skipped(tokens, old(Prog()), thenPart.width).current.kind.Else?
      ensures Prog() == BranchesOf(tokens, old(Prog()), thenPart, elsePart)
      ensures chunk.opCodes == old(chunk.opCodes) + IfCode([], thenPart.code, if hasElse then elsePart.code else [])
      ensures chunk.constants == old(chunk.constants)
    {
      var elseJump := ThenBranch(thenPart);
      hasElse := ElseBranch(elsePart);
      ghost var e, emitted := if hasElse then elsePart.code else [], chunk.opCodes;
      PatchJump(elseJump, OpJump(0));
      IfAssembled(old(chunk.opCodes), [], thenPart.code, e, emitted, elseJump, chunk.opCodes);
    }

    /**
     * The initializer clause of a `for`: nothing after `;`, a variable declaration
     * after `var`, an expression statement otherwise.
     */
    method ForInitializer(init: Fragment) returns (form: Initializer, ghost declared: Token)
      requires Valid() && scopeDepth > 0
      modifies this`previous, this`current, this`cursor, this`panicMode, this`result,
               this`locals, this`localCount, chunk
      ensures Valid()
      ensures form.NoInitializer? <==> old(current).kind.SemiColon?
      ensures form.VarInitializer? <==> old(current).kind.Var?
      ensures Prog() == ForInitOf(tokens, old(Prog()), old(locals), scopeDepth, init)
      ensures chunk.opCodes == old(chunk.opCodes) + InitializerCode(form, init.code)
      ensures chunk.constants == old(chunk.constants)
      ensures localCount == old(localCount) + (if form.VarInitializer? then 1 else 0)
      ensures form.VarInitializer? ==>
        && declared == NameAfter(tokens, old(Prog()))
        && locals == DeclaredLocals(old(locals), old(localCount), declared, scopeDepth)
      ensures !form.VarInitializer? ==> locals == old(locals)
    {
      var empty := MatchToken(SemiColon);
      if empty {
        return NoInitializer, current;
      }
      form, declared := DeclaredInitializer(init);
    }

    /** A `for` initializer that is not empty: a variable declaration or an expression statement. */
    method DeclaredInitializer(init: Fragment) returns (form: Initializer, ghost declared: Token)
      requires Valid() && scopeDepth > 0
      modifies this`previous, this`current, this`cursor, this`panicMode, this`result,
               this`locals, this`localCount, chunk
      ensures Valid()
      ensures !form.NoInitializer?
      ensures form.VarInitializer? <==> old(current).kind.Var?
      ensures Prog() == DeclaredInitOf(tokens, old(Prog()), old(locals), scopeDepth, init)
      ensures chunk.opCodes == old(chunk.opCodes) + InitializerCode(form, init.code)
      ensures chunk.constants == old(chunk.constants)
      ensures localCount == old(localCount) + (if form.VarInitializer? then 1 else 0)
      ensures form.VarInitializer? ==>
        && declared == NameAfter(tokens, old(Prog()))
        && locals == DeclaredLocals(old(locals), old(localCount), declared, scopeDepth)
      ensures !form.VarInitializer? ==> locals == old(locals)
    {
      var isVar := MatchToken(Var);
      if isVar {
        var hasValue;
        hasValue, declared := VarDeclaration(init);
        form := VarInitializer(hasValue);
      } else {
        declared := current;
        ExpressionStatement(init);
        form := ExprInitializer;
      }
    }

    /**
     * The condition clause of a `for`: when present, the condition, its `;`, and an
     * exit jump left for the caller to backpatch, with its position.
     */
    method ForCondition(cond: Fragment) returns (condClause: Clause, exitJump: Option<nat>)
      requires Valid()
      modifies this`previous, this`current, this`cursor, this`panicMode, this`result, chunk
      ensures Valid()
      ensures condClause == CondClause(old(Prog()), cond)
      ensures Prog() == ForCondOf(tokens, old(Prog()), cond)
      ensures exitJump.Some? <==> condClause.Present?
      ensures exitJump.Some? ==> exitJump.value == |old(chunk.opCodes)| + |condClause.code| + 1
      ensures chunk.opCodes == old(chunk.opCodes)
        + (if condClause.Present? then condClause.code + [OpJumpIfFalse(0), OpPop] else [])
      ensures chunk.constants == old(chunk.constants)
    {
      var empty := MatchToken(SemiColon);
      if empty {
        return Absent, None;
      }
      var jump := ConditionClause(cond);
      condClause, exitJump := Present(cond.code), Some(jump);
    }

    /** A present `for` condition: the condition, its `;`, the exit placeholder and a pop. */
    method ConditionClause(cond: Fragment) returns (exitJump: nat)
      requires Valid()
      modifies this`previous, this`current, this`cursor, this`panicMode, this`result, chunk
      ensures Valid()
      ensures exitJump == |old(chunk.opCodes)| + |cond.code| + 1
      ensures chunk.opCodes == old(chunk.opCodes) + (cond.code + [OpJumpIfFalse(0), OpPop])
      ensures chunk.constants == old(chunk.constants)
      ensures Prog() == ConsumeOf(tokens, Skipped(tokens, old(Prog()), cond.width), SemiColon, ForCondEnd)
    {
      Opaque(cond);
      Consume(SemiColon, ForCondEnd);
      exitJump := EmitJump(OpJumpIfFalse(0));
      chunk.WriteChunk(OpPop);
    }

    /**
     * The placeholder jump over the increment, the increment, and the pop of its
     * value; returns the position after the jump, which is where the increment starts.
     */
    method EmitIncrement(incr: Fragment) returns (bodyJump: nat, start: nat)
      requires Valid()
      modifies this`previous, this`current, this`cursor, chunk
      ensures Valid()
      ensures chunk.opCodes == old(chunk.opCodes) + [OpJump(0)] + incr.code + [OpPop]
      ensures bodyJump == start == |old(chunk.opCodes)| + 1
      ensures chunk.constants == old(chunk.constants)
      ensures Prog() == Skipped(tokens, old(Prog()), incr.width)
    {
      bodyJump := EmitJump(OpJump(0));
      start := chunk.Len();
      Opaque(incr);
      chunk.WriteChunk(OpPop);
    }

    /**
     * A present increment clause of a `for`: a jump over it to the body, the
     * increment and its pop, the `)`, and a loop back to `loopStart`. The body then
     * loops back to the increment, whose position is returned.
     */
    method IncrementClause(incr: Fragment, loopStart: nat, ghost cond: Clause) returns (start: nat)
      requires Valid() && loopStart + CondLen(cond) == |chunk.opCodes|
      modifies this`previous, this`current, this`cursor, this`panicMode, this`result, chunk
      ensures Valid()
      ensures start == |old(chunk.opCodes)| + 1
      ensures chunk.opCodes == old(chunk.opCodes) + ForIncrCode(cond, Present(incr.code))
      ensures chunk.constants == old(chunk.constants)
      ensures Prog() == IncrClauseOf(tokens, old(Prog()), CondLen(cond), incr)
    {
      var bodyJump;
      bodyJump, start := EmitIncrement(incr);
      Consume(RightParen, ForClose);
      IncrementEnd(loopStart, bodyJump, old(chunk.opCodes), incr.code, cond);
    }

    /**
     * The end of a `for`'s increment clause, emitted after the code `o`, the jump over
     * the increment and the increment: the loop back to the condition at `loopStart`,
     * then the backpatch of the jump over the increment, which lands on the body.
     */
    method IncrementEnd(loopStart: nat, bodyJump: nat, ghost o: seq<Opcode>, ghost incr: seq<Opcode>, ghost cond: Clause)
      requires Valid() && loopStart + CondLen(cond) == |o|
      requires chunk.opCodes == o + [OpJump(0)] + incr + [OpPop] && bodyJump == |o| + 1
      modifies this`panicMode, this`result, chunk
      ensures Valid()
      ensures chunk.opCodes == o + ForIncrCode(cond, Present(incr))
      ensures chunk.constants == old(chunk.constants)
      ensures Prog() == ReportOf(ReportOf(old(Prog()), CondLen(cond) + |incr| + 3 > U16Max, LoopTooLarge),
                                 |incr| + 2 > U16Max, TooMuchCode)
    {
      ghost var c3 := chunk.opCodes;
      EmitLoop(loopStart);
      ghost var c4 := chunk.opCodes;
      PatchJump(bodyJump, OpJump(0));
      IncrAssembled(o, incr, cond, loopStart, bodyJump, c3, c4, chunk.opCodes);
    }

    /**
     * The increment clause of a `for`: absent when `)` follows at once, and then the
     * loop start stays where it was.
     */
    method ForIncrement(incr: Fragment, loopStart: nat, ghost cond: Clause) returns (incrClause: Clause, start: nat)
      requires Valid() && loopStart + CondLen(cond) == |chunk.opCodes|
      modifies this`previous, this`current, this`cursor, this`panicMode, this`result, chunk
      ensures Valid()
      ensures incrClause.Present? <==> !old(current).kind.RightParen?
      ensures incrClause.Present? ==> incrClause.code == incr.code && start == |old(chunk.opCodes)| + 1
      ensures incrClause.Absent? ==> start == loopStart
      ensures Prog() == ForIncrOf(tokens, old(Prog()), CondLen(cond), incr)
      ensures chunk.opCodes == old(chunk.opCodes) + ForIncrCode(cond, incrClause)
      ensures chunk.constants == old(chunk.constants)
    {
      var close := MatchToken(RightParen);
      if close {
        return Absent, loopStart;
      }
      start := IncrementClause(incr, loopStart, cond);
      incrClause := Present(incr.code);
    }

    /** Backpatches the exit jump of a loop, when it has one, and pops the condition. */
    method PatchExit(exitJump: Option<nat>)
      requires Valid() && (exitJump.Some? ==> 0 < exitJump.value <= |chunk.opCodes|)
      requires exitJump.Some? ==> chunk.opCodes[exitJump.value - 1] == OpJumpIfFalse(0)
      modifies this`panicMode, this`result, chunk
      ensures Valid()
      ensures exitJump.Some? ==>
        chunk.opCodes == old(chunk.opCodes)[exitJump.value - 1 := Patched(OpJumpIfFalse(0), |old(chunk.opCodes)| - exitJump.value)] + [OpPop]
      ensures exitJump.None? ==> chunk.opCodes == old(chunk.opCodes)
      ensures chunk.constants == old(chunk.constants)
      ensures Prog() == ReportOf(old(Prog()), exitJump.Some? && |old(chunk.opCodes)| - exitJump.value > U16Max, TooMuchCode)
    {
      if exitJump.Some? {
        PatchJump(exitJump.value, OpJumpIfFalse(0));
        chunk.WriteChunk(OpPop);
      }
    }

    /**
     * The end of a loop: the loop back to `loopStart`, then, when the loop has an exit
     * jump, its backpatch and the pop it lands on.
     */
    method LoopBack(loopStart: nat, exitJump: Option<nat>)
      requires Valid() && loopStart <= |chunk.opCodes|
      requires exitJump.Some? ==> 0 < exitJump.value <= |chunk.opCodes| && chunk.opCodes[exitJump.value - 1] == OpJumpIfFalse(0)
      modifies this`panicMode, this`result, chunk
      ensures Valid()
      ensures var looped := old(chunk.opCodes) + [OpLoop(Wrap16(|old(chunk.opCodes)| + 1 - loopStart))];
        && (exitJump.Some? ==>
              chunk.opCodes == looped[exitJump.value - 1 := Patched(OpJumpIfFalse(0), |looped| - exitJump.value)] + [OpPop])
        && (exitJump.None? ==> chunk.opCodes == looped)
      ensures chunk.constants == old(chunk.constants)
      ensures Prog() == ReportOf(ReportOf(old(Prog()), |old(chunk.opCodes)| + 1 - loopStart > U16Max, LoopTooLarge),
                                 exitJump.Some? && |old(chunk.opCodes)| + 1 - exitJump.value > U16Max, TooMuchCode)
    {
      EmitLoop(loopStart);
      PatchExit(exitJump);
    }

    /**
     * The body of a `for` and the end of its loop, after the code `o` and the clauses
     * `cond` and `incr`: the body, the loop back to `loopStart`, and the exit jump's
     * backpatch and pop when there is a condition.
     */
    method ForBody(body: Fragment, loopStart: nat, exitJump: Option<nat>, ghost o: seq<Opcode>, ghost cond: Clause, ghost incr: Clause)
      requires Valid()
      requires chunk.opCodes == o + (if cond.Present? then cond.code + [OpJumpIfFalse(0), OpPop] else []) + ForIncrCode(cond, incr)
      requires exitJump.Some? <==> cond.Present?
      requires exitJump.Some? ==> exitJump.value == |o| + |cond.code| + 1
      requires loopStart <= |chunk.opCodes| && |chunk.opCodes| + |body.code| + 1 - loopStart == BodyLoop(cond, incr, body.code)
      modifies this`previous, this`current, this`cursor, this`panicMode, this`result, chunk
      ensures Valid()
      ensures chunk.opCodes == o + ForLoopCode(cond, incr, body.code)
      ensures chunk.constants == old(chunk.constants)
      ensures Prog() == ReportOf(ReportOf(Skipped(tokens, old(Prog()), body.width), BodyLoop(cond, incr, body.code) > U16Max, LoopTooLarge),
                                 cond.Present? && IncrLen(incr) + |body.code| + 2 > U16Max, TooMuchCode)
    {
      ghost var c1 := o + (if cond.Present? then cond.code + [OpJumpIfFalse(0), OpPop] else []);
      ghost var c2 := chunk.opCodes;
      if exitJump.Some? {
        assert c1[exitJump.value - 1] == OpJumpIfFalse(0);
        assert c2[exitJump.value - 1] == c1[exitJump.value - 1];
      }
      Opaque(body);
      LoopBack(loopStart, exitJump);
      ForAssembled(o, cond, incr, body.code, exitJump, loopStart, c1, c2, chunk.opCodes);
    }

    /**
     * Everything of a `for` after its initializer and before its scope ends: the
     * condition, the increment, the body and its loop back, and the exit jump's
     * backpatch and pop when there is a condition.
     */
    method ForLoop(cond: Fragment, incr: Fragment, body: Fragment) returns (condClause: Clause, incrClause: Clause)
      requires Valid()
      modifies this`previous, this`current, this`cursor, this`panicMode, this`result, chunk
      ensures Valid()
      ensures condClause == CondClause(old(Prog()), cond)
      ensures incrClause == IncrClause(tokens, old(Prog()), cond, incr)
      ensures Prog() == ForLoopOf(tokens, old(Prog()), cond, incr, body)
      ensures chunk.opCodes == old(chunk.opCodes) + ForLoopCode(condClause, incrClause, body.code)
      ensures chunk.constants == old(chunk.constants)
    {
      var loopStart := chunk.Len();
      var exitJump;
      condClause, exitJump := ForCondition(cond);
      incrClause, loopStart := ForIncrement(incr, loopStart, condClause);
      ForBody(body, loopStart, exitJump, old(chunk.opCodes), condClause, incrClause);
    }

    /**
     * `for (init; cond; incr) body` after the `for`, in a scope of its own: the `(`,
     * the initializer, the loop, and the pops of the scope's locals.
     */
    method ForStatement(init: Fragment, cond: Fragment, incr: Fragment, body: Fragment)
      returns (form: Initializer, condClause: Clause, incrClause: Clause, ghost declared: Token)
      requires Valid()
      modifies this`previous, this`current, this`cursor, this`panicMode, this`result,
               this`locals, this`localCount, this`scopeDepth, chunk
      ensures Valid()
      ensures var paren := ConsumeOf(tokens, old(Prog()), LeftParen, ForOpen);
        var q := ForInitOf(tokens, paren, old(locals), old(scopeDepth) + 1, init);
        && (form.NoInitializer? <==> paren.current.kind.SemiColon?)
        && (form.VarInitializer? <==> paren.current.kind.Var?)
        && condClause == CondClause(q, cond)
        && incrClause == IncrClause(tokens, q, cond, incr)
      ensures Prog() == ForOf(tokens, old(Prog()), old(locals), old(scopeDepth) + 1, init, cond, incr, body)
      ensures scopeDepth == old(scopeDepth)
      ensures old(localCount) + (if form.VarInitializer? then 1 else 0) <= |locals|
      ensures var live := old(localCount) + (if form.VarInitializer? then 1 else 0);
        && localCount + PopCount(locals, live, scopeDepth) == live
        && chunk.opCodes == old(chunk.opCodes) + InitializerCode(form, init.code)
           + ForLoopCode(condClause, incrClause, body.code) + Pops(PopCount(locals, live, scopeDepth))
      ensures form.VarInitializer? ==>
        && declared == NameAfter(tokens, ConsumeOf(tokens, old(Prog()), LeftParen, ForOpen))
        && locals == DeclaredLocals(old(locals), old(localCount), declared, old(scopeDepth) + 1)
      ensures !form.VarInitializer? ==> locals == old(locals)
      ensures NoneDeeper(old(locals), old(localCount), old(scopeDepth)) ==>
        && localCount == old(localCount)
        && chunk.opCodes == old(chunk.opCodes) + InitializerCode(form, init.code)
           + ForLoopCode(condClause, incrClause, body.code) + Pops(if form.VarInitializer? then 1 else 0)
      ensures chunk.constants == old(chunk.constants)
    {
      ghost var entered, count := locals, localCount;
      form, condClause, incrClause, declared := ForScoped(init, cond, incr, body);
      ghost var progress := Prog();
      EndForScope(entered, count, form.VarInitializer?, declared);
      assert Prog() == progress;
    }

    /**
     * Closes the scope of a `for` whose initializer left the locals as `DeclaredLocals`
     * of `entered` (after `var`) or as `entered`: `EndScope`, with its pop count worked
     * out when no live local of `entered` is deeper than the enclosing depth.
     */
    method EndForScope(ghost entered: seq<Local>, ghost count: nat, ghost isVar: bool, ghost declared: Token)
      requires Valid() && scopeDepth > 0 && count <= |entered|
      requires localCount == count + (if isVar then 1 else 0)
      requires locals == if isVar then DeclaredLocals(entered, count, declared, scopeDepth) else entered
      modifies this`scopeDepth, this`localCount, chunk
      ensures Valid()
      ensures scopeDepth == old(scopeDepth) - 1
      ensures localCount + PopCount(locals, old(localCount), scopeDepth) == old(localCount)
      ensures chunk.opCodes == old(chunk.opCodes) + Pops(PopCount(locals, old(localCount), scopeDepth))
      ensures chunk.constants == old(chunk.constants)
      ensures NoneDeeper(entered, count, scopeDepth) ==>
        && localCount == count
        && chunk.opCodes == old(chunk.opCodes) + Pops(if isVar then 1 else 0)
    {
      EndScope();
      if NoneDeeper(entered, count, scopeDepth) {
        DeclaredScopePops(entered, count, declared, scopeDepth);
      }
    }

    /** A `for` from its `(` to the end of its body, in a scope begun for it and left open. */
    method ForScoped(init: Fragment, cond: Fragment, incr: Fragment, body: Fragment)
      returns (form: Initializer, condClause: Clause, incrClause: Clause, ghost declared: Token)
      requires Valid()
      modifies this`previous, this`current, this`cursor, this`panicMode, this`result,
               this`locals, this`localCount, this`scopeDepth, chunk
      ensures Valid()
      ensures scopeDepth == old(scopeDepth) + 1
      ensures var paren := ConsumeOf(tokens, old(Prog()), LeftParen, ForOpen);
        var q := ForInitOf(tokens, paren, old(locals), old(scopeDepth) + 1, init);
        && (form.NoInitializer? <==> paren.current.kind.SemiColon?)
        && (form.VarInitializer? <==> paren.current.kind.Var?)
        && condClause == CondClause(q, cond)
        && incrClause == IncrClause(tokens, q, cond, incr)
      ensures Prog() == ForOf(tokens, old(Prog()), old(locals), old(scopeDepth) + 1, init, cond, incr, body)
      ensures localCount == old(localCount) + (if form.VarInitializer? then 1 else 0)
      ensures form.VarInitializer? ==>
        && declared == NameAfter(tokens, ConsumeOf(tokens, old(Prog()), LeftParen, ForOpen))
        && locals == DeclaredLocals(old(locals), old(localCount), declared, old(scopeDepth) + 1)
      ensures !form.VarInitializer? ==> locals == old(locals)
      ensures chunk.opCodes == old(chunk.opCodes) + InitializerCode(form, init.code)
                               + ForLoopCode(condClause, incrClause, body.code)
      ensures chunk.constants == old(chunk.constants)
    {
      BeginScope();
      assert Prog() == old(Prog()) && locals == old(locals);
      form, condClause, incrClause, declared := ForClauses(init, cond, incr, body);
    }

    /** A `for` from its `(` to the end of its body, inside the scope just begun for it. */
    method ForClauses(init: Fragment, cond: Fragment, incr: Fragment, body: Fragment)
      returns (form: Initializer, condClause: Clause, incrClause: Clause, ghost declared: Token)
      requires Valid() && scopeDepth > 0
      modifies this`previous, this`current, this`cursor, this`panicMode, this`result,
               this`locals, this`localCount, chunk
      ensures Valid()
      ensures var paren := ConsumeOf(tokens, old(Prog()), LeftParen, ForOpen);
        var q := ForInitOf(tokens, paren, old(locals), scopeDepth, init);
        && (form.NoInitializer? <==> paren.current.kind.SemiColon?)
        && (form.VarInitializer? <==> paren.current.kind.Var?)
        && condClause == CondClause(q, cond)
        && incrClause == IncrClause(tokens, q, cond, incr)
      ensures Prog() == ForOf(tokens, old(Prog()), old(locals), scopeDepth, init, cond, incr, body)
      ensures localCount == old(localCount) + (if form.VarInitializer? then 1 else 0)
      ensures form.VarInitializer? ==>
        && declared == NameAfter(tokens, ConsumeOf(tokens, old(Prog()), LeftParen, ForOpen))
        && locals == DeclaredLocals(old(locals), old(localCount), declared, scopeDepth)
      ensures !form.VarInitializer? ==> locals == old(locals)
      ensures chunk.opCodes == old(chunk.opCodes) + InitializerCode(form, init.code)
                               + ForLoopCode(condClause, incrClause, body.code)
      ensures chunk.constants == old(chunk.constants)
    {
      Consume(LeftParen, ForOpen);
      form, declared := ForInitializer(init);
      condClause, incrClause := ForLoop(cond, incr, body);
    }

    /** `while (cond) body` after the `while`: exit jump backpatched, loop back to the condition. */
    method WhileStatement(cond: Fragment, body: Fragment)
      requires Valid()
      modifies this`previous, this`current, this`cursor, this`panicMode, this`result, chunk
      ensures Valid()
      ensures Prog() == WhileOf(tokens, old(Prog()), cond, body)
      ensures chunk.opCodes == old(chunk.opCodes) + WhileCode(cond.code, body.code)
      ensures chunk.constants == old(chunk.constants)
    {
      var loopStart := chunk.Len();
      ParenCondition(cond, WhileOpen, WhileClose);
      WhileBody(body, loopStart);
    }

    /**
     * The body of a `while` once its condition is compiled from `loopStart` on: the
     * exit jump and its pop, the body, the loop back to `loopStart`, and the pop the
     * exit jump lands on.
     */
    method WhileBody(body: Fragment, loopStart: nat)
      requires Valid() && loopStart <= |chunk.opCodes|
      modifies this`previous, this`current, this`cursor, this`panicMode, this`result, chunk
      ensures Valid()
      ensures Prog() == LoopBodyOf(tokens, old(Prog()), |old(chunk.opCodes)| - loopStart, body)
      ensures chunk.opCodes == old(chunk.opCodes) + [OpJumpIfFalse(Wrap16(|body.code| + 2)), OpPop] + body.code
                               + [OpLoop(Wrap16(|old(chunk.opCodes)| - loopStart + |body.code| + 3)), OpPop]
      ensures chunk.constants == old(chunk.constants)
    {
      var exitJump := Guarded(body);
      ghost var c3 := chunk.opCodes;
      LoopBack(loopStart, Some(exitJump));
      LoopAssembled(old(chunk.opCodes), body.code, loopStart, exitJump, c3, chunk.opCodes);
    }

    /**
     * The start of `compile`: the only place a failed result goes back to `Ok` and
     * panic mode is cleared, before the first token is read.
     */
    method BeginCompile()
      requires Valid()
      modifies this`previous, this`current, this`cursor, this`panicMode, this`result
      ensures Valid()
      ensures Prog() == AdvanceOf(tokens, old(Prog()).(panicMode := false, result := Ok(())))
    {
      result := Ok(());
      panicMode := false;
      Advance();
    }

    /**
     * The end of `compile`: the script's code gets its return sequence `ret`, and the
     * compile succeeds exactly when no error was reported.
     */
    method FinishCompile(ret: seq<Opcode>) returns (ok: bool)
      requires Valid()
      modifies chunk
      ensures ok <==> result.Ok?
      ensures chunk.opCodes == old(chunk.opCodes) + ret && chunk.constants == old(chunk.constants)
    {
      EmitOpaque(ret);
      ok := result.Ok?;
    }
  }
}
