/**
 * How each statement the compiler parses moves through the token stream and what it
 * reports, as compositions of the token-level steps. Expressions and nested
 * statements are fragments: the instructions they emit and the number of tokens
 * they read, reporting nothing of their own.
 */
module StatementFlow {
  import opened Wrappers
  import opened Tokens
  import opened Chunks
  import opened Scopes
  import opened CodeShapes
  import opened TokenFlow

  const TooMuchCode := "Too much code to jump over"
  const LoopTooLarge := "Loop body too large"
  const AlreadyDeclared := "Already a variable with this name in this scope"
  const ExpectVariableName := "Expect variable name"
  const ExpectSemicolon := "Expect ';' after value"
  const IfOpen := "Expect '(' after if"
  const IfClose := "Expect ')' after if condition"
  const WhileOpen := "Expect '(' after while"
  const WhileClose := "Expect ')' after while condition"
  const ForOpen := "Expect '(' after 'for'"
  const ForCondEnd := "Expect ';' after loop condition"
  const ForClose := "Expect ')' after 'for' clauses"

  /** An expression or nested statement: the instructions it emits and how many tokens it reads. */
  datatype Fragment = Fragment(code: seq<Opcode>, width: nat)

  /**
   * `declare_variable`'s report on the identifier just consumed: a local that
   * redeclares a name of the innermost scope. Globals are never reported.
   */
  function DeclareOf(p: Progress, locals: seq<Local>, depth: int): (r: Progress)
    ensures r.cursor == p.cursor && r.current == p.current && r.previous == p.previous
    ensures Honest(p) ==> Honest(r)
    ensures Honest(p) ==>
      (r.result.Ok? <==> p.result.Ok? && !(depth > 0 && RedeclaresInScope(locals, depth, p.previous)))
  {
    ReportOf(p, depth > 0 && RedeclaresInScope(locals, depth, p.previous), AlreadyDeclared)
  }

  /**
   * `parse_variable`: the variable's name, then its declaration. It succeeds exactly
   * when the current token is an identifier that no local of the innermost scope
   * already names.
   */
  function ParseVariableOf(ts: seq<Token>, p: Progress, locals: seq<Local>, depth: int, msg: string): (r: Progress)
    requires Sound(ts, p)
    ensures Sound(ts, r)
    ensures r.result.Ok? <==>
      p.result.Ok? && p.current.kind.Identifier? && !(depth > 0 && RedeclaresInScope(locals, depth, p.current))
    ensures p.current.kind.Identifier? ==> r.previous == p.current && r.cursor == AdvanceOf(ts, p).cursor
    ensures !p.current.kind.Identifier? ==> r.cursor == p.cursor && r.previous == p.previous
    ensures p.current.kind.Identifier? ==> r.current == AdvanceOf(ts, p).current
    ensures !p.current.kind.Identifier? ==> r.current == p.current
    ensures !p.current.kind.Identifier? && !p.panicMode ==> r.panicMode && r.result == Err(msg)
    ensures !p.current.kind.Identifier? && p.panicMode ==> r == p
  {
    DeclareOf(ConsumeOf(ts, p, Identifier(""), msg), locals, depth)
  }

  /**
   * Two locals of one name in one scope do not compile: once `name` is declared in
   * the innermost scope, parsing it as a variable again reports an error.
   */
  lemma RedeclarationFails(ts: seq<Token>, p: Progress, locals: seq<Local>, depth: int, msg: string)
    requires Sound(ts, p) && depth > 0 && p.current.kind.Identifier?
    ensures ParseVariableOf(ts, p, locals + [Local(p.current, depth)], depth, msg).result.Err?
  {
    assert RedeclaresInScope(locals + [Local(p.current, depth)], depth, p.current);
  }

  /** The end of an expression statement: the expression, then its `;`. */
  function StatementEndOf(ts: seq<Token>, p: Progress, width: nat): (r: Progress)
    requires Sound(ts, p)
    ensures Sound(ts, r)
    ensures r.result.Ok? <==> p.result.Ok? && Skipped(ts, p, width).current.kind.SemiColon?
  {
    ConsumeOf(ts, Skipped(ts, p, width), SemiColon, ExpectSemicolon)
  }

  /** The rest of `var_declaration` after the name: `= value` when an `=` follows, then `;`. */
  function InitialValueOf(ts: seq<Token>, p: Progress, value: Fragment): (r: Progress)
    requires Sound(ts, p)
    ensures Sound(ts, r)
    ensures !p.current.kind.Equal? ==> r == ConsumeOf(ts, p, SemiColon, ExpectSemicolon)
    ensures p.current.kind.Equal? ==> r == StatementEndOf(ts, AdvanceOf(ts, p), value.width)
    ensures r.result.Ok? <==>
      && p.result.Ok?
      && if p.current.kind.Equal? then Skipped(ts, AdvanceOf(ts, p), value.width).current.kind.SemiColon?
         else p.current.kind.SemiColon?
  {
    var q := if SameKind(p.current.kind, Equal) then Skipped(ts, AdvanceOf(ts, p), value.width) else p;
    ConsumeOf(ts, q, SemiColon, ExpectSemicolon)
  }

  /**
   * The token a `var` at `p.current` declares: the name after it, or, when no
   * identifier follows, the last token consumed (the error has been reported then).
   */
  function NameAfter(ts: seq<Token>, p: Progress): Token
    requires Sound(ts, p)
  {
    var q := AdvanceOf(ts, p);
    if q.current.kind.Identifier? then q.current else q.previous
  }

  /** `var_declaration`: the name, its declaration, the optional initial value and the `;`. */
  function VarDeclOf(ts: seq<Token>, p: Progress, locals: seq<Local>, depth: int, value: Fragment): (r: Progress)
    requires Sound(ts, p)
    ensures Sound(ts, r)
    ensures var q := ParseVariableOf(ts, p, locals, depth, ExpectVariableName);
      r.result.Ok? <==>
        && q.result.Ok?
        && if q.current.kind.Equal? then Skipped(ts, AdvanceOf(ts, q), value.width).current.kind.SemiColon?
           else q.current.kind.SemiColon?
  {
    InitialValueOf(ts, ParseVariableOf(ts, p, locals, depth, ExpectVariableName), value)
  }

  /**
   * `declaration`: a `var` declaration after `var`, a statement otherwise, and then
   * recovery when that left panic mode on.
   */
  function DeclarationOf(ts: seq<Token>, p: Progress, locals: seq<Local>, depth: int,
                         value: Fragment, statement: Fragment): (r: Progress)
    requires Sound(ts, p)
    ensures Sound(ts, r) && !r.panicMode
    ensures !p.current.kind.Var? && !p.panicMode ==> r == Skipped(ts, p, statement.width)
    ensures r.result.Ok? <==>
      p.result.Ok? && (p.current.kind.Var? ==> VarDeclOf(ts, AdvanceOf(ts, p), locals, depth, value).result.Ok?)
  {
    var q := if SameKind(p.current.kind, Var) then VarDeclOf(ts, AdvanceOf(ts, p), locals, depth, value)
             else Skipped(ts, p, statement.width);
    RecoverOf(ts, q)
  }

  /** `( cond )`, shared by `if` and `while`: fails exactly when either parenthesis is missing. */
  function ParenOf(ts: seq<Token>, p: Progress, width: nat, openMsg: string, closeMsg: string): (r: Progress)
    requires Sound(ts, p)
    ensures Sound(ts, r)
    ensures r.result.Ok? <==>
      p.result.Ok? && p.current.kind.LeftParen? && Skipped(ts, AdvanceOf(ts, p), width).current.kind.RightParen?
  {
    ConsumeOf(ts, Skipped(ts, ConsumeOf(ts, p, LeftParen, openMsg), width), RightParen, closeMsg)
  }

  /**
   * The branches of an `if` once its condition is parsed: the then-branch, and the
   * else-branch when `else` follows. It fails exactly when a branch is too long to
   * jump over, or `q` had already failed.
   */
  function BranchesOf(ts: seq<Token>, q: Progress, thenPart: Fragment, elsePart: Fragment): (r: Progress)
    requires Sound(ts, q)
    ensures Sound(ts, r)
    ensures r.result.Ok? <==>
      && q.result.Ok?
      && |thenPart.code| + 2 <= U16Max
      && (Skipped(ts, q, thenPart.width).current.kind.Else? ==> |elsePart.code| + 1 <= U16Max)
  {
    var t := ReportOf(Skipped(ts, q, thenPart.width), |thenPart.code| + 2 > U16Max, TooMuchCode);
    var hasElse := SameKind(t.current.kind, Else);
    ReportOf(if hasElse then Skipped(ts, AdvanceOf(ts, t), elsePart.width) else t,
             hasElse && |elsePart.code| + 1 > U16Max, TooMuchCode)
  }

  /** Whether an `if` has an else-branch: the token after its then-branch is `else`. */
  predicate HasElse(ts: seq<Token>, p: Progress, cond: Fragment, thenPart: Fragment)
    requires Sound(ts, p)
  {
    Skipped(ts, ParenOf(ts, p, cond.width, IfOpen, IfClose), thenPart.width).current.kind.Else?
  }

  /**
   * `if_statement`: the parenthesised condition, the then-branch, and the else-branch
   * when `else` follows. It fails exactly when a parenthesis is missing or a branch
   * is too long to jump over.
   */
  function IfOf(ts: seq<Token>, p: Progress, cond: Fragment, thenPart: Fragment, elsePart: Fragment): (r: Progress)
    requires Sound(ts, p)
    ensures Sound(ts, r)
    ensures r.result.Ok? <==>
      && ParenOf(ts, p, cond.width, IfOpen, IfClose).result.Ok?
      && |thenPart.code| + 2 <= U16Max
      && (HasElse(ts, p, cond, thenPart) ==> |elsePart.code| + 1 <= U16Max)
  {
    BranchesOf(ts, ParenOf(ts, p, cond.width, IfOpen, IfClose), thenPart, elsePart)
  }

  /**
   * The body of a `while` once its condition, `condLen` instructions long, is
   * parsed. It fails exactly when the loop back is too long, or `q` had already failed.
   */
  function LoopBodyOf(ts: seq<Token>, q: Progress, condLen: nat, body: Fragment): (r: Progress)
    requires Sound(ts, q)
    ensures Sound(ts, r)
    ensures r.result.Ok? <==> q.result.Ok? && condLen + |body.code| + 3 <= U16Max
  {
    var b := Skipped(ts, q, body.width);
    ReportOf(ReportOf(b, condLen + |body.code| + 3 > U16Max, LoopTooLarge), |body.code| + 2 > U16Max, TooMuchCode)
  }

  /**
   * `while_statement`: the parenthesised condition and the body. It fails exactly
   * when a parenthesis is missing or the loop back is too long.
   */
  function WhileOf(ts: seq<Token>, p: Progress, cond: Fragment, body: Fragment): (r: Progress)
    requires Sound(ts, p)
    ensures Sound(ts, r)
    ensures r.result.Ok? <==>
      ParenOf(ts, p, cond.width, WhileOpen, WhileClose).result.Ok? && |cond.code| + |body.code| + 3 <= U16Max
  {
    LoopBodyOf(ts, ParenOf(ts, p, cond.width, WhileOpen, WhileClose), |cond.code|, body)
  }


  /** A `for` initializer that is not empty: a `var` declaration after `var`, an expression statement otherwise. */
  function DeclaredInitOf(ts: seq<Token>, p: Progress, locals: seq<Local>, depth: int, init: Fragment): (r: Progress)
    requires Sound(ts, p)
    ensures Sound(ts, r)
    ensures r.result.Ok? <==>
      && p.result.Ok?
      && if p.current.kind.Var? then VarDeclOf(ts, AdvanceOf(ts, p), locals, depth, init).result.Ok?
         else Skipped(ts, p, init.width).current.kind.SemiColon?
    ensures !p.current.kind.Var? ==> r == StatementEndOf(ts, p, init.width)
  {
    if SameKind(p.current.kind, Var) then VarDeclOf(ts, AdvanceOf(ts, p), locals, depth, init)
    else StatementEndOf(ts, p, init.width)
  }

  /** The initializer clause of a `for`: nothing but its `;`, or a declared initializer. */
  function ForInitOf(ts: seq<Token>, p: Progress, locals: seq<Local>, depth: int, init: Fragment): (r: Progress)
    requires Sound(ts, p)
    ensures Sound(ts, r)
    ensures r.result.Ok? <==>
      p.result.Ok? && (p.current.kind.SemiColon? || DeclaredInitOf(ts, p, locals, depth, init).result.Ok?)
    ensures p.current.kind.SemiColon? ==> r == AdvanceOf(ts, p)
  {
    if SameKind(p.current.kind, SemiColon) then AdvanceOf(ts, p) else DeclaredInitOf(ts, p, locals, depth, init)
  }

  /** The condition clause of a `for` as it was written: absent when `;` follows at once. */
  function CondClause(p: Progress, cond: Fragment): (c: Clause)
    ensures c.Present? <==> !p.current.kind.SemiColon?
    ensures c.Present? ==> c.code == cond.code
  {
    if SameKind(p.current.kind, SemiColon) then Absent else Present(cond.code)
  }

  /** The condition clause of a `for`: its `;` alone, or the condition and the `;` after it. */
  function ForCondOf(ts: seq<Token>, p: Progress, cond: Fragment): (r: Progress)
    requires Sound(ts, p)
    ensures Sound(ts, r)
    ensures r.result.Ok? <==> p.result.Ok? && (p.current.kind.SemiColon? || Skipped(ts, p, cond.width).current.kind.SemiColon?)
  {
    if SameKind(p.current.kind, SemiColon) then AdvanceOf(ts, p)
    else ConsumeOf(ts, Skipped(ts, p, cond.width), SemiColon, ForCondEnd)
  }

  /** The increment clause of a `for` as it was written: absent when `)` follows the condition clause at once. */
  function IncrClause(ts: seq<Token>, p: Progress, cond: Fragment, incr: Fragment): (c: Clause)
    requires Sound(ts, p)
    ensures c.Present? <==> !ForCondOf(ts, p, cond).current.kind.RightParen?
    ensures c.Present? ==> c.code == incr.code
  {
    if SameKind(ForCondOf(ts, p, cond).current.kind, RightParen) then Absent else Present(incr.code)
  }

  /**
   * A present increment clause: the increment, the `)`, and the two jumps around it.
   * It fails exactly when the `)` is missing or a jump is too long.
   */
  function IncrClauseOf(ts: seq<Token>, p: Progress, condLen: nat, incr: Fragment): (r: Progress)
    requires Sound(ts, p)
    ensures Sound(ts, r)
    ensures r.result.Ok? <==>
      && p.result.Ok? && Skipped(ts, p, incr.width).current.kind.RightParen?
      && condLen + |incr.code| + 3 <= U16Max && |incr.code| + 2 <= U16Max
  {
    var q := ConsumeOf(ts, Skipped(ts, p, incr.width), RightParen, ForClose);
    ReportOf(ReportOf(q, condLen + |incr.code| + 3 > U16Max, LoopTooLarge), |incr.code| + 2 > U16Max, TooMuchCode)
  }

  /** The increment clause of a `for`: its `)` alone, or a present increment clause. */
  function ForIncrOf(ts: seq<Token>, p: Progress, condLen: nat, incr: Fragment): (r: Progress)
    requires Sound(ts, p)
    ensures Sound(ts, r)
    ensures r.result.Ok? <==>
      p.result.Ok? && (p.current.kind.RightParen? ||
       (Skipped(ts, p, incr.width).current.kind.RightParen? && condLen + |incr.code| + 3 <= U16Max && |incr.code| + 2 <= U16Max))
    ensures p.current.kind.RightParen? ==> r == AdvanceOf(ts, p)
    ensures !p.current.kind.RightParen? ==> r == IncrClauseOf(ts, p, condLen, incr)
  {
    if SameKind(p.current.kind, RightParen) then AdvanceOf(ts, p) else IncrClauseOf(ts, p, condLen, incr)
  }

  /**
   * A `for` after its initializer: the condition clause, the increment clause, the
   * body and its loop back, and the exit jump when there is a condition. Once the
   * clauses are parsed, it fails exactly when a jump does not fit.
   */
  function ForLoopOf(ts: seq<Token>, p: Progress, cond: Fragment, incr: Fragment, body: Fragment): (r: Progress)
    requires Sound(ts, p)
    ensures Sound(ts, r)
    ensures var c, i := CondClause(p, cond), IncrClause(ts, p, cond, incr);
      r.result.Ok? <==>
        && ForIncrOf(ts, ForCondOf(ts, p, cond), CondLen(c), incr).result.Ok?
        && BodyLoop(c, i, body.code) <= U16Max
        && (c.Present? ==> IncrLen(i) + |body.code| + 2 <= U16Max)
  {
    var c, i := CondClause(p, cond), IncrClause(ts, p, cond, incr);
    var q := Skipped(ts, ForIncrOf(ts, ForCondOf(ts, p, cond), CondLen(c), incr), body.width);
    ReportOf(ReportOf(q, BodyLoop(c, i, body.code) > U16Max, LoopTooLarge),
             c.Present? && IncrLen(i) + |body.code| + 2 > U16Max, TooMuchCode)
  }

  /**
   * With its clauses parsed without error, a `for` loop fails exactly when one of
   * its jumps does not fit in 16 bits.
   */
  lemma ForLoopFits(ts: seq<Token>, p: Progress, cond: Fragment, incr: Fragment, body: Fragment)
    requires Sound(ts, p)
    requires var q := ForCondOf(ts, p, cond);
      q.result.Ok? && (!q.current.kind.RightParen? ==> Skipped(ts, q, incr.width).current.kind.RightParen?)
    ensures ForLoopOf(ts, p, cond, incr, body).result.Ok? <==>
      ForFits(CondClause(p, cond), IncrClause(ts, p, cond, incr), body.code)
  {
  }

  /** `for_statement` after `begin_scope`: the `(`, the initializer, and the loop. */
  function ForOf(ts: seq<Token>, p: Progress, locals: seq<Local>, depth: int,
                 init: Fragment, cond: Fragment, incr: Fragment, body: Fragment): (r: Progress)
    requires Sound(ts, p)
    ensures Sound(ts, r)
    ensures r.result.Ok? ==> p.result.Ok? && p.current.kind.LeftParen?
    ensures p.current.kind.LeftParen? ==>
      r == ForLoopOf(ts, ForInitOf(ts, AdvanceOf(ts, p), locals, depth, init), cond, incr, body)
  {
    ForLoopOf(ts, ForInitOf(ts, ConsumeOf(ts, p, LeftParen, ForOpen), locals, depth, init), cond, incr, body)
  }
}
