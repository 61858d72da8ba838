/**
 * The instruction shapes that `if`, `while` and `for` emit, with the jump
 * arithmetic that connects them.
 */
module CodeShapes {
  import opened Chunks

  /** The largest jump distance an instruction can carry. */
  const U16Max := 65535

  /** The truncating `as u16` conversion applied to a jump distance. */
  function Wrap16(n: nat): (r: nat)
    ensures r <= U16Max
    ensures n <= U16Max ==> r == n
  {
    n % 0x1_0000
  }

  predicate IsJump(op: Opcode) {
    op.OpJump? || op.OpJumpIfFalse?
  }

  /** The jump variant of `op`, carrying distance `n` truncated to 16 bits. */
  function Patched(op: Opcode, n: nat): (r: Opcode)
    requires IsJump(op)
    ensures IsJump(r) && r.OpJump? == op.OpJump? && r.offset == Wrap16(n)
  {
    if op.OpJumpIfFalse? then OpJumpIfFalse(Wrap16(n)) else OpJump(Wrap16(n))
  }

  /**
   * Where control goes after the jump at index `i`: distances are measured from the
   * slot after the jump, forwards for `OpJump`/`OpJumpIfFalse`, backwards for `OpLoop`.
   */
  function Target(code: seq<Opcode>, i: nat): int
    requires i < |code| && (IsJump(code[i]) || code[i].OpLoop?)
  {
    if code[i].OpLoop? then i + 1 - code[i].offset else i + 1 + code[i].offset
  }

  function Pops(n: nat): (r: seq<Opcode>)
    ensures |r| == n && forall i :: 0 <= i < n ==> r[i] == OpPop
  {
    seq(n, _ => OpPop)
  }

  /** One more pop extends the run of pops after `code` by one. */
  lemma PopsGrow(code: seq<Opcode>, n: nat)
    ensures code + Pops(n) + [OpPop] == code + Pops(n + 1)
  {
    assert Pops(n) + [OpPop] == Pops(n + 1);
  }

  /**
   * `if (cond) then else other`: a conditional jump over the then-branch and the
   * unconditional jump that ends it, each followed by a pop of the condition.
   */
  function IfCode(cond: seq<Opcode>, thenCode: seq<Opcode>, elseCode: seq<Opcode>): seq<Opcode>
  {
    cond + [OpJumpIfFalse(Wrap16(|thenCode| + 2)), OpPop] + thenCode
    + [OpJump(Wrap16(|elseCode| + 1)), OpPop] + elseCode
  }

  /**
   * The false-branch jump lands on the pop that starts the else-part, and the jump
   * that ends the then-branch lands just past the whole statement.
   */
  lemma IfTargets(cond: seq<Opcode>, thenCode: seq<Opcode>, elseCode: seq<Opcode>)
    requires |thenCode| + 2 <= U16Max && |elseCode| + 1 <= U16Max
    ensures var code := IfCode(cond, thenCode, elseCode);
      var j := |cond| + 2 + |thenCode|;
      && code[|cond|].OpJumpIfFalse? && Target(code, |cond|) == j + 1 && code[j + 1] == OpPop
      && code[j].OpJump? && Target(code, j) == |code|
  {
    var code := IfCode(cond, thenCode, elseCode);
    var j := |cond| + 2 + |thenCode|;
    assert code[|cond|] == OpJumpIfFalse(|thenCode| + 2);
    assert code[j] == OpJump(|elseCode| + 1);
    assert code[j + 1] == OpPop;
  }

  /** `while (cond) body`: exit jump, pop, body, loop back, pop on exit. */
  function WhileCode(cond: seq<Opcode>, body: seq<Opcode>): seq<Opcode>
  {
    cond + [OpJumpIfFalse(Wrap16(|body| + 2)), OpPop] + body
    + [OpLoop(Wrap16(|cond| + |body| + 3)), OpPop]
  }

  /**
   * The exit jump lands on the final pop, and the loop instruction returns to the
   * first instruction of the condition.
   */
  lemma WhileTargets(cond: seq<Opcode>, body: seq<Opcode>)
    requires |cond| + |body| + 3 <= U16Max
    ensures var code := WhileCode(cond, body);
      var j := |cond| + 2 + |body|;
      && code[|cond|].OpJumpIfFalse? && Target(code, |cond|) == j + 1 && code[j + 1] == OpPop
      && code[j].OpLoop? && Target(code, j) == 0
      && |code| == j + 2
  {
    var code := WhileCode(cond, body);
    var j := |cond| + 2 + |body|;
    assert code[|cond|] == OpJumpIfFalse(|body| + 2);
    assert code[j] == OpLoop(|cond| + |body| + 3);
    assert code[j + 1] == OpPop;
  }

  /** Which optional clauses a `for` statement had. */
  datatype Clause = Absent | Present(code: seq<Opcode>)

  function CondLen(cond: Clause): nat {
    if cond.Present? then |cond.code| + 2 else 0
  }

  function IncrLen(incr: Clause): nat {
    if incr.Present? then |incr.code| + 3 else 0
  }

  /** The condition clause: the condition, its exit jump and a pop. */
  function ForCondCode(cond: Clause, incr: Clause, body: seq<Opcode>): (r: seq<Opcode>)
    ensures |r| == CondLen(cond)
  {
    if cond.Absent? then []
    else cond.code + [OpJumpIfFalse(Wrap16(IncrLen(incr) + |body| + 2)), OpPop]
  }

  /**
   * The increment clause, emitted where it appears but run after the body: a jump
   * over it, the increment, a pop, and a loop back to the condition.
   */
  function ForIncrCode(cond: Clause, incr: Clause): (r: seq<Opcode>)
    ensures |r| == IncrLen(incr)
  {
    if incr.Absent? then []
    else [OpJump(Wrap16(|incr.code| + 2))] + incr.code + [OpPop, OpLoop(Wrap16(CondLen(cond) + |incr.code| + 3))]
  }

  /** The distance of the loop that ends a `for` body: back to the increment, or to the condition. */
  function BodyLoop(cond: Clause, incr: Clause, body: seq<Opcode>): nat {
    if incr.Present? then IncrLen(incr) + |body| else CondLen(cond) + |body| + 1
  }

  /**
   * Everything a `for` emits after its initializer and before its scope ends: the
   * body loops back to the increment when there is one, to the condition otherwise.
   */
  function ForLoopCode(cond: Clause, incr: Clause, body: seq<Opcode>): seq<Opcode>
  {
    ForCondCode(cond, incr, body)
    + (ForIncrCode(cond, incr) + body + [OpLoop(Wrap16(BodyLoop(cond, incr, body)))])
    + (if cond.Present? then [OpPop] else [])
  }

  /**
   * Every jump distance a `for` emits fits in 16 bits: the exit jump, the jump over
   * the increment, the increment's loop and the body's loop.
   */
  predicate ForFits(cond: Clause, incr: Clause, body: seq<Opcode>) {
    && (cond.Present? ==> IncrLen(incr) + |body| + 2 <= U16Max)
    && (incr.Present? ==> |incr.code| + 2 <= U16Max && CondLen(cond) + IncrLen(incr) <= U16Max)
    && BodyLoop(cond, incr, body) <= U16Max
  }

  /**
   * Control flow of a `for`: the body's loop returns to the increment (or to the
   * condition without one), the increment's loop returns to the condition, the jump
   * over the increment lands on the body, and the exit jump lands on the final pop.
   */
  lemma ForTargets(cond: Clause, incr: Clause, body: seq<Opcode>)
    requires ForFits(cond, incr, body)
    ensures var code := ForLoopCode(cond, incr, body);
      var c, i := CondLen(cond), IncrLen(incr);
      var j := c + i + |body|;
      && code[j].OpLoop?
      && Target(code, j) == (if incr.Present? then c + 1 else 0)
      && (incr.Present? ==> code[c].OpJump? && Target(code, c) == c + i
                            && code[c + i - 1].OpLoop? && Target(code, c + i - 1) == 0)
      && (cond.Present? ==> code[c - 2].OpJumpIfFalse? && Target(code, c - 2) == j + 1
                            && code[j + 1] == OpPop && |code| == j + 2)
  {
    var code := ForLoopCode(cond, incr, body);
    var c, i := CondLen(cond), IncrLen(incr);
    var j := c + i + |body|;
    var condCode, incrCode := ForCondCode(cond, incr, body), ForIncrCode(cond, incr);
    assert code[j] == OpLoop(Wrap16(BodyLoop(cond, incr, body)));
    if incr.Present? {
      assert code[c] == incrCode[0];
      assert code[c + i - 1] == incrCode[i - 1];
    }
    if cond.Present? {
      assert code[c - 2] == condCode[c - 2];
      assert code[j + 1] == OpPop;
    }
  }
}
