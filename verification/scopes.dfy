/**
 * The compiler's block-scope bookkeeping as pure definitions: the locals list, the
 * duplicate scan of a local declaration, the marking of a declared local, and the
 * pop count of a scope exit.
 */
module Scopes {
  import opened Tokens

  /** A local variable: its declaring token and its scope depth, -1 while uninitialised. */
  datatype Local = Local(token: Token, depth: int)

  /** Two tokens name the same variable: both identifiers, same length, same name. */
  function IdentifiersEqual(a: Token, b: Token): (r: bool)
    ensures r ==> a.kind.Identifier? && b.kind.Identifier? && a.kind == b.kind && a.len == b.len
    ensures a.kind.Identifier? && a.kind == b.kind && a.len == b.len ==> r
  {
    if a.len != b.len then false
    else match a.kind
      case Identifier(n1) => (match b.kind
        case Identifier(n2) => n1 == n2
        case _ => false)
      case _ => false
  }

  /** A local that belongs to an enclosing scope: initialised, at a smaller depth. */
  predicate Outer(l: Local, depth: int) {
    l.depth != -1 && l.depth < depth
  }

  /**
   * The index where the innermost scope begins in `locals`: just after the last
   * local of an enclosing scope, or 0 when there is none.
   */
  function ScopeStart(locals: seq<Local>, depth: int): (s: nat)
    ensures s <= |locals|
    ensures forall i :: s <= i < |locals| ==> !Outer(locals[i], depth)
    ensures s > 0 ==> Outer(locals[s - 1], depth)
  {
    if |locals| == 0 || Outer(locals[|locals| - 1], depth) then |locals|
    else ScopeStart(locals[..|locals| - 1], depth)
  }

  /**
   * The duplicate test of a local declaration, as a backward scan: walk the locals
   * from the newest, stop at the first local of an enclosing scope, and look for an
   * equal identifier on the way.
   */
  function RedeclaresInScope(locals: seq<Local>, depth: int, name: Token): (r: bool)
    ensures r ==> name.kind.Identifier? && exists i :: 0 <= i < |locals| && IdentifiersEqual(name, locals[i].token)
    ensures |locals| > 0 && !Outer(locals[|locals| - 1], depth) && IdentifiersEqual(name, locals[|locals| - 1].token) ==> r
  {
    if |locals| == 0 then false
    else
      var last := locals[|locals| - 1];
      if Outer(last, depth) then false
      else IdentifiersEqual(name, last.token) || RedeclaresInScope(locals[..|locals| - 1], depth, name)
  }

  /**
   * The backward scan finds a duplicate exactly when an equal identifier sits at or
   * after the start of the innermost scope.
   */
  lemma {:induction false} RedeclaresInScopeIff(locals: seq<Local>, depth: int, name: Token)
    ensures RedeclaresInScope(locals, depth, name) <==>
      exists i :: ScopeStart(locals, depth) <= i < |locals| && IdentifiersEqual(name, locals[i].token)
  {
    if |locals| == 0 {
    } else {
      var init := locals[..|locals| - 1];
      var last := locals[|locals| - 1];
      if Outer(last, depth) {
      } else {
        RedeclaresInScopeIff(init, depth, name);
        assert ScopeStart(locals, depth) == ScopeStart(init, depth);
        if RedeclaresInScope(locals, depth, name) {
          if IdentifiersEqual(name, last.token) {
            assert IdentifiersEqual(name, locals[|locals| - 1].token);
          } else {
            var i :| ScopeStart(init, depth) <= i < |init| && IdentifiersEqual(name, init[i].token);
            assert locals[i] == init[i];
          }
        } else {
          forall i | ScopeStart(locals, depth) <= i < |locals|
            ensures !IdentifiersEqual(name, locals[i].token)
          {
            if i < |init| {
              assert locals[i] == init[i];
            }
          }
        }
      }
    }
  }

  /**
   * The locals after a local declaration and its initialisation: the new local is
   * appended uninitialised, then the slot at the old live count is given `depth`.
   * That slot is the new local only when no dead entries remain past the live ones;
   * otherwise the oldest dead entry is marked and the new local stays uninitialised.
   */
  function DeclaredLocals(locals: seq<Local>, count: nat, name: Token, depth: int): (r: seq<Local>)
    requires count <= |locals|
    ensures count == |locals| ==> r == locals + [Local(name, depth)]
    ensures count < |locals| ==> r == locals[count := Local(locals[count].token, depth)] + [Local(name, -1)]
  {
    var added := locals + [Local(name, -1)];
    added[count := Local(added[count].token, depth)]
  }

  /**
   * After `{ var a; }` closes, declaring `b` at the same depth marks the dead `a`
   * again and leaves `b` uninitialised.
   */
  lemma StaleSlotMarked(a: Token, b: Token)
    ensures DeclaredLocals([Local(a, 1)], 0, b, 1) == [Local(a, 1), Local(b, -1)]
  {
  }

  /**
   * How many locals `end_scope` pops when leaving into `depth`: the trailing live
   * locals (among the first `count`) that are deeper than `depth`, stopping at the
   * first that is not.
   */
  function PopCount(locals: seq<Local>, count: nat, depth: int): (n: nat)
    requires count <= |locals|
    ensures n <= count
    ensures forall i :: count - n <= i < count ==> locals[i].depth > depth
    ensures n < count ==> locals[count - n - 1].depth <= depth
    decreases count
  {
    if count > 0 && locals[count - 1].depth > depth then 1 + PopCount(locals, count - 1, depth) else 0
  }

  /** No live local (among the first `count`) is deeper than `depth`. */
  predicate NoneDeeper(locals: seq<Local>, count: nat, depth: int)
    requires count <= |locals|
  {
    forall i :: 0 <= i < count ==> locals[i].depth <= depth
  }

  /** Leaving a scope whose `k` innermost live locals are deeper pops exactly `k`. */
  lemma PopCountOfScope(locals: seq<Local>, count: nat, depth: int, k: nat)
    requires k <= count <= |locals|
    requires forall i :: count - k <= i < count ==> locals[i].depth > depth
    requires k < count ==> locals[count - k - 1].depth <= depth
    ensures PopCount(locals, count, depth) == k
  {
  }

  /**
   * A scope entered from `depth` whose only declaration is one local pops exactly
   * that one slot when it closes, whether the declaration marked the new local or a
   * stale entry; a scope without declarations pops nothing.
   */
  lemma DeclaredScopePops(locals: seq<Local>, count: nat, name: Token, depth: int)
    requires count <= |locals| && NoneDeeper(locals, count, depth)
    ensures PopCount(locals, count, depth) == 0
    ensures PopCount(DeclaredLocals(locals, count, name, depth + 1), count + 1, depth) == 1
  {
    PopCountOfScope(locals, count, depth, 0);
    var declared := DeclaredLocals(locals, count, name, depth + 1);
    assert declared[count].depth == depth + 1;
    if count > 0 {
      assert declared[count - 1] == locals[count - 1];
    }
    PopCountOfScope(declared, count + 1, depth, 1);
  }

  /**
   * Leaving a scope into `depth` lowers the live count but keeps the popped locals
   * in the list. In the next block at the same depth, a name equal to any popped
   * local is reported as a duplicate: `{ var a; } { var a; }` fails.
   */
  lemma PoppedLocalClashes(locals: seq<Local>, depth: int, name: Token, i: nat)
    requires |locals| - PopCount(locals, |locals|, depth) <= i < |locals|
    requires IdentifiersEqual(name, locals[i].token)
    ensures RedeclaresInScope(locals, depth + 1, name)
  {
    RedeclaresInScopeIff(locals, depth + 1, name);
    assert ScopeStart(locals, depth + 1) <= i;
  }

  /**
   * In that next block, any declaration marks the first popped entry as the
   * initialised local, while the new local itself stays uninitialised:
   * `{ var a; } { var b; }` leaves `b` at depth -1.
   */
  lemma PoppedSlotMarked(locals: seq<Local>, depth: int, name: Token)
    requires PopCount(locals, |locals|, depth) > 0
    ensures var live := |locals| - PopCount(locals, |locals|, depth);
      var declared := DeclaredLocals(locals, live, name, depth + 1);
      && declared[live] == Local(locals[live].token, depth + 1)
      && declared[|locals|] == Local(name, -1)
      && declared[..live] == locals[..live]
  {
  }
}
