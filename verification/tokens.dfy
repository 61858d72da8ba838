/**
 * Tokens as the compiler sees them, and a stand-in for the lexer: a fixed token
 * sequence that ends with EOF and keeps yielding EOF once it is reached.
 */
module Tokens {

  /** Token kinds; only identifiers carry a payload (their name). */
  datatype TokenType =
    | LeftParen | RightParen | LeftBrace | RightBrace
    | Comma | Dot | Minus | Plus | SemiColon | Slash | Star
    | Bang | BangEqual | Equal | EqualEqual
    | Greater | GreaterEqual | Less | LessEqual
    | Identifier(name: string) | String | Number
    | And | Class | Else | False | Fun | For | If | Nil | Or
    | Print | Return | Super | This | True | Var | While
    | Error | EOF

  datatype Token = Token(kind: TokenType, line: int, start: nat, len: nat)

  /**
   * Token-type comparison as the parser uses it: the variant decides, the name an
   * identifier carries does not (the parser asks for `Identifier("")` to mean
   * "any identifier").
   */
  predicate SameKind(a: TokenType, b: TokenType) {
    if a.Identifier? then b.Identifier? else a == b
  }

  /** Kind matching is an equivalence: reflexive, symmetric and transitive. */
  lemma SameKindIsReflexive(a: TokenType)
    ensures SameKind(a, a)
  {
  }

  lemma SameKindIsTransitive(a: TokenType, b: TokenType, c: TokenType)
    ensures SameKind(a, b) && SameKind(b, c) ==> SameKind(a, c)
  {
  }

  lemma SameKindIsSymmetric(a: TokenType, b: TokenType)
    ensures SameKind(a, b) <==> SameKind(b, a)
  {
    if !a.Identifier? && b.Identifier? {
      assert a != b;
    }
  }

  /** Apart from identifiers, a kind matches only itself. */
  lemma SameKindIsEqualityOffIdentifiers(a: TokenType, b: TokenType)
    requires !a.Identifier?
    ensures SameKind(a, b) <==> a == b
  {
  }

  /** The keywords at which error recovery stops skipping. */
  predicate StartsDeclaration(k: TokenType) {
    k.Class? || k.Fun? || k.Var? || k.For? || k.If? || k.While? || k.Print? || k.Return?
  }

  /** What the lexer stand-in must be: non-empty, with EOF as its last token and nowhere else. */
  predicate WellFormedStream(ts: seq<Token>) {
    |ts| > 0 && ts[|ts| - 1].kind.EOF? && forall i :: 0 <= i < |ts| - 1 ==> !ts[i].kind.EOF?
  }

  /** Position of the next token to hand out after handing out `ts[i]`; EOF repeats. */
  function NextIndex(ts: seq<Token>, i: nat): (j: nat)
    requires i < |ts|
    ensures j < |ts|
    ensures j == i + 1 || (j == i && i == |ts| - 1)
  {
    if i + 1 < |ts| then i + 1 else i
  }

  /**
   * Index of the first token at or after `i` that is not an `Error` token: where a
   * scan that skips error tokens comes to rest.
   */
  function FirstNonError(ts: seq<Token>, i: nat): (k: nat)
    requires WellFormedStream(ts) && i < |ts|
    ensures i <= k < |ts|
    ensures !ts[k].kind.Error?
    ensures forall j :: i <= j < k ==> ts[j].kind.Error?
    decreases |ts| - i
  {
    if !ts[i].kind.Error? then i else FirstNonError(ts, i + 1)
  }

  lemma {:induction false} FirstNonErrorSkipsErrors(ts: seq<Token>, i: nat)
    requires WellFormedStream(ts) && i < |ts| && ts[i].kind.Error?
    ensures i + 1 < |ts| && FirstNonError(ts, i) == FirstNonError(ts, i + 1)
  {
  }
}
