/**
 * The parser's position in the token stream and its error state, as a value, and
 * the compiler's token-level steps as functions on it: advancing, reporting an
 * error in panic mode, consuming an expected token, matching an optional one, and
 * resynchronising after an error.
 */
module TokenFlow {
  import opened Wrappers
  import opened Tokens

  /** Where the parser stands: the next token to scan, the current and previous tokens, and what was reported. */
  datatype Progress = Progress(cursor: nat, current: Token, previous: Token, panicMode: bool, result: Result<()>)

  /** Panic mode is only ever on after an error was recorded. */
  predicate Honest(p: Progress) {
    p.panicMode ==> p.result.Err?
  }

  /** A position the parser can be in: inside a well-formed stream, and honest. */
  predicate Sound(ts: seq<Token>, p: Progress) {
    WellFormedStream(ts) && p.cursor < |ts| && Honest(p)
  }

  /**
   * `advance`: the current token becomes the previous one, and the scan moves on
   * to the first token, from the cursor on, that is not an error token.
   */
  function AdvanceOf(ts: seq<Token>, p: Progress): (r: Progress)
    requires Sound(ts, p)
    ensures Sound(ts, r) && r.previous == p.current && !r.current.kind.Error?
    ensures r.panicMode == p.panicMode && r.result == p.result
  {
    var k := FirstNonError(ts, p.cursor);
    p.(cursor := NextIndex(ts, k), current := ts[k], previous := p.current)
  }

  /** `n` advances one after another: how far an expression or statement of `n` tokens reads. */
  function Skipped(ts: seq<Token>, p: Progress, n: nat): (r: Progress)
    requires Sound(ts, p)
    ensures Sound(ts, r) && r.panicMode == p.panicMode && r.result == p.result
    ensures n > 0 ==> !r.current.kind.Error?
    decreases n
  {
    if n == 0 then p else AdvanceOf(ts, Skipped(ts, p, n - 1))
  }

  /**
   * The compiler's result after a check that reports `msg` when it `failed`: the
   * first report wins, and while panicking every later report is dropped.
   */
  function ReportIf(failed: bool, wasPanic: bool, was: Result<()>, msg: string): Result<()> {
    if failed && !wasPanic then Err(msg) else was
  }

  /**
   * With the panic flag set only after an error, the result is an error exactly
   * when it already was one or the check failed.
   */
  lemma ReportIfRecordsFailure(failed: bool, wasPanic: bool, was: Result<()>, msg: string)
    requires wasPanic ==> was.Err?
    ensures ReportIf(failed, wasPanic, was, msg).Err? <==> was.Err? || failed
  {
  }

  /**
   * `error_at` when `failed`, nothing otherwise: panic mode goes on and the result
   * records `msg` unless an earlier report is still in force. The tokens stay put.
   */
  function ReportOf(p: Progress, failed: bool, msg: string): (r: Progress)
    ensures r.cursor == p.cursor && r.current == p.current && r.previous == p.previous
    ensures r.panicMode == (p.panicMode || failed)
    ensures Honest(p) ==> Honest(r) && (r.result.Ok? <==> p.result.Ok? && !failed)
    ensures failed && !p.panicMode ==> r.result == Err(msg)
    ensures !failed ==> r == p
    ensures p.panicMode ==> r == p
  {
    p.(panicMode := p.panicMode || failed, result := ReportIf(failed, p.panicMode, p.result, msg))
  }

  /**
   * `consume`: advances past a token of kind `t`; any other token is reported with
   * `msg` and stays current.
   */
  function ConsumeOf(ts: seq<Token>, p: Progress, t: TokenType, msg: string): (r: Progress)
    requires Sound(ts, p)
    ensures Sound(ts, r)
    ensures r.result.Ok? <==> p.result.Ok? && SameKind(p.current.kind, t)
    ensures r.panicMode == (p.panicMode || !SameKind(p.current.kind, t))
    ensures SameKind(p.current.kind, t) ==> r.previous == p.current && r.cursor == AdvanceOf(ts, p).cursor
    ensures !SameKind(p.current.kind, t) ==> r.cursor == p.cursor && r.current == p.current
    ensures SameKind(p.current.kind, t) ==> r == AdvanceOf(ts, p)
    ensures !SameKind(p.current.kind, t) ==> r == ReportOf(p, true, msg)
  {
    if SameKind(p.current.kind, t) then AdvanceOf(ts, p) else ReportOf(p, true, msg)
  }

  /** `match_token`: advances past a token of kind `t`, and otherwise changes nothing. */
  function MatchOf(ts: seq<Token>, p: Progress, t: TokenType): (r: Progress)
    requires Sound(ts, p)
    ensures Sound(ts, r) && r.panicMode == p.panicMode && r.result == p.result
    ensures SameKind(p.current.kind, t) ==> r == AdvanceOf(ts, p)
    ensures !SameKind(p.current.kind, t) ==> r == p
  {
    if SameKind(p.current.kind, t) then AdvanceOf(ts, p) else p
  }

  /**
   * `synchronize`: leaves panic mode, then skips one token unless the last one was
   * `;` or the current one starts a declaration. It never skips more than one.
   */
  function SyncOf(ts: seq<Token>, p: Progress): (r: Progress)
    requires Sound(ts, p)
    ensures Sound(ts, r) && !r.panicMode && r.result == p.result
    ensures r.cursor == p.cursor || r == AdvanceOf(ts, p.(panicMode := false))
    ensures p.previous.kind.SemiColon? || StartsDeclaration(p.current.kind) ==> r == p.(panicMode := false)
    ensures !(p.previous.kind.SemiColon? || StartsDeclaration(p.current.kind)) ==>
      r == AdvanceOf(ts, p.(panicMode := false))
  {
    var calm := p.(panicMode := false);
    if p.previous.kind.SemiColon? || StartsDeclaration(p.current.kind) then calm else AdvanceOf(ts, calm)
  }

  /** The end of `declaration`: resynchronises when panic mode is on, and otherwise changes nothing. */
  function RecoverOf(ts: seq<Token>, p: Progress): (r: Progress)
    requires Sound(ts, p)
    ensures Sound(ts, r) && !r.panicMode && r.result == p.result
    ensures p.panicMode ==> r == SyncOf(ts, p)
    ensures !p.panicMode ==> r == p
  {
    if p.panicMode then SyncOf(ts, p) else p
  }
}
