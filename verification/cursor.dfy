/** The token cursor the lexer inherits from its base class: the scanned
    tokens, the index of the next token to load, a separate peek offset, the
    current token and the lookahead. Every operation returns the new state. */
module Cursor {
  import opened Wrappers
  import opened Tokens

  datatype State = State(
    input: string,
    tokens: seq<Token>,
    position: nat,
    peek: nat,
    token: Option<Token>,
    lookahead: Option<Token>)

  /** `setInput` followed by `reset`: nothing read yet. */
  function Start(input: string, tokens: seq<Token>): (lx: State)
    ensures Sane(lx) && Remaining(lx) == |tokens|
  {
    State(input, tokens, 0, 0, None, None)
  }

  /** The indices stay within the token list. */
  predicate Sane(lx: State)
  {
    lx.position + lx.peek <= |lx.tokens|
  }

  /** The state after at least one `moveNext`: the lookahead is the token
      just before `position`, and an absent lookahead means the end. */
  predicate Valid(lx: State)
  {
    && Sane(lx)
    && (lx.lookahead.Some? ==> 0 < lx.position && lx.tokens[lx.position - 1] == lx.lookahead.value)
    && (lx.lookahead.None? ==> lx.position == |lx.tokens|)
  }

  /** The tokens not yet consumed: the lookahead and everything after it. */
  function Rest(lx: State): seq<Token>
  {
    if lx.lookahead.Some? && lx.position <= |lx.tokens| then [lx.lookahead.value] + lx.tokens[lx.position..]
    else []
  }

  /** The number of tokens not yet consumed. */
  function Remaining(lx: State): nat
  {
    (if lx.position <= |lx.tokens| then |lx.tokens| - lx.position else 0) + (if lx.lookahead.Some? then 1 else 0)
  }

  /** How many more tokens `peek` can still return. */
  function PeekRoom(lx: State): nat
  {
    if lx.position + lx.peek <= |lx.tokens| then |lx.tokens| - lx.position - lx.peek else 0
  }

  /** `moveNext`: the lookahead becomes the current token, the next token
      (if any) becomes the lookahead, and the peek offset is reset. */
  function MoveNext(lx: State): (r: State)
    ensures r.input == lx.input && r.tokens == lx.tokens
    ensures r.token == lx.lookahead && r.peek == 0
    ensures lx.position <= |lx.tokens| ==> Valid(r)
    ensures Remaining(r) <= Remaining(lx)
    ensures lx.lookahead.Some? ==> Remaining(r) < Remaining(lx)
  {
    if lx.position < |lx.tokens| then
      lx.(peek := 0, token := lx.lookahead, lookahead := Some(lx.tokens[lx.position]), position := lx.position + 1)
    else
      lx.(peek := 0, token := lx.lookahead, lookahead := None)
  }

  /** A peeked token together with the state after peeking. */
  datatype Peeked = Peeked(token: Option<Token>, lexer: State)

  /** `peek`: the token `peek` places past the lookahead, advancing the peek
      offset only when there is one. The main cursor never moves. */
  function Peek(lx: State): (r: Peeked)
    ensures r.lexer == lx.(peek := r.lexer.peek)
    ensures r.token.Some? ==> r.lexer.peek == lx.peek + 1 && PeekRoom(r.lexer) < PeekRoom(lx)
    ensures r.token.None? ==> r.lexer == lx
    ensures Sane(lx) ==> Sane(r.lexer)
    ensures Valid(lx) ==> Valid(r.lexer)
  {
    if lx.position + lx.peek < |lx.tokens| then
      Peeked(Some(lx.tokens[lx.position + lx.peek]), lx.(peek := lx.peek + 1))
    else
      Peeked(None, lx)
  }

  /** `resetPeek`: only the peek offset changes, so the next `peek` shows
      the token right after the lookahead again. */
  function ResetPeek(lx: State): (r: State)
    ensures r.peek == 0 && r.(peek := lx.peek) == lx
    ensures Rest(r) == Rest(lx) && Remaining(r) == Remaining(lx)
    ensures Sane(lx) ==> Peek(r).token == if lx.position < |lx.tokens| then Some(lx.tokens[lx.position]) else None
  {
    lx.(peek := 0)
  }

  /** `glimpse`: a peek whose offset is reset right away, so it always
      shows the token just after the lookahead. */
  function Glimpse(lx: State): (r: Peeked)
    ensures r.lexer == lx.(peek := 0)
  {
    var p := Peek(lx);
    Peeked(p.token, ResetPeek(p.lexer))
  }

  /** Moving on drops the first of the remaining tokens. */
  lemma MoveNextRest(lx: State)
    requires Valid(lx)
    ensures Rest(MoveNext(lx)) == if Rest(lx) == [] then [] else Rest(lx)[1..]
  {
  }

  /** `isNextToken`: the lookahead is present and of kind `k`. */
  predicate IsNextToken(lx: State, k: TokenKind)
  {
    lx.lookahead.Some? && lx.lookahead.value.kind == k
  }

  /** The cursor reads `ts` from the lookahead on, with the peek offset reset. */
  predicate Reading(lx: State, ts: seq<Token>)
  {
    Valid(lx) && lx.peek == 0 && Rest(lx) == ts
  }

  /** On a cursor reading `ts`, `isNextToken` tests the first of `ts`, and
      is false once nothing is left. */
  lemma IsNextTokenReading(lx: State, ts: seq<Token>, k: TokenKind)
    requires Reading(lx, ts)
    ensures IsNextToken(lx, k) <==> ts != [] && ts[0].kind == k
  {
  }

  /** Consuming one token from a cursor reading `[t] + ts` leaves it reading
      `ts`, with `t` as the current token. */
  lemma MoveNextReading(lx: State, t: Token, ts: seq<Token>)
    requires Reading(lx, [t] + ts)
    ensures lx.lookahead == Some(t)
    ensures Reading(MoveNext(lx), ts)
    ensures MoveNext(lx).token == Some(t)
  {
    MoveNextRest(lx);
    assert Rest(lx)[0] == t;
    assert Rest(lx)[1..] == ts;
  }

  /** The first `moveNext` after `setInput` leaves the cursor reading the
      whole token list. */
  lemma StartReading(input: string, ts: seq<Token>)
    ensures Reading(MoveNext(Start(input, ts)), ts)
  {
    if ts != [] {
      assert [ts[0]] + ts[1..] == ts;
    }
  }
}
