/** Reference definitions, on plain token sequences, of the two places where
    the parser looks ahead with `peek`: the search for the token after a
    matching `)`, and the choice of a simple conditional expression. Each is
    proved to agree with the cursor-level code. */
module Lookahead {
  import opened Wrappers
  import opened Tokens
  import opened Cursor
  import opened Parser

  /** The token at index `i`, if there is one. */
  function At(ts: seq<Token>, i: nat): Option<Token>
  {
    if i < |ts| then Some(ts[i]) else None
  }

  /** The suffix from index `i`, empty past the end. */
  function From(ts: seq<Token>, i: nat): seq<Token>
  {
    if i <= |ts| then ts[i..] else []
  }

  /** The nesting depth after one more token. */
  function Adjust(unmatched: nat, t: Token): nat
  {
    if t.kind == OPEN_PARENTHESIS then unmatched + 1
    else if t.kind == CLOSE_PARENTHESIS && unmatched > 0 then unmatched - 1
    else unmatched
  }

  /** With `unmatched` parentheses open before `ts`, the first token after
      the one that closes them all, if any. */
  function AfterMatch(ts: seq<Token>, unmatched: nat): Option<Token>
  {
    if unmatched == 0 then At(ts, 0)
    else if ts == [] then None
    else AfterMatch(ts[1..], Adjust(unmatched, ts[0]))
  }

  /** The last token peeked followed by the tokens `peek` has still to
      return. */
  function Pending(token: Option<Token>, ts: seq<Token>): seq<Token>
  {
    if token.Some? then [token.value] + ts else []
  }

  /** The peeking loop computes `AfterMatch` on the tokens it has still to
      look at. */
  lemma {:induction false} SkipToMatchingAgrees(lx: State, token: Option<Token>, unmatched: nat)
    requires Valid(lx)
    ensures SkipToMatching(lx, token, unmatched).token
            == AfterMatch(Pending(token, From(Rest(lx), 1 + lx.peek)), unmatched)
    decreases PeekRoom(lx), token.Some?
  {
    var ts := Pending(token, From(Rest(lx), 1 + lx.peek));
    if unmatched > 0 && token.Some? {
      var p := Peek(lx);
      assert Rest(p.lexer) == Rest(lx);
      assert Pending(p.token, From(Rest(p.lexer), 1 + p.lexer.peek)) == ts[1..];
      SkipToMatchingAgrees(p.lexer, p.token, Adjust(unmatched, token.value));
    }
  }

  /** `peekBeyondClosingParenthesis` returns the token after the `)` that
      closes the lookahead's `(`, counting nesting over the tokens after
      the lookahead, and nothing when the parentheses never balance. */
  lemma PeekBeyondAgrees(lx: State)
    requires Valid(lx)
    ensures PeekBeyondClosingParenthesis(lx).token == AfterMatch(From(Rest(lx), 1 + lx.peek), 1)
  {
    var p := Peek(lx);
    SkipToMatchingAgrees(p.lexer, p.token, 1);
    assert Rest(p.lexer) == Rest(lx);
    assert Pending(p.token, From(Rest(p.lexer), 1 + p.lexer.peek)) == From(Rest(lx), 1 + lx.peek);
  }

  // ---------------------------------------------------------------------
  // The dispatch of simpleConditionalExpression
  // ---------------------------------------------------------------------

  /** Past `.` pairs: from index `i`, every `.` skips itself and the token
      after it. */
  function DotsEnd(ts: seq<Token>, i: nat): (j: nat)
    ensures j >= i
    ensures !HasValue(At(ts, j), ".")
    decreases if i < |ts| then |ts| - i else 0
  {
    if i < |ts| && ts[i].value == "." then DotsEnd(ts, i + 2) else i
  }

  /** Past an optional NOT at index `i`. */
  function SkipNotAt(ts: seq<Token>, i: nat): (j: nat)
    ensures j == i || j == i + 1
  {
    if HasKind(At(ts, i), NOT) then i + 1 else i
  }

  /** The production chosen for the tokens `ts` (lookahead first): after an
      identifier (behind an optional NOT), skip `.` pairs and an optional
      NOT to find the deciding token at index `j`, and skip one more
      optional NOT to find the token after it. */
  function DispatchOn(ts: seq<Token>): Production
  {
    var token := if HasKind(At(ts, 0), NOT) then At(ts, 1) else At(ts, 0);
    if HasKind(token, IDENTIFIER) then
      var j := SkipNotAt(ts, DotsEnd(ts, 1));
      Decide(At(ts, j), At(ts, SkipNotAt(ts, j + 1)))
    else Decide(token, At(ts, 0))
  }

  /** The peek offset points at logical index `n` of the remaining tokens:
      the next `peek` returns the token there. Once a peek has failed the
      offset stops, but every later index is past the end as well. */
  predicate Aligned(lx: State, n: nat)
  {
    n == 1 + lx.peek || (n >= |Rest(lx)| && 1 + lx.peek >= |Rest(lx)|)
  }

  lemma PeekAligned(lx: State, n: nat)
    requires Valid(lx) && Aligned(lx, n)
    ensures Peek(lx).token == At(Rest(lx), n)
    ensures Valid(Peek(lx).lexer) && Rest(Peek(lx).lexer) == Rest(lx) && Aligned(Peek(lx).lexer, n + 1)
  {
  }

  lemma {:induction false} SkipDotsAgrees(lx: State, ts: seq<Token>, n: nat)
    requires Valid(lx) && Rest(lx) == ts && Aligned(lx, n + 1)
    ensures SkipDots(lx, At(ts, n)).token == At(ts, DotsEnd(ts, n))
    ensures var r := SkipDots(lx, At(ts, n)).lexer;
            Valid(r) && Rest(r) == ts && Aligned(r, DotsEnd(ts, n) + 1)
    decreases PeekRoom(lx), At(ts, n).Some?
  {
    if HasValue(At(ts, n), ".") {
      DotPair(lx, n);
      var p2 := Peek(Peek(lx).lexer);
      assert DotsEnd(ts, n) == DotsEnd(ts, n + 2);
      assert SkipDots(lx, At(ts, n)) == SkipDots(p2.lexer, p2.token);
      SkipDotsAgrees(p2.lexer, ts, n + 2);
    }
  }

  /** The two peeks over a `.` and the token after it stay aligned and use
      up peek room unless they have run off the end. */
  lemma DotPair(lx: State, n: nat)
    requires Valid(lx) && Aligned(lx, n + 1)
    ensures var p2 := Peek(Peek(lx).lexer);
            && p2.token == At(Rest(lx), n + 2) && Valid(p2.lexer) && Rest(p2.lexer) == Rest(lx)
            && Aligned(p2.lexer, n + 3)
            && (PeekRoom(p2.lexer) < PeekRoom(lx) || (PeekRoom(p2.lexer) == PeekRoom(lx) && p2.token.None?))
  {
    PeekAligned(lx, n + 1);
    var p1 := Peek(lx);
    PeekAligned(p1.lexer, n + 2);
  }

  lemma SkipNotAligned(lx: State, p: Peeked, n: nat)
    requires Valid(p.lexer) && Rest(p.lexer) == Rest(lx) && Aligned(p.lexer, n + 1)
    requires p.token == At(Rest(lx), n)
    ensures var r := SkipNot(p); var m := SkipNotAt(Rest(lx), n);
            r.token == At(Rest(lx), m) && Valid(r.lexer) && Rest(r.lexer) == Rest(lx) && Aligned(r.lexer, m + 1)
  {
    if HasKind(p.token, NOT) {
      PeekAligned(p.lexer, n + 1);
    }
  }

  lemma PastIdentifierAgrees(lx: State)
    requires Valid(lx) && lx.peek == 0
    ensures var g := PastIdentifier(lx); var ts := Rest(lx); var j := SkipNotAt(ts, DotsEnd(ts, 1));
            g.token == At(ts, j) && g.lookahead == At(ts, SkipNotAt(ts, j + 1))
  {
    var ts := Rest(lx);
    PeekAligned(lx, 1);
    var beyond := Peek(lx);
    SkipDotsAgrees(beyond.lexer, ts, 1);
    var dots := SkipDots(beyond.lexer, beyond.token);
    var i := DotsEnd(ts, 1);
    SkipNotAligned(lx, dots, i);
    var token := SkipNot(dots);
    var j := SkipNotAt(ts, i);
    PeekAligned(token.lexer, j + 1);
    var next := Peek(token.lexer);
    SkipNotAligned(lx, next, j + 1);
  }

  /** The dispatch decides on the same tokens as the reference, whenever it
      starts, as it always does in the parser, with the peek offset reset. */
  lemma DiscriminateAgrees(lx: State)
    requires Valid(lx) && lx.peek == 0
    ensures var g := Discriminate(lx); Decide(g.token, g.lookahead) == DispatchOn(Rest(lx))
  {
    var ts := Rest(lx);
    var token := if HasKind(At(ts, 0), NOT) then At(ts, 1) else At(ts, 0);
    var g0 := if IsNextToken(lx, NOT) then Glimpse(lx) else Peeked(lx.lookahead, lx);
    FirstAgrees(lx);
    if HasKind(token, IDENTIFIER) {
      assert Discriminate(lx) == PastIdentifier(g0.lexer);
      PastIdentifierAgrees(g0.lexer);
    } else {
      assert Discriminate(lx) == Glance(token, At(ts, 0), lx);
    }
  }

  /** The first token the dispatch looks at: the lookahead, or the token
      after it when the lookahead is NOT. */
  lemma FirstAgrees(lx: State)
    requires Valid(lx) && lx.peek == 0
    ensures var ts := Rest(lx);
            var g0 := if IsNextToken(lx, NOT) then Glimpse(lx) else Peeked(lx.lookahead, lx);
            && At(ts, 0) == lx.lookahead
            && g0.token == (if HasKind(At(ts, 0), NOT) then At(ts, 1) else At(ts, 0))
            && g0.lexer == lx
  {
    PeekAligned(lx, 1);
  }
}
