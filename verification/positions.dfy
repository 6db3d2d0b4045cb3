/** The parser reads a token's kind and text but never its position, except
    to print a column in a syntax error. Two cursors whose tokens agree on
    kind and text therefore parse alike: both succeed or both fail, and a
    success builds the same tree. This carries the round trip of printed
    trees over to the tokens the lexer produces, whatever their positions. */
module Positions {
  import opened Wrappers
  import opened Tokens
  import opened Cursor
  import Nodes
  import opened Exceptions
  import opened Shapes
  import opened Parser
  import opened Printer
  import RoundTrip
  import Lexer

  /** A token with its position forgotten. */
  function Strip(t: Token): Token
  {
    Token(t.kind, t.value, 0)
  }

  function StripAll(ts: seq<Token>): (r: seq<Token>)
    ensures |r| == |ts| && forall i :: 0 <= i < |ts| ==> r[i] == Strip(ts[i])
  {
    seq(|ts|, i requires 0 <= i < |ts| => Strip(ts[i]))
  }

  function StripOption(t: Option<Token>): Option<Token>
  {
    if t.Some? then Some(Strip(t.value)) else None
  }

  /** Two optional tokens agree on presence, kind and text. */
  predicate SameToken(t: Option<Token>, u: Option<Token>)
  {
    StripOption(t) == StripOption(u)
  }

  /** Two cursors at the same place over token lists that agree on every
      kind and text; the input text and the positions may differ. */
  predicate Similar(a: State, b: State)
  {
    && a.position == b.position && a.peek == b.peek
    && StripAll(a.tokens) == StripAll(b.tokens)
    && SameToken(a.token, b.token) && SameToken(a.lookahead, b.lookahead)
  }

  predicate SamePeeked(p: Peeked, q: Peeked)
  {
    SameToken(p.token, q.token) && Similar(p.lexer, q.lexer)
  }

  /** Both succeed or both fail, and successes end on similar cursors. */
  predicate SimilarState(r: Result<State, Error>, s: Result<State, Error>)
  {
    (r.Success? <==> s.Success?) && (r.Success? ==> Similar(r.value, s.value))
  }

  /** Both succeed or both fail, and successes build the same node. */
  predicate SimilarStep(r: Result<Step, Error>, s: Result<Step, Error>)
  {
    (r.Success? <==> s.Success?) && (r.Success? ==> r.value.node == s.value.node && Similar(r.value.lexer, s.value.lexer))
  }

  predicate SimilarList(r: Result<ListStep, Error>, s: Result<ListStep, Error>)
  {
    (r.Success? <==> s.Success?) && (r.Success? ==> r.value.nodes == s.value.nodes && Similar(r.value.lexer, s.value.lexer))
  }

  predicate SimilarOperator(r: Result<OperatorStep, Error>, s: Result<OperatorStep, Error>)
  {
    (r.Success? <==> s.Success?) && (r.Success? ==> r.value.operator == s.value.operator && Similar(r.value.lexer, s.value.lexer))
  }

  /** What similar cursors share: the place, the number of tokens, and the
      lookahead's presence, kind and text. */
  lemma SimilarFacts(a: State, b: State)
    requires Similar(a, b)
    ensures |a.tokens| == |b.tokens| && Remaining(a) == Remaining(b) && PeekRoom(a) == PeekRoom(b)
    ensures a.lookahead.Some? <==> b.lookahead.Some?
    ensures a.lookahead.Some? ==> a.lookahead.value.kind == b.lookahead.value.kind && a.lookahead.value.value == b.lookahead.value.value
    ensures a.token.Some? <==> b.token.Some?
    ensures a.token.Some? ==> a.token.value.value == b.token.value.value
  {
    assert |StripAll(a.tokens)| == |StripAll(b.tokens)|;
  }

  /** The token at an index of similar lists agrees on kind and text. */
  lemma SimilarAt(a: State, b: State, i: nat)
    requires Similar(a, b) && i < |a.tokens|
    ensures i < |b.tokens| && Strip(a.tokens[i]) == Strip(b.tokens[i])
  {
    assert StripAll(a.tokens)[i] == StripAll(b.tokens)[i];
  }

  // ---------------------------------------------------------------------
  // The cursor
  // ---------------------------------------------------------------------

  lemma MoveNextSimilar(a: State, b: State)
    requires Similar(a, b)
    ensures Similar(MoveNext(a), MoveNext(b))
  {
    SimilarFacts(a, b);
    if a.position < |a.tokens| {
      SimilarAt(a, b, a.position);
    }
  }

  lemma PeekSimilar(a: State, b: State)
    requires Similar(a, b)
    ensures SamePeeked(Peek(a), Peek(b))
  {
    SimilarFacts(a, b);
    if a.position + a.peek < |a.tokens| {
      SimilarAt(a, b, a.position + a.peek);
    }
  }

  lemma GlimpseSimilar(a: State, b: State)
    requires Similar(a, b)
    ensures SamePeeked(Glimpse(a), Glimpse(b))
  {
    PeekSimilar(a, b);
  }

  lemma MatchSimilar(a: State, b: State, k: TokenKind)
    requires Similar(a, b)
    ensures SimilarState(Match(a, k), Match(b, k))
  {
    SimilarFacts(a, b);
    MoveNextSimilar(a, b);
  }

  lemma OptionalNotSimilar(a: State, b: State)
    requires Similar(a, b)
    ensures OptionalNot(a).not == OptionalNot(b).not && Similar(OptionalNot(a).lexer, OptionalNot(b).lexer)
  {
    SimilarFacts(a, b);
    MoveNextSimilar(a, b);
  }

  // ---------------------------------------------------------------------
  // The peeking code
  // ---------------------------------------------------------------------

  lemma {:induction false} SkipToMatchingSimilar(a: State, b: State, t: Option<Token>, u: Option<Token>, unmatched: nat)
    requires Similar(a, b) && SameToken(t, u)
    ensures SamePeeked(SkipToMatching(a, t, unmatched), SkipToMatching(b, u, unmatched))
    decreases PeekRoom(a), t.Some?
  {
    if unmatched > 0 && t.Some? {
      var v := if t.value.kind == OPEN_PARENTHESIS then unmatched + 1
               else if t.value.kind == CLOSE_PARENTHESIS then unmatched - 1
               else unmatched;
      PeekSimilar(a, b);
      SkipToMatchingSimilar(Peek(a).lexer, Peek(b).lexer, Peek(a).token, Peek(b).token, v);
    }
  }

  lemma PeekBeyondSimilar(a: State, b: State)
    requires Similar(a, b)
    ensures SamePeeked(PeekBeyondClosingParenthesis(a), PeekBeyondClosingParenthesis(b))
  {
    PeekSimilar(a, b);
    SkipToMatchingSimilar(Peek(a).lexer, Peek(b).lexer, Peek(a).token, Peek(b).token, 1);
  }

  lemma {:induction false} SkipDotsSimilar(a: State, b: State, t: Option<Token>, u: Option<Token>)
    requires Similar(a, b) && SameToken(t, u)
    ensures SamePeeked(SkipDots(a, t), SkipDots(b, u))
    decreases PeekRoom(a), t.Some?
  {
    if HasValue(t, ".") {
      PeekSimilar(a, b);
      var p1 := Peek(a);
      var q1 := Peek(b);
      PeekSimilar(p1.lexer, q1.lexer);
      SkipDotsSimilar(Peek(p1.lexer).lexer, Peek(q1.lexer).lexer, Peek(p1.lexer).token, Peek(q1.lexer).token);
    }
  }

  lemma SkipNotSimilar(p: Peeked, q: Peeked)
    requires SamePeeked(p, q)
    ensures SamePeeked(SkipNot(p), SkipNot(q))
  {
    PeekSimilar(p.lexer, q.lexer);
  }

  lemma PastIdentifierSimilar(a: State, b: State)
    requires Similar(a, b)
    ensures var g := PastIdentifier(a);
            var h := PastIdentifier(b);
            SameToken(g.token, h.token) && SameToken(g.lookahead, h.lookahead) && Similar(g.lexer, h.lexer)
  {
    PeekSimilar(a, b);
    var p := Peek(a);
    var q := Peek(b);
    SkipDotsSimilar(p.lexer, q.lexer, p.token, q.token);
    SkipNotSimilar(SkipDots(p.lexer, p.token), SkipDots(q.lexer, q.token));
    var t := SkipNot(SkipDots(p.lexer, p.token));
    var u := SkipNot(SkipDots(q.lexer, q.token));
    PeekSimilar(t.lexer, u.lexer);
    SkipNotSimilar(Peek(t.lexer), Peek(u.lexer));
  }

  /** Tokens that agree on kind and text pass the same kind tests. */
  lemma SameTokenKind(t: Option<Token>, u: Option<Token>)
    requires SameToken(t, u)
    ensures t.Some? <==> u.Some?
    ensures t.Some? ==> t.value.kind == u.value.kind && t.value.value == u.value.value
  {
  }

  lemma DecideSimilar(t: Option<Token>, u: Option<Token>, t2: Option<Token>, u2: Option<Token>)
    requires SameToken(t, u) && SameToken(t2, u2)
    ensures Decide(t, t2) == Decide(u, u2)
  {
    SameTokenKind(t, u);
    SameTokenKind(t2, u2);
  }

  /** The first half of the dispatch: past a leading NOT, if any. */
  lemma FirstGlanceSimilar(a: State, b: State)
    requires Similar(a, b)
    ensures SamePeeked(if IsNextToken(a, NOT) then Glimpse(a) else Peeked(a.lookahead, a),
                       if IsNextToken(b, NOT) then Glimpse(b) else Peeked(b.lookahead, b))
  {
    SimilarFacts(a, b);
    if IsNextToken(a, NOT) {
      GlimpseSimilar(a, b);
    }
  }

  /** Similar cursors make the dispatch choose the same production and
      leave similar cursors. */
  lemma DiscriminateSimilar(a: State, b: State)
    requires Similar(a, b)
    ensures var g := Discriminate(a);
            var h := Discriminate(b);
            Decide(g.token, g.lookahead) == Decide(h.token, h.lookahead) && Similar(g.lexer, h.lexer)
  {
    var g0 := if IsNextToken(a, NOT) then Glimpse(a) else Peeked(a.lookahead, a);
    var h0 := if IsNextToken(b, NOT) then Glimpse(b) else Peeked(b.lookahead, b);
    FirstGlanceSimilar(a, b);
    SameTokenKind(g0.token, h0.token);
    if HasKind(g0.token, IDENTIFIER) {
      PastIdentifierSimilar(g0.lexer, h0.lexer);
      var g := PastIdentifier(g0.lexer);
      var h := PastIdentifier(h0.lexer);
      DecideSimilar(g.token, h.token, g.lookahead, h.lookahead);
    } else {
      DecideSimilar(g0.token, h0.token, a.lookahead, b.lookahead);
    }
  }

  // ---------------------------------------------------------------------
  // Operands and operators
  // ---------------------------------------------------------------------

  lemma IdentificationVariableSimilar(a: State, b: State)
    requires Similar(a, b) && a.lookahead.Some?
    ensures b.lookahead.Some?
    ensures IdentificationVariable(a).node == IdentificationVariable(b).node
    ensures Similar(IdentificationVariable(a).lexer, IdentificationVariable(b).lexer)
  {
    SimilarFacts(a, b);
    MoveNextSimilar(a, b);
  }

  lemma LiteralSimilar(a: State, b: State)
    requires Similar(a, b)
    ensures SimilarStep(Literal(a), Literal(b))
  {
    SimilarFacts(a, b);
    MoveNextSimilar(a, b);
  }

  lemma ArithmeticPrimarySimilar(a: State, b: State)
    requires Similar(a, b)
    ensures SimilarStep(ArithmeticPrimary(a), ArithmeticPrimary(b))
  {
    SimilarFacts(a, b);
    MoveNextSimilar(a, b);
  }

  lemma StringExpressionSimilar(a: State, b: State)
    requires Similar(a, b)
    ensures SimilarStep(StringExpression(a), StringExpression(b))
  {
    SimilarFacts(a, b);
    MoveNextSimilar(a, b);
  }

  lemma LowerThanTailSimilar(a: State, b: State)
    requires Similar(a, b)
    ensures LowerThanTail(a).operator == LowerThanTail(b).operator && Similar(LowerThanTail(a).lexer, LowerThanTail(b).lexer)
  {
    SimilarFacts(a, b);
    MoveNextSimilar(a, b);
  }

  lemma GreaterThanTailSimilar(a: State, b: State)
    requires Similar(a, b)
    ensures GreaterThanTail(a).operator == GreaterThanTail(b).operator && Similar(GreaterThanTail(a).lexer, GreaterThanTail(b).lexer)
  {
    SimilarFacts(a, b);
    MoveNextSimilar(a, b);
  }

  lemma ComparisonOperatorSimilar(a: State, b: State)
    requires Similar(a, b)
    ensures SimilarOperator(ComparisonOperator(a), ComparisonOperator(b))
  {
    SimilarFacts(a, b);
    if HasValue(a.lookahead, "=") {
      MatchSimilar(a, b, EQUALS);
    } else if HasValue(a.lookahead, "<") {
      MatchSimilar(a, b, LOWER_THAN);
      if Match(a, LOWER_THAN).Success? {
        LowerThanTailSimilar(Match(a, LOWER_THAN).value, Match(b, LOWER_THAN).value);
      }
    } else if HasValue(a.lookahead, ">") {
      MatchSimilar(a, b, GREATER_THAN);
      if Match(a, GREATER_THAN).Success? {
        GreaterThanTailSimilar(Match(a, GREATER_THAN).value, Match(b, GREATER_THAN).value);
      }
    } else if HasValue(a.lookahead, "!") {
      NegateSimilar(a, b);
    }
  }

  /** The `!` `=` branch of `comparisonOperator`. */
  lemma NegateSimilar(a: State, b: State)
    requires Similar(a, b)
    ensures var m := Match(a, NEGATE);
            var m' := Match(b, NEGATE);
            (m.Success? <==> m'.Success?) && (m.Success? ==> SimilarState(Match(m.value, EQUALS), Match(m'.value, EQUALS)))
  {
    MatchSimilar(a, b, NEGATE);
    if Match(a, NEGATE).Success? {
      MatchSimilar(Match(a, NEGATE).value, Match(b, NEGATE).value, EQUALS);
    }
  }

  // ---------------------------------------------------------------------
  // The five simple conditional expressions
  // ---------------------------------------------------------------------

  lemma BetweenSimilar(a: State, b: State)
    requires Similar(a, b) && a.lookahead.Some?
    ensures b.lookahead.Some? && SimilarStep(BetweenExpression(a), BetweenExpression(b))
  {
    IdentificationVariableSimilar(a, b);
    var n := OptionalNot(IdentificationVariable(a).lexer);
    var o := OptionalNot(IdentificationVariable(b).lexer);
    OptionalNotSimilar(IdentificationVariable(a).lexer, IdentificationVariable(b).lexer);
    MatchSimilar(n.lexer, o.lexer, BETWEEN);
    var m := Match(n.lexer, BETWEEN);
    var m' := Match(o.lexer, BETWEEN);
    if m.Success? {
      ArithmeticPrimarySimilar(m.value, m'.value);
      var e := ArithmeticPrimary(m.value);
      var e' := ArithmeticPrimary(m'.value);
      if e.Success? {
        MatchSimilar(e.value.lexer, e'.value.lexer, AND);
        var m2 := Match(e.value.lexer, AND);
        var m2' := Match(e'.value.lexer, AND);
        if m2.Success? {
          ArithmeticPrimarySimilar(m2.value, m2'.value);
        }
      }
    }
  }

  lemma ComparisonSimilar(a: State, b: State)
    requires Similar(a, b)
    ensures SimilarStep(ComparisonExpression(a), ComparisonExpression(b))
  {
    GlimpseSimilar(a, b);
    var g := Glimpse(a).lexer;
    var h := Glimpse(b).lexer;
    ArithmeticPrimarySimilar(g, h);
    var l := ArithmeticPrimary(g);
    var l' := ArithmeticPrimary(h);
    if l.Success? {
      ComparisonOperatorSimilar(l.value.lexer, l'.value.lexer);
      var op := ComparisonOperator(l.value.lexer);
      var op' := ComparisonOperator(l'.value.lexer);
      if op.Success? {
        ArithmeticPrimarySimilar(op.value.lexer, op'.value.lexer);
      }
    }
  }

  lemma {:induction false} InTailSimilar(acc: seq<Nodes.Node>, a: State, b: State)
    requires Similar(a, b)
    ensures SimilarList(InTail(acc, a), InTail(acc, b))
    decreases Remaining(a)
  {
    SimilarFacts(a, b);
    if IsNextToken(a, COMMA) {
      MoveNextSimilar(a, b);
      LiteralSimilar(MoveNext(a), MoveNext(b));
      var l := Literal(MoveNext(a));
      var l' := Literal(MoveNext(b));
      if l.Success? {
        InTailSimilar(acc + [l.value.node], l.value.lexer, l'.value.lexer);
      }
    }
  }

  lemma InParametersSimilar(a: State, b: State)
    requires Similar(a, b)
    ensures SimilarList(InParameters(a), InParameters(b))
  {
    MatchSimilar(a, b, OPEN_PARENTHESIS);
    var o := Match(a, OPEN_PARENTHESIS);
    var o' := Match(b, OPEN_PARENTHESIS);
    if o.Success? {
      LiteralSimilar(o.value, o'.value);
      var f := Literal(o.value);
      var f' := Literal(o'.value);
      if f.Success? {
        InTailSimilar([f.value.node], f.value.lexer, f'.value.lexer);
        var l := InTail([f.value.node], f.value.lexer);
        var l' := InTail([f.value.node], f'.value.lexer);
        if l.Success? {
          MatchSimilar(l.value.lexer, l'.value.lexer, CLOSE_PARENTHESIS);
        }
      }
    }
  }

  lemma InSimilar(a: State, b: State)
    requires Similar(a, b) && a.lookahead.Some?
    ensures b.lookahead.Some? && SimilarStep(InExpression(a), InExpression(b))
  {
    IdentificationVariableSimilar(a, b);
    var n := OptionalNot(IdentificationVariable(a).lexer);
    var o := OptionalNot(IdentificationVariable(b).lexer);
    OptionalNotSimilar(IdentificationVariable(a).lexer, IdentificationVariable(b).lexer);
    MatchSimilar(n.lexer, o.lexer, IN);
    var m := Match(n.lexer, IN);
    var m' := Match(o.lexer, IN);
    if m.Success? {
      InParametersSimilar(m.value, m'.value);
    }
  }

  lemma LikeSimilar(a: State, b: State)
    requires Similar(a, b) && a.lookahead.Some?
    ensures b.lookahead.Some? && SimilarStep(LikeExpression(a), LikeExpression(b))
  {
    IdentificationVariableSimilar(a, b);
    var n := OptionalNot(IdentificationVariable(a).lexer);
    var o := OptionalNot(IdentificationVariable(b).lexer);
    OptionalNotSimilar(IdentificationVariable(a).lexer, IdentificationVariable(b).lexer);
    MatchSimilar(n.lexer, o.lexer, LIKE);
    var m := Match(n.lexer, LIKE);
    var m' := Match(o.lexer, LIKE);
    if m.Success? {
      StringExpressionSimilar(m.value, m'.value);
    }
  }

  lemma NullComparisonSimilar(a: State, b: State)
    requires Similar(a, b) && a.lookahead.Some?
    ensures b.lookahead.Some? && SimilarStep(NullComparisonExpression(a), NullComparisonExpression(b))
  {
    IdentificationVariableSimilar(a, b);
    var e := IdentificationVariable(a).lexer;
    var e' := IdentificationVariable(b).lexer;
    MatchSimilar(e, e', IS);
    var m := Match(e, IS);
    var m' := Match(e', IS);
    if m.Success? {
      OptionalNotSimilar(m.value, m'.value);
      MatchSimilar(OptionalNot(m.value).lexer, OptionalNot(m'.value).lexer, NULL);
    }
  }

  lemma ParseChosenSimilar(p: Production, a: State, b: State)
    requires Similar(a, b) && (p != ComparisonP ==> a.lookahead.Some?)
    ensures p != ComparisonP ==> b.lookahead.Some?
    ensures SimilarStep(ParseChosen(p, a), ParseChosen(p, b))
  {
    SimilarFacts(a, b);
    match p
    case BetweenP => BetweenSimilar(a, b);
    case LikeP => LikeSimilar(a, b);
    case InP => InSimilar(a, b);
    case NullComparisonP => NullComparisonSimilar(a, b);
    case ComparisonP => ComparisonSimilar(a, b);
  }

  lemma SimpleConditionalSimilar(a: State, b: State)
    requires Similar(a, b)
    ensures SimilarStep(SimpleConditionalExpression(a), SimpleConditionalExpression(b))
  {
    DiscriminateSimilar(a, b);
    var g := Discriminate(a);
    var h := Discriminate(b);
    SimilarFacts(a, b);
    SimilarFacts(g.lexer, h.lexer);
    ParseChosenSimilar(Decide(g.token, g.lookahead), g.lexer, h.lexer);
  }

  // ---------------------------------------------------------------------
  // The conditional grammar
  // ---------------------------------------------------------------------

  lemma {:induction false} ConditionalExpressionSimilar(a: State, b: State)
    requires Similar(a, b)
    ensures SimilarStep(ConditionalExpression(a), ConditionalExpression(b))
    decreases Remaining(a), 6
  {
    ConditionalTermSimilar(a, b);
    var t := ConditionalTerm(a);
    var t' := ConditionalTerm(b);
    if t.Success? {
      OrTailSimilar([t.value.node], t.value.lexer, t'.value.lexer, a, b);
    }
  }

  lemma {:induction false} OrTailSimilar(acc: seq<Nodes.Node>, a: State, b: State, start: State, start': State)
    requires Similar(a, b) && |acc| >= 1 && Consumed(start, a) && Consumed(start', b)
    ensures SimilarStep(OrTail(acc, a, start), OrTail(acc, b, start'))
    decreases Remaining(a), 5
  {
    SimilarFacts(a, b);
    if IsNextToken(a, OR) {
      assert Match(a, OR).value == MoveNext(a) && Match(b, OR).value == MoveNext(b);
      MoveNextSimilar(a, b);
      ConditionalTermSimilar(MoveNext(a), MoveNext(b));
      var t := ConditionalTerm(MoveNext(a));
      var t' := ConditionalTerm(MoveNext(b));
      if t.Success? {
        assert Consumed(start, t.value.lexer) && Consumed(start', t'.value.lexer);
        OrTailSimilar(acc + [t.value.node], t.value.lexer, t'.value.lexer, start, start');
      }
    }
  }

  lemma {:induction false} ConditionalTermSimilar(a: State, b: State)
    requires Similar(a, b)
    ensures SimilarStep(ConditionalTerm(a), ConditionalTerm(b))
    decreases Remaining(a), 4
  {
    ConditionalFactorSimilar(a, b);
    var f := ConditionalFactor(a);
    var f' := ConditionalFactor(b);
    if f.Success? {
      AndTailSimilar([f.value.node], f.value.lexer, f'.value.lexer, a, b);
    }
  }

  lemma {:induction false} AndTailSimilar(acc: seq<Nodes.Node>, a: State, b: State, start: State, start': State)
    requires Similar(a, b) && |acc| >= 1 && Consumed(start, a) && Consumed(start', b)
    ensures SimilarStep(AndTail(acc, a, start), AndTail(acc, b, start'))
    decreases Remaining(a), 3
  {
    SimilarFacts(a, b);
    if IsNextToken(a, AND) {
      assert Match(a, AND).value == MoveNext(a) && Match(b, AND).value == MoveNext(b);
      MoveNextSimilar(a, b);
      ConditionalFactorSimilar(MoveNext(a), MoveNext(b));
      var f := ConditionalFactor(MoveNext(a));
      var f' := ConditionalFactor(MoveNext(b));
      if f.Success? {
        assert Consumed(start, f.value.lexer) && Consumed(start', f'.value.lexer);
        AndTailSimilar(acc + [f.value.node], f.value.lexer, f'.value.lexer, start, start');
      }
    }
  }

  lemma {:induction false} ConditionalFactorSimilar(a: State, b: State)
    requires Similar(a, b)
    ensures SimilarStep(ConditionalFactor(a), ConditionalFactor(b))
    decreases Remaining(a), 2
  {
    OptionalNotSimilar(a, b);
    ConditionalPrimarySimilar(OptionalNot(a).lexer, OptionalNot(b).lexer);
  }

  lemma {:induction false} ConditionalPrimarySimilar(a: State, b: State)
    requires Similar(a, b)
    ensures SimilarStep(ConditionalPrimary(a), ConditionalPrimary(b))
    decreases Remaining(a), 1
  {
    SimilarFacts(a, b);
    if !IsNextToken(a, OPEN_PARENTHESIS) {
      SimplePrimarySimilar(a, b);
    } else {
      PeekBeyondSimilar(a, b);
      var p := PeekBeyondClosingParenthesis(a);
      var q := PeekBeyondClosingParenthesis(b);
      SameTokenKind(p.token, q.token);
      if SimpleLookahead(p.token) {
        SimplePrimarySimilar(p.lexer, q.lexer);
      } else {
        GroupedSimilar(p.lexer, q.lexer);
      }
    }
  }

  lemma SimplePrimarySimilar(a: State, b: State)
    requires Similar(a, b)
    ensures SimilarStep(SimplePrimary(a), SimplePrimary(b))
  {
    SimpleConditionalSimilar(a, b);
  }

  lemma {:induction false} GroupedSimilar(a: State, b: State)
    requires Similar(a, b) && IsNextToken(a, OPEN_PARENTHESIS)
    ensures IsNextToken(b, OPEN_PARENTHESIS) && SimilarStep(GroupedExpression(a), GroupedExpression(b))
    decreases Remaining(a), 0
  {
    SimilarFacts(a, b);
    MoveNextSimilar(a, b);
    ConditionalExpressionSimilar(MoveNext(a), MoveNext(b));
    GroupedAfter(a, b);
  }

  /** The grouped path once the expression inside has been read alike. */
  lemma GroupedAfter(a: State, b: State)
    requires Similar(a, b) && IsNextToken(a, OPEN_PARENTHESIS)
    requires SimilarStep(ConditionalExpression(MoveNext(a)), ConditionalExpression(MoveNext(b)))
    ensures IsNextToken(b, OPEN_PARENTHESIS) && SimilarStep(GroupedExpression(a), GroupedExpression(b))
  {
    SimilarFacts(a, b);
    var e := ConditionalExpression(MoveNext(a));
    var e' := ConditionalExpression(MoveNext(b));
    if e.Success? {
      MatchSimilar(e.value.lexer, e'.value.lexer, CLOSE_PARENTHESIS);
    }
  }

  lemma FilterNodeSimilar(a: State, b: State)
    requires Similar(a, b)
    ensures SimilarStep(FilterNode(a), FilterNode(b))
  {
    ConditionalExpressionSimilar(a, b);
  }

  /** Similar cursors give the same parse: both fail, or both succeed with
      the same tree. */
  lemma FilterLanguageSimilar(a: State, b: State)
    requires Similar(a, b)
    ensures FilterLanguage(a).Success? <==> FilterLanguage(b).Success?
    ensures FilterLanguage(a).Success? ==> FilterLanguage(a) == FilterLanguage(b)
  {
    MoveNextSimilar(a, b);
    FilterNodeSimilar(MoveNext(a), MoveNext(b));
    var f := FilterNode(MoveNext(a));
    var f' := FilterNode(MoveNext(b));
    if f.Success? {
      SimilarFacts(f.value.lexer, f'.value.lexer);
    }
  }

  // ---------------------------------------------------------------------
  // Parsing text
  // ---------------------------------------------------------------------

  lemma StripAllTwice(ts: seq<Token>)
    ensures StripAll(StripAll(ts)) == StripAll(ts)
  {
  }

  /** A parse of a token list succeeds exactly when the parse of the same
      list with every position set to 0 does, with the same tree. */
  lemma PositionsIgnored(input: string, ts: seq<Token>)
    ensures FilterLanguage(Start(input, ts)).Success? <==> FilterLanguage(Start(input, StripAll(ts))).Success?
    ensures FilterLanguage(Start(input, ts)).Success? ==> FilterLanguage(Start(input, ts)) == FilterLanguage(Start(input, StripAll(ts)))
  {
    StripAllTwice(ts);
    FilterLanguageSimilar(Start(input, ts), Start(input, StripAll(ts)));
  }

  /** Two texts that lex to the same kinds and texts parse alike, however
      differently they are spaced. */
  lemma ParseIgnoresSpacing(e: string, e': string)
    requires StripAll(Lexer.Tokenize(e)) == StripAll(Lexer.Tokenize(e'))
    ensures Parse(e).Success? <==> Parse(e').Success?
    ensures Parse(e).Success? ==> Parse(e) == Parse(e')
  {
    FilterLanguageSimilar(Start(e, Lexer.Tokenize(e)), Start(e', Lexer.Tokenize(e')));
  }

  /** The round trip on text: when a query lexes to the printed tokens of a
      tree of the parser's shape, up to positions, it parses to that tree. */
  lemma ParseLexed(expression: string, n: Nodes.Node)
    requires IsExpr(n) && StripAll(Lexer.Tokenize(expression)) == PrintExpr(n)
    ensures Parse(expression) == Success(Nodes.Filter(n))
  {
    PositionsIgnored(expression, Lexer.Tokenize(expression));
    RoundTrip.ParsePrinted(expression, n);
  }
}
