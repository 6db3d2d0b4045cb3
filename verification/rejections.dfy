/** How the parser treats inputs that are not printed trees: a complete
    expression followed by a token that cannot continue it, a parenthesised
    expression that is not an OR node, a parenthesised operand, a doubled
    NOT in front of an identifier, and a BETWEEN whose AND is any other
    keyword, which is read because `match` is lenient. */
module Rejections {
  import opened Wrappers
  import opened Tokens
  import opened Cursor
  import opened Exceptions
  import opened Nodes
  import opened Shapes
  import opened Parser
  import opened Lookahead
  import opened Printer
  import opened Balance
  import opened RoundTrip

  /** The exception `syntaxError` throws for `input` when it expected
      `expected` and found `found`. */
  function SyntaxErrorAt(input: string, expected: string, found: Token): Error
  {
    Thrown(SyntaxError(SyntaxErrorMessage(expected, Some(found)), Some(ExpressionError(input))))
  }

  /** A failure in the first primary of the input, behind at most one NOT,
      is the failure of the whole parse: no production catches an error. */
  lemma PrimaryFailureEndsParse(lx: State)
    ensures var p := Parser.ConditionalPrimary(OptionalNot(lx).lexer);
            p.Failure? ==> FilterNode(lx) == Failure(p.error)
  {
    var p := Parser.ConditionalPrimary(OptionalNot(lx).lexer);
    if p.Failure? {
      assert Parser.ConditionalFactor(lx) == Failure(p.error);
      assert Parser.ConditionalTerm(lx) == Failure(p.error);
      assert Parser.ConditionalExpression(lx) == Failure(p.error);
    }
  }

  /** `filterLanguage` insists on the end of the input: a printed expression
      followed by any token that cannot continue it is rejected at that
      token, expecting the end of the string. */
  lemma TrailingTokenRejected(input: string, n: Node, rest: seq<Token>)
    requires IsExpr(n) && rest != [] && StopsExpr(rest)
    ensures FilterLanguage(Start(input, PrintExpr(n) + rest)) == Failure(SyntaxErrorAt(input, "end of string", rest[0]))
  {
    var lx := MoveNext(Start(input, PrintExpr(n) + rest));
    StartReading(input, PrintExpr(n) + rest);
    ExprRT(n, lx, rest);
    var e := Parser.ConditionalExpression(lx).value;
    ReadingAt(e.lexer, rest);
    assert FilterNode(lx) == Success(Step(Filter(n), e.lexer));
  }

  /** The setter of the grouped path admits only an OR node, so a term
      between parentheses, followed by a token that ends a factor, is
      rejected with the type error, before the `)` is even matched. */
  lemma GroupedTermRejected(input: string, n: Node, rest: seq<Token>)
    requires IsTerm(n) && StopsFactor(rest)
    ensures FilterLanguage(Start(input, [OpenToken] + (PrintExpr(n) + ([CloseToken] + rest))))
            == Failure(TypeError("setConditionalExpression", "ConditionalExpressionNode"))
  {
    var inner := PrintExpr(n) + ([CloseToken] + rest);
    var lx := MoveNext(Start(input, [OpenToken] + inner));
    StartReading(input, [OpenToken] + inner);
    ReadingAt(lx, [OpenToken] + inner);
    GroupPathTaken(n, lx, rest);
    GroupedTermFails(n, lx, rest);
    PrimaryFailureEndsParse(lx);
  }

  /** On a group the look past the matching `)` finds a token that stops a
      factor, so `conditionalPrimary` takes the grouped path. */
  lemma GroupPathTaken(n: Node, lx: State, rest: seq<Token>)
    requires IsExpr(n) && StopsFactor(rest)
    requires Reading(lx, [OpenToken] + (PrintExpr(n) + ([CloseToken] + rest)))
    ensures IsNextToken(lx, OPEN_PARENTHESIS)
    ensures Parser.ConditionalPrimary(lx) == GroupedExpression(lx)
  {
    var inner := PrintExpr(n) + ([CloseToken] + rest);
    ReadingAt(lx, [OpenToken] + inner);
    PeekBeyondAgrees(lx);
    assert From(Rest(lx), 1) == inner;
    AfterGroup(n, rest);
    assert lx.(peek := 0) == lx;
  }

  /** The grouped path reads the term and then fails in the setter. */
  lemma GroupedTermFails(n: Node, lx: State, rest: seq<Token>)
    requires IsTerm(n) && Reading(lx, [OpenToken] + (PrintExpr(n) + ([CloseToken] + rest)))
    ensures IsNextToken(lx, OPEN_PARENTHESIS)
    ensures GroupedExpression(lx) == Failure(TypeError("setConditionalExpression", "ConditionalExpressionNode"))
  {
    var inner := PrintExpr(n) + ([CloseToken] + rest);
    MoveNextReading(lx, OpenToken, inner);
    var m := MoveNext(lx);
    AtAppend([CloseToken], rest);
    ExprRT(n, m, [CloseToken] + rest);
    assert !n.ConditionalExpression? by {
      if n.ConditionalExpression? {
        assert !IsPrimary(n);
      }
    }
  }

  /** `conditionalFactor` reads only one NOT. A second one reaches the
      dispatch, whose glimpse shows the identifier after it, and whose next
      peek, the offset having been reset, shows that identifier again; so
      the comparison path is taken and fails on the NOT, expecting a
      literal. */
  lemma DoubleNotRejected(input: string, not1: Token, not2: Token, subject: Token, more: seq<Token>)
    requires not1.kind == NOT && not2.kind == NOT
    requires subject.kind == IDENTIFIER && subject.value != "."
    ensures FilterLanguage(Start(input, [not1, not2, subject] + more)) == Failure(SyntaxErrorAt(input, "Literal", not2))
  {
    var ts := [not1, not2, subject] + more;
    var lx := MoveNext(Start(input, ts));
    StartReading(input, ts);
    assert ts == [not1] + ([not2, subject] + more);
    MoveNextReading(lx, not1, [not2, subject] + more);
    var inner := MoveNext(lx);
    assert OptionalNot(lx).lexer == inner;
    SecondNotFails(inner, not2, subject, more);
    PrimaryFailureEndsParse(lx);
  }

  /** The primary after the first NOT: the comparison path, failing at once. */
  lemma SecondNotFails(lx: State, not2: Token, subject: Token, more: seq<Token>)
    requires not2.kind == NOT && subject.kind == IDENTIFIER && subject.value != "."
    requires Reading(lx, [not2, subject] + more)
    ensures Parser.ConditionalPrimary(lx) == SyntaxFailure(lx, "Literal")
    ensures lx.lookahead == Some(not2)
  {
    SecondNotDecides(lx, not2, subject, more);
    NonOperandComparison(lx);
    assert SimpleConditionalExpression(lx) == Parser.ComparisonExpression(lx);
    assert Parser.ConditionalPrimary(lx) == SimplePrimary(lx);
  }

  /** The dispatch on the second NOT picks the comparison and leaves the
      cursor where it was. */
  lemma SecondNotDecides(lx: State, not2: Token, subject: Token, more: seq<Token>)
    requires not2.kind == NOT && subject.kind == IDENTIFIER && subject.value != "."
    requires Reading(lx, [not2, subject] + more)
    ensures lx.lookahead == Some(not2)
    ensures var g := Discriminate(lx); g.lexer == lx && Decide(g.token, g.lookahead) == ComparisonP
  {
    ReadingAt(lx, [not2, subject] + more);
    DiscriminateAgrees(lx);
    NotBeforeSubject(not2, subject, more);
  }

  /** The reference dispatch on a NOT before an identifier: the deciding
      token is the identifier itself, which selects the comparison. */
  lemma NotBeforeSubject(not2: Token, subject: Token, more: seq<Token>)
    requires not2.kind == NOT && subject.kind == IDENTIFIER && subject.value != "."
    ensures DispatchOn([not2, subject] + more) == ComparisonP
  {
    var ts := [not2, subject] + more;
    assert DotsEnd(ts, 1) == 1;
    assert SkipNotAt(ts, 1) == 1;
  }

  /** A `(` whose matching `)` is followed by an operator or a simple
      keyword sends `conditionalPrimary` down the simple path with the `(`
      still the lookahead; the dispatch then picks the comparison, whose
      operand cannot be a parenthesis: a parenthesised operand is a syntax
      error expecting a literal, at the `(`. */
  lemma ParenthesisedOperandRejected(lx: State)
    requires IsNextToken(lx, OPEN_PARENTHESIS)
    requires SimpleLookahead(PeekBeyondClosingParenthesis(lx).token)
    ensures Parser.ConditionalPrimary(lx) == SyntaxFailure(lx, "Literal")
  {
    var look := PeekBeyondClosingParenthesis(lx).lexer;
    assert Parser.ConditionalPrimary(lx) == SimplePrimary(look);
    OpenOperandFails(look);
    assert SyntaxFailure<Step>(look, "Literal") == SyntaxFailure(lx, "Literal");
  }

  /** The simple path on a `(` lookahead: the dispatch decides on the `(`
      itself, which selects the comparison, and `literal` rejects it. */
  lemma OpenOperandFails(lx: State)
    requires IsNextToken(lx, OPEN_PARENTHESIS)
    ensures SimplePrimary(lx) == SyntaxFailure(lx, "Literal")
  {
    OpenDecides(lx);
    NonOperandComparison(lx);
    assert SimpleConditionalExpression(lx) == Parser.ComparisonExpression(lx);
  }

  /** The dispatch on a `(` lookahead looks no further and picks the
      comparison. */
  lemma OpenDecides(lx: State)
    requires IsNextToken(lx, OPEN_PARENTHESIS)
    ensures var g := Discriminate(lx); g.lexer == lx && Decide(g.token, g.lookahead) == ComparisonP
  {
    assert Discriminate(lx) == Glance(lx.lookahead, lx.lookahead, lx);
  }

  /** A comparison whose left operand would be a token that is neither an
      identifier nor a literal, such as a `(` or a NOT, fails in `literal`. */
  lemma NonOperandComparison(lx: State)
    requires lx.lookahead.Some? && lx.lookahead.value.kind != IDENTIFIER
    requires LiteralTypeOf(lx.lookahead.value.kind).None?
    ensures Parser.ComparisonExpression(lx) == SyntaxFailure(lx, "Literal")
  {
    var g := Glimpse(lx);
    assert ArithmeticPrimary(g.lexer) == SyntaxFailure(g.lexer, "Literal");
    assert SyntaxFailure<Step>(g.lexer, "Literal") == SyntaxFailure(lx, "Literal");
  }

  /** `match` lets any keyword through, so the AND of a BETWEEN may be any
      keyword: `x BETWEEN 1 OR 2` reads as `x BETWEEN 1 AND 2`. */
  lemma BetweenAnyKeyword(n: Node, keyword: Token, lx: State, rest: seq<Token>)
    requires n.BetweenExpression? && IsSimple(n) && !n.not && IsKeyword(keyword.kind)
    requires Reading(lx, [OperandToken(n.expr1), Tok(BETWEEN, "BETWEEN"), OperandToken(n.expr2), keyword, OperandToken(n.expr3)] + rest)
    ensures var r := Parser.BetweenExpression(lx);
            r.Success? && r.value.node == n && Reading(r.value.lexer, rest)
  {
    var t4 := [OperandToken(n.expr3)] + rest;
    var t3 := [keyword] + t4;
    var t2 := [OperandToken(n.expr2)] + t3;
    var t1 := [Tok(BETWEEN, "BETWEEN")] + t2;
    assert [OperandToken(n.expr1), Tok(BETWEEN, "BETWEEN"), OperandToken(n.expr2), keyword, OperandToken(n.expr3)] + rest
           == [OperandToken(n.expr1)] + t1;
    MoveNextReading(lx, OperandToken(n.expr1), t1);
    var e1 := Parser.IdentificationVariable(lx);
    MoveNextReading(e1.lexer, Tok(BETWEEN, "BETWEEN"), t2);
    assert OptionalNot(e1.lexer).lexer == e1.lexer;
    var m := MoveNext(e1.lexer);
    OperandRT(n.expr2, m, t3);
    var e2 := ArithmeticPrimary(m).value;
    MoveNextReading(e2.lexer, keyword, t4);
    var m2 := MoveNext(e2.lexer);
    OperandRT(n.expr3, m2, rest);
    var e3 := ArithmeticPrimary(m2).value;
    assert SetNot(NewBetweenExpression(e1.node, e2.node, e3.node), false) == n;
  }
}
