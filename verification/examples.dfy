/** Concrete inputs worked through the model: the lexer and the parser on
    the texts `a = 1`, which parses, and `a = 1 b`, which fails at column 6;
    and the parser on hand-built token lists, including the inputs where the
    parser's leniency and its type-hinted setter show. Where only the parse
    result matters, the hand-built tokens carry position 0. */
module Examples {
  import opened Wrappers
  import opened Tokens
  import opened Cursor
  import opened Exceptions
  import opened Shapes
  import opened Parser
  import opened Lookahead
  import opened Printer
  import opened RoundTrip
  import opened Rejections
  import Positions
  import Nodes
  import Lexer
  import Text

  function Id(v: string): Nodes.Node
  {
    Nodes.IdentificationVariable(v)
  }

  function Int(v: string): Nodes.Node
  {
    Nodes.Literal(Nodes.NUMERIC, v)
  }

  /** A primary holding a simple expression. */
  function Simple(s: Nodes.Node): Nodes.Node
  {
    Nodes.ConditionalPrimary(Some(s), None)
  }

  /** The exception `syntaxError` throws for `input` with the given message
      after the prefix. */
  function Syntax(input: string, message: string): Error
  {
    Thrown(SyntaxError(message, Some(ExpressionError(input))))
  }

  // ---------------------------------------------------------------------
  // Whole parses
  // ---------------------------------------------------------------------

  /** `a BETWEEN 1 AND 2 AND b = 3`: the first AND belongs to the BETWEEN,
      the second joins two factors. */
  lemma BetweenThenAnd()
    ensures FilterLanguage(Start("a BETWEEN 1 AND 2 AND b = 3",
              [Tok(IDENTIFIER, "a"), Tok(BETWEEN, "BETWEEN"), Tok(INTEGER, "1"), Tok(AND, "AND"),
               Tok(INTEGER, "2"), Tok(AND, "AND"), Tok(IDENTIFIER, "b"), Tok(EQUALS, "="), Tok(INTEGER, "3")]))
            == Success(Nodes.Filter(Nodes.ConditionalTerm([
                 Simple(Nodes.BetweenExpression(false, Id("a"), Int("1"), Int("2"))),
                 Simple(Nodes.ComparisonExpression(Id("b"), "=", Int("3")))])))
  {
    var b := Nodes.BetweenExpression(false, Id("a"), Int("1"), Int("2"));
    var c := Nodes.ComparisonExpression(Id("b"), "=", Int("3"));
    var n := Nodes.ConditionalTerm([Simple(b), Simple(c)]);
    assert IsSimple(b) && IsSimple(c);
    assert IsFactor(Simple(b)) && IsFactor(Simple(c));
    assert IsExpr(n);
    assert PrintSimple(b) == [Tok(IDENTIFIER, "a"), Tok(BETWEEN, "BETWEEN"), Tok(INTEGER, "1"), Tok(AND, "AND"), Tok(INTEGER, "2")];
    assert PrintSimple(c) == [Tok(IDENTIFIER, "b"), Tok(EQUALS, "="), Tok(INTEGER, "3")];
    assert PrintFactor(Simple(b)) == PrintSimple(b);
    assert PrintFactor(Simple(c)) == PrintSimple(c);
    assert AndRest([Simple(c)]) == [AndToken] + PrintSimple(c) by {
      assert [Simple(c)][1..] == [];
    }
    assert PrintExpr(n) == PrintSimple(b) + ([AndToken] + PrintSimple(c));
    var ts := [Tok(IDENTIFIER, "a"), Tok(BETWEEN, "BETWEEN"), Tok(INTEGER, "1"), Tok(AND, "AND"),
               Tok(INTEGER, "2"), Tok(AND, "AND"), Tok(IDENTIFIER, "b"), Tok(EQUALS, "="), Tok(INTEGER, "3")];
    assert PrintExpr(n) == ts;
    ParsePrinted("a BETWEEN 1 AND 2 AND b = 3", n);
    assert FilterLanguage(Start("a BETWEEN 1 AND 2 AND b = 3", ts)) == Success(Nodes.Filter(n));
  }

  /** The comparison `a = 1`. */
  function AEqualsOne(): Nodes.Node
  {
    Nodes.ComparisonExpression(Id("a"), "=", Int("1"))
  }

  /** `a = 1` as a primary is a term and prints as its three tokens. */
  lemma AEqualsOnePrinted()
    ensures IsTerm(Simple(AEqualsOne())) && IsExpr(Simple(AEqualsOne()))
    ensures PrintExpr(Simple(AEqualsOne())) == [Tok(IDENTIFIER, "a"), Tok(EQUALS, "="), Tok(INTEGER, "1")]
  {
    assert IsSimple(AEqualsOne());
  }

  lemma TrailingMessage()
    ensures SyntaxErrorMessage("end of string", Some(Token(IDENTIFIER, "b", 6)))
            == "line 0, col 6: Error: Expected end of string, got 'b'"
  {
    DigitColumn(Token(IDENTIFIER, "b", 6), '6');
    ExpectedFoundMessage("end of string", Token(IDENTIFIER, "b", 6), "6");
    TrailingText();
  }

  lemma TrailingText()
    ensures MessageHead + "6" + ": Error: Expected " + "end of string" + ", got '" + "b" + "'"
            == "line 0, col 6: Error: Expected end of string, got 'b'"
  {
    assert MessageHead + "6" == "line 0, col 6";
    assert "line 0, col 6" + ": Error: Expected " == "line 0, col 6: Error: Expected ";
    assert "line 0, col 6: Error: Expected " + "end of string" == "line 0, col 6: Error: Expected end of string";
    assert "line 0, col 6: Error: Expected end of string" + ", got '" == "line 0, col 6: Error: Expected end of string, got '";
    assert "line 0, col 6: Error: Expected end of string, got '" + "b" == "line 0, col 6: Error: Expected end of string, got 'b";
  }

  /** `(a = 1)`: a single comparison between parentheses is not an OR node,
      so the setter's type hint rejects it. */
  lemma GroupedComparison()
    ensures FilterLanguage(Start("(a = 1)",
              [Tok(OPEN_PARENTHESIS, "("), Tok(IDENTIFIER, "a"), Tok(EQUALS, "="), Tok(INTEGER, "1"), Tok(CLOSE_PARENTHESIS, ")")]))
            == Failure(TypeError("setConditionalExpression", "ConditionalExpressionNode"))
  {
    var n := Simple(AEqualsOne());
    AEqualsOnePrinted();
    GroupedTermRejected("(a = 1)", n, []);
    assert [OpenToken] + (PrintExpr(n) + ([CloseToken] + []))
           == [Tok(OPEN_PARENTHESIS, "("), Tok(IDENTIFIER, "a"), Tok(EQUALS, "="), Tok(INTEGER, "1"), Tok(CLOSE_PARENTHESIS, ")")];
  }

  // ---------------------------------------------------------------------
  // From the expression text
  // ---------------------------------------------------------------------

  /** The lexer on `a = 1 b`: single letters and the digit fall back to the
      one-character lexeme, blanks separate them, and `getType` gives an
      identifier, the `=` sign, an integer and an identifier, each at its
      column. */
  lemma TokenizeTrailing()
    ensures Lexer.Tokenize("a = 1 b")
            == [Token(IDENTIFIER, "a", 0), Token(EQUALS, "=", 2), Token(INTEGER, "1", 4), Token(IDENTIFIER, "b", 6)]
  {
    ScanTrailing();
    TypesTrailing();
  }

  lemma ScanTrailing()
    ensures Lexer.Scan("a = 1 b") == [Lexer.Lexeme("a", 0), Lexer.Lexeme("=", 2), Lexer.Lexeme("1", 4), Lexer.Lexeme("b", 6)]
  {
    var s := "a = 1 b";
    LexemesTrailing();
    assert s[0..1] == "a" && s[2..3] == "=" && s[4..5] == "1" && s[6..7] == "b";
    assert Lexer.ScanFrom(s, 6) == [Lexer.Lexeme("b", 6)];
    assert Lexer.ScanFrom(s, 4) == [Lexer.Lexeme("1", 4), Lexer.Lexeme("b", 6)];
    assert Lexer.ScanFrom(s, 2) == [Lexer.Lexeme("=", 2), Lexer.Lexeme("1", 4), Lexer.Lexeme("b", 6)];
  }

  /** Every lexeme of `a = 1 b` is one character, and each blank is a run
      of its own. */
  lemma LexemesTrailing()
    ensures var s := "a = 1 b";
            && Lexer.LexemeLength(s, 0) == 1 && Lexer.LexemeLength(s, 2) == 1
            && Lexer.LexemeLength(s, 4) == 1 && Lexer.LexemeLength(s, 6) == 1
            && Lexer.SpaceEnd(s, 1) == 2 && Lexer.SpaceEnd(s, 3) == 4 && Lexer.SpaceEnd(s, 5) == 6
  {
    var s := "a = 1 b";
    assert Lexer.LexemeLength(s, 0) == 1;
    assert Lexer.LexemeLength(s, 2) == 1;
    assert Lexer.LexemeLength(s, 4) == 1;
    assert Lexer.LexemeLength(s, 6) == 1;
  }

  lemma TypesTrailing()
    ensures Lexer.GetType("a") == Lexer.Typed(IDENTIFIER, "a")
    ensures Lexer.GetType("=") == Lexer.Typed(EQUALS, "=")
    ensures Lexer.GetType("1") == Lexer.Typed(INTEGER, "1")
    ensures Lexer.GetType("b") == Lexer.Typed(IDENTIFIER, "b")
  {
    assert Lexer.GetType("a") == Lexer.Typed(IDENTIFIER, "a");
    assert Lexer.GetType("=") == Lexer.Typed(EQUALS, "=");
    assert Lexer.GetType("1") == Lexer.Typed(INTEGER, "1");
  }

  /** The parser on those tokens: `a = 1` is complete, and `b` is left
      where the end of the string was expected. */
  lemma TrailingTokensRejected(input: string)
    ensures FilterLanguage(Start(input,
              [Token(IDENTIFIER, "a", 0), Token(EQUALS, "=", 2), Token(INTEGER, "1", 4), Token(IDENTIFIER, "b", 6)]))
            == Failure(SyntaxErrorAt(input, "end of string", Token(IDENTIFIER, "b", 6)))
  {
    var b := Token(IDENTIFIER, "b", 6);
    var ts := [Token(IDENTIFIER, "a", 0), Token(EQUALS, "=", 2), Token(INTEGER, "1", 4), b];
    var lx := MoveNext(Start(input, ts));
    var l3 := ComparisonBeforeB(input);
    var p := Simple(AEqualsOne());
    Cursor.IsNextTokenReading(l3, [b], AND);
    Cursor.IsNextTokenReading(l3, [b], OR);
    assert Parser.ConditionalPrimary(lx) == Success(Step(p, l3));
    assert Parser.ConditionalFactor(lx) == Success(Step(p, l3));
    assert Parser.ConditionalTerm(lx) == Success(Step(p, l3));
    assert Parser.ConditionalExpression(lx) == Success(Step(p, l3));
  }

  /** The comparison `a = 1` read from the tokens of `a = 1 b`, leaving `b`. */
  lemma ComparisonBeforeB(input: string) returns (l3: State)
    ensures var lx := MoveNext(Start(input,
              [Token(IDENTIFIER, "a", 0), Token(EQUALS, "=", 2), Token(INTEGER, "1", 4), Token(IDENTIFIER, "b", 6)]));
            && SimplePrimary(lx) == Success(Step(Simple(AEqualsOne()), l3))
            && !IsNextToken(lx, OPEN_PARENTHESIS) && !IsNextToken(lx, NOT)
    ensures Reading(l3, [Token(IDENTIFIER, "b", 6)])
  {
    var ts := [Token(IDENTIFIER, "a", 0), Token(EQUALS, "=", 2), Token(INTEGER, "1", 4), Token(IDENTIFIER, "b", 6)];
    var lx := MoveNext(Start(input, ts));
    StartReading(input, ts);
    TrailingDispatch(lx, ts);
    l3 := TrailingComparison(lx);
  }

  /** The dispatch on `a = 1 b` finds the `=` and takes the comparison. */
  lemma TrailingDispatch(lx: State, ts: seq<Token>)
    requires ts == [Token(IDENTIFIER, "a", 0), Token(EQUALS, "=", 2), Token(INTEGER, "1", 4), Token(IDENTIFIER, "b", 6)]
    requires Reading(lx, ts)
    ensures SimpleConditionalExpression(lx) == Parser.ComparisonExpression(lx)
    ensures lx.lookahead == Some(ts[0])
  {
    ReadingAt(lx, ts);
    DiscriminateAgrees(lx);
    TrailingDecides(ts);
    var g := Discriminate(lx);
    assert g.lexer == lx;
    assert Decide(g.token, g.lookahead) == ComparisonP;
  }

  /** The reference dispatch on `a = 1 b`: the deciding token is the `=`. */
  lemma TrailingDecides(ts: seq<Token>)
    requires ts == [Token(IDENTIFIER, "a", 0), Token(EQUALS, "=", 2), Token(INTEGER, "1", 4), Token(IDENTIFIER, "b", 6)]
    ensures DispatchOn(ts) == ComparisonP
  {
    assert DotsEnd(ts, 1) == 1;
    assert SkipNotAt(ts, 1) == 1;
  }

  /** `a`, `=` and `1` make the comparison. */
  lemma TrailingComparison(lx: State) returns (l3: State)
    requires Reading(lx, [Token(IDENTIFIER, "a", 0), Token(EQUALS, "=", 2), Token(INTEGER, "1", 4), Token(IDENTIFIER, "b", 6)])
    ensures Parser.ComparisonExpression(lx) == Success(Step(AEqualsOne(), l3))
    ensures Reading(l3, [Token(IDENTIFIER, "b", 6)])
  {
    var a, e, one, b := Token(IDENTIFIER, "a", 0), Token(EQUALS, "=", 2), Token(INTEGER, "1", 4), Token(IDENTIFIER, "b", 6);
    assert [a, e, one, b] == [a] + ([e] + ([one] + [b]));
    MoveNextReading(lx, a, [e] + ([one] + [b]));
    var l1 := MoveNext(lx);
    MoveNextReading(l1, e, [one] + [b]);
    var l2 := MoveNext(l1);
    MoveNextReading(l2, one, [b]);
    l3 := MoveNext(l2);
    assert Glimpse(lx).lexer == lx;
  }

  /** The lexer on `a = 1`: an identifier, the `=` sign and an integer,
      each at its column. */
  lemma TokenizeAEqualsOne()
    ensures Lexer.Tokenize("a = 1") == [Token(IDENTIFIER, "a", 0), Token(EQUALS, "=", 2), Token(INTEGER, "1", 4)]
  {
    ScanAEqualsOne();
    TypesTrailing();
  }

  lemma ScanAEqualsOne()
    ensures Lexer.Scan("a = 1") == [Lexer.Lexeme("a", 0), Lexer.Lexeme("=", 2), Lexer.Lexeme("1", 4)]
  {
    var s := "a = 1";
    LexemesAEqualsOne();
    assert s[0..1] == "a" && s[2..3] == "=" && s[4..5] == "1";
    assert Lexer.ScanFrom(s, 4) == [Lexer.Lexeme("1", 4)];
    assert Lexer.ScanFrom(s, 2) == [Lexer.Lexeme("=", 2), Lexer.Lexeme("1", 4)];
  }

  lemma LexemesAEqualsOne()
    ensures var s := "a = 1";
            && Lexer.LexemeLength(s, 0) == 1 && Lexer.LexemeLength(s, 2) == 1 && Lexer.LexemeLength(s, 4) == 1
            && Lexer.SpaceEnd(s, 1) == 2 && Lexer.SpaceEnd(s, 3) == 4
  {
    var s := "a = 1";
    assert Lexer.LexemeLength(s, 0) == 1;
    assert Lexer.LexemeLength(s, 2) == 1;
    assert Lexer.LexemeLength(s, 4) == 1;
  }

  /** `a = 1` from its text to the tree: the lexer's tokens carry columns
      0, 2 and 4, which the parser never reads, so the round trip of the
      printed comparison applies. */
  lemma ParseAEqualsOne()
    ensures Parse("a = 1") == Success(Nodes.Filter(Simple(AEqualsOne())))
  {
    LexedAEqualsOne();
    Positions.ParseLexed("a = 1", Simple(AEqualsOne()));
  }

  /** Up to positions, `a = 1` lexes to the printed comparison. */
  lemma LexedAEqualsOne()
    ensures IsExpr(Simple(AEqualsOne()))
    ensures Positions.StripAll(Lexer.Tokenize("a = 1")) == PrintExpr(Simple(AEqualsOne()))
  {
    TokenizeAEqualsOne();
    AEqualsOnePrinted();
    assert Positions.StripAll([Token(IDENTIFIER, "a", 0), Token(EQUALS, "=", 2), Token(INTEGER, "1", 4)])
           == [Tok(IDENTIFIER, "a"), Tok(EQUALS, "="), Tok(INTEGER, "1")];
  }

  /** `a = 1 b` from its text to the exception: the comparison is
      complete, and the identifier after it is reported at its column,
      where the end of the string was expected. */
  lemma TrailingIdentifier()
    ensures Parse("a = 1 b") == Failure(Syntax("a = 1 b", "line 0, col 6: Error: Expected end of string, got 'b'"))
  {
    TokenizeTrailing();
    TrailingTokensRejected("a = 1 b");
    TrailingMessage();
  }


  /** `NOT NOT a BETWEEN 1 AND 2`: the second NOT is read as the left
      operand of a comparison and rejected at its column. */
  lemma DoubleNot()
    ensures FilterLanguage(Start("NOT NOT a BETWEEN 1 AND 2",
              [Token(NOT, "NOT", 0), Token(NOT, "NOT", 4), Token(IDENTIFIER, "a", 8), Token(BETWEEN, "BETWEEN", 10),
               Token(INTEGER, "1", 18), Token(AND, "AND", 20), Token(INTEGER, "2", 24)]))
            == Failure(Syntax("NOT NOT a BETWEEN 1 AND 2", "line 0, col 4: Error: Expected Literal, got 'NOT'"))
  {
    var input := "NOT NOT a BETWEEN 1 AND 2";
    var more := [Token(BETWEEN, "BETWEEN", 10), Token(INTEGER, "1", 18), Token(AND, "AND", 20), Token(INTEGER, "2", 24)];
    var ts := [Token(NOT, "NOT", 0), Token(NOT, "NOT", 4), Token(IDENTIFIER, "a", 8)] + more;
    DoubleNotRejected(input, Token(NOT, "NOT", 0), Token(NOT, "NOT", 4), Token(IDENTIFIER, "a", 8), more);
    assert ts == [Token(NOT, "NOT", 0), Token(NOT, "NOT", 4), Token(IDENTIFIER, "a", 8), Token(BETWEEN, "BETWEEN", 10),
                  Token(INTEGER, "1", 18), Token(AND, "AND", 20), Token(INTEGER, "2", 24)];
    DoubleNotError(input);
  }

  lemma DoubleNotError(input: string)
    ensures SyntaxErrorAt(input, "Literal", Token(NOT, "NOT", 4))
            == Syntax(input, "line 0, col 4: Error: Expected Literal, got 'NOT'")
  {
    DoubleNotMessage();
  }

  lemma DoubleNotMessage()
    ensures SyntaxErrorMessage("Literal", Some(Token(NOT, "NOT", 4))) == "line 0, col 4: Error: Expected Literal, got 'NOT'"
  {
    DigitColumn(Token(NOT, "NOT", 4), '4');
    ExpectedFoundMessage("Literal", Token(NOT, "NOT", 4), "4");
    DoubleNotText();
  }

  lemma DoubleNotText()
    ensures MessageHead + "4" + ": Error: Expected " + "Literal" + ", got '" + "NOT" + "'"
            == "line 0, col 4: Error: Expected Literal, got 'NOT'"
  {
    assert MessageHead + "4" == "line 0, col 4";
    assert "line 0, col 4" + ": Error: Expected " == "line 0, col 4: Error: Expected ";
    assert "line 0, col 4: Error: Expected " + "Literal" == "line 0, col 4: Error: Expected Literal";
    assert "line 0, col 4: Error: Expected Literal" + ", got '" == "line 0, col 4: Error: Expected Literal, got '";
    assert "line 0, col 4: Error: Expected Literal, got '" + "NOT" == "line 0, col 4: Error: Expected Literal, got 'NOT";
  }

  /** A column below ten is one digit. */
  lemma DigitColumn(t: Token, digit: char)
    requires t.position < 10 && digit == Text.DigitChar(t.position)
    ensures Column(Some(t)) == [digit]
  {
  }

  /** `x BETWEEN 1 OR 2`: `match(T_AND)` lets the OR keyword through. */
  lemma BetweenWithOr()
    ensures var r := Parser.BetweenExpression(MoveNext(Start("x BETWEEN 1 OR 2",
              [Tok(IDENTIFIER, "x"), Tok(BETWEEN, "BETWEEN"), Tok(INTEGER, "1"), Tok(OR, "OR"), Tok(INTEGER, "2")])));
            r.Success? && r.value.node == Nodes.BetweenExpression(false, Id("x"), Int("1"), Int("2"))
            && r.value.lexer.lookahead.None?
  {
    var ts := [Tok(IDENTIFIER, "x"), Tok(BETWEEN, "BETWEEN"), Tok(INTEGER, "1"), Tok(OR, "OR"), Tok(INTEGER, "2")];
    var b := Nodes.BetweenExpression(false, Id("x"), Int("1"), Int("2"));
    var lx := MoveNext(Start("x BETWEEN 1 OR 2", ts));
    StartReading("x BETWEEN 1 OR 2", ts);
    assert IsSimple(b);
    assert ts == [OperandToken(b.expr1), Tok(BETWEEN, "BETWEEN"), OperandToken(b.expr2), Tok(OR, "OR"), OperandToken(b.expr3)] + [];
    BetweenAnyKeyword(b, Tok(OR, "OR"), lx, []);
    ReadingAt(Parser.BetweenExpression(lx).value.lexer, []);
  }
}
