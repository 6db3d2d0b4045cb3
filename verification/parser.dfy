/** The recursive-descent parser. Each grammar method becomes a function from
    a cursor state to a `Result`: on success the node it builds and the state
    after it, on failure the exception it throws. */
module Parser {
  import opened Wrappers
  import opened Tokens
  import opened Cursor
  import opened Nodes
  import opened Exceptions
  import opened Shapes
  import Text
  import Lexer

  /** A node together with the cursor state after it. */
  datatype Step = Step(node: Node, lexer: State)

  /** The literals of an IN list so far, with the cursor state after them. */
  datatype ListStep = ListStep(nodes: seq<Node>, lexer: State)

  /** An operator text with the cursor state after it. */
  datatype OperatorStep = OperatorStep(operator: string, lexer: State)

  /** Whether an optional NOT was consumed, with the cursor state after it. */
  datatype NotStep = NotStep(not: bool, lexer: State)

  /** The cursor only moved forward over the same token list. */
  predicate Advanced(a: State, b: State)
  {
    b.input == a.input && Remaining(b) <= Remaining(a)
  }

  /** The cursor moved forward over at least one token. */
  predicate Consumed(a: State, b: State)
  {
    Advanced(a, b) && Remaining(b) < Remaining(a)
  }

  /** `$token['type'] === k`, false for an absent token. */
  predicate HasKind(t: Option<Token>, k: TokenKind)
  {
    t.Some? && t.value.kind == k
  }

  /** `$token['value'] === v`, false for an absent token. */
  predicate HasValue(t: Option<Token>, v: string)
  {
    t.Some? && t.value.value == v
  }

  // ---------------------------------------------------------------------
  // Errors
  // ---------------------------------------------------------------------

  /** The column part of a syntax-error message: the token's position, or
      -1 when there is no token. */
  function Column(t: Option<Token>): string
  {
    if t.Some? then Text.NatToString(t.value.position) else "-1"
  }

  /** The column names the token's position exactly: it is all digits and
      reads back as that position; without a token it is -1. */
  lemma ColumnNamesPosition(t: Option<Token>)
    ensures t.Some? ==> (forall i :: 0 <= i < |Column(t)| ==> Text.IsDigit(Column(t)[i]))
                        && Text.DigitsValue(Column(t)) == t.value.position
    ensures t.None? ==> Column(t) == "-1"
  {
    if t.Some? {
      Text.NatToStringRoundTrip(t.value.position);
    }
  }

  const MessageHead: string := "line 0, col "

  /** The message `syntaxError` composes for the current lookahead. */
  function SyntaxErrorMessage(expected: string, lookahead: Option<Token>): (m: string)
    ensures |m| > |MessageHead| && m[..|MessageHead|] == MessageHead
    ensures m[|m| - 1] == '\'' <==> lookahead.Some?
  {
    MessageHead + Column(lookahead) + ": Error: "
    + (if expected != "" then "Expected " + expected + ", got " else "Unexpected ")
    + (if lookahead.None? then EndOfString else "'" + lookahead.value.value + "'")
  }

  const EndOfString: string := "end of string."

  /** The whole message when something was expected and a token was
      found, `column` being its rendered position: `Expected <e>, got `
      then the token's value in quotes. */
  lemma ExpectedFoundMessage(expected: string, found: Token, column: string)
    requires expected != "" && Column(Some(found)) == column
    ensures SyntaxErrorMessage(expected, Some(found))
            == MessageHead + column + ": Error: Expected " + expected + ", got '" + found.value + "'"
  {
  }

  /** The same at the end of the input: column -1 and `end of string.`. */
  lemma ExpectedEndMessage(expected: string)
    requires expected != ""
    ensures SyntaxErrorMessage(expected, None) == "line 0, col -1: Error: Expected " + expected + ", got " + EndOfString
  {
  }

  /** The whole message with nothing expected: `Unexpected ` and the same
      endings. */
  lemma UnexpectedMessage(lookahead: Option<Token>, column: string)
    requires Column(lookahead) == column
    ensures lookahead.Some? ==>
              SyntaxErrorMessage("", lookahead) == MessageHead + column + ": Error: Unexpected '" + lookahead.value.value + "'"
    ensures lookahead.None? ==> SyntaxErrorMessage("", lookahead) == MessageHead + column + ": Error: Unexpected " + EndOfString
  {
  }

  /** `syntaxError($expected)`: the syntax exception chained to an
      expression exception carrying the whole input. */
  function SyntaxFailure<T>(lx: State, expected: string): (r: Result<T, Error>)
    ensures r.Failure? && r.error.Thrown?
    ensures r.error.exception.message == SyntaxPrefix + SyntaxErrorMessage(expected, lx.lookahead)
    ensures r.error.exception.previous == Some(ExpressionError(lx.input))
  {
    Failure(Thrown(SyntaxError(SyntaxErrorMessage(expected, lx.lookahead), Some(ExpressionError(lx.input)))))
  }

  // ---------------------------------------------------------------------
  // match and the look-ahead helpers
  // ---------------------------------------------------------------------

  /** When `match` throws, in terms of kinds: never for an IDENTIFIER
      request, never for a keyword lookahead, otherwise on a mismatch or at
      the end of the input. */
  predicate MatchRejects(lookahead: Option<Token>, k: TokenKind)
  {
    k != IDENTIFIER && (lookahead.None? || (lookahead.value.kind != k && !IsKeyword(lookahead.value.kind)))
  }

  /** The source's test in `match`, on type codes: the lookahead's type
      differs from the requested one, the request is not IDENTIFIER, and the
      lookahead's type is at most IDENTIFIER's. */
  predicate CodesReject(lookahead: Option<Token>, k: TokenKind)
  {
    var mismatch := match lookahead case None => true case Some(t) => Code(t.kind) != Code(k);
    var lowType := match lookahead case None => true case Some(t) => Code(t.kind) <= Code(IDENTIFIER);
    mismatch && k != IDENTIFIER && lowType
  }

  /** The code test and the kind test agree: this is what the layout of the
      type codes around 100 buys. */
  lemma CodesRejectAgrees(lookahead: Option<Token>, k: TokenKind)
    ensures CodesReject(lookahead, k) <==> MatchRejects(lookahead, k)
  {
    if lookahead.Some? {
      CodeInjective(lookahead.value.kind, k);
      CodeLayout(lookahead.value.kind);
    }
  }

  /** `match`: throws when the code test rejects, else moves on. */
  function Match(lx: State, k: TokenKind): (r: Result<State, Error>)
    ensures r.Failure? <==> MatchRejects(lx.lookahead, k)
    ensures r.Success? ==> r.value == MoveNext(lx) && Advanced(lx, r.value)
    ensures r.Success? && lx.lookahead.Some? ==> Consumed(lx, r.value)
    ensures r.Failure? ==> r == SyntaxFailure(lx, KindLiteral(k))
  {
    CodesRejectAgrees(lx.lookahead, k);
    if CodesReject(lx.lookahead, k) then SyntaxFailure(lx, KindLiteral(k))
    else Success(MoveNext(lx))
  }

  /** `if isNextToken(T_NOT) { match(T_NOT); $not = true; }` */
  function OptionalNot(lx: State): (r: NotStep)
    ensures r.not <==> IsNextToken(lx, NOT)
    ensures r.not ==> r.lexer == MoveNext(lx) && Consumed(lx, r.lexer)
    ensures !r.not ==> r.lexer == lx
  {
    if IsNextToken(lx, NOT) then NotStep(true, Match(lx, NOT).value)
    else NotStep(false, lx)
  }

  /** The loop of `peekBeyondClosingParenthesis`: `token` is the last token
      peeked and `unmatched` the number of open parentheses not yet closed. */
  function SkipToMatching(lx: State, token: Option<Token>, unmatched: nat): (r: Peeked)
    ensures r.lexer == lx.(peek := r.lexer.peek)
    ensures Valid(lx) ==> Valid(r.lexer)
    decreases PeekRoom(lx), token.Some?
  {
    if unmatched > 0 && token.Some? then
      var u := if token.value.kind == OPEN_PARENTHESIS then unmatched + 1
               else if token.value.kind == CLOSE_PARENTHESIS then unmatched - 1
               else unmatched;
      var p := Peek(lx);
      SkipToMatching(p.lexer, p.token, u)
    else Peeked(token, lx)
  }

  /** `peekBeyondClosingParenthesis()`: the token after the parenthesis that
      closes the lookahead's one. Only the peek offset moves, and it is
      reset at the end. */
  function PeekBeyondClosingParenthesis(lx: State): (r: Peeked)
    ensures r.lexer == lx.(peek := 0)
  {
    var p := Peek(lx);
    var q := SkipToMatching(p.lexer, p.token, 1);
    Peeked(q.token, ResetPeek(q.lexer))
  }

  /** The test after that peek that sends a parenthesised lookahead down the
      simple-expression path. */
  predicate SimpleLookahead(t: Option<Token>)
  {
    || (t.Some? && t.value.value in {"=", "<", "<=", "<>", ">", ">=", "!="})
    || (t.Some? && t.value.kind in {NOT, BETWEEN, LIKE, IN, IS})
  }

  // ---------------------------------------------------------------------
  // simpleConditionalExpression
  // ---------------------------------------------------------------------

  /** The five productions `simpleConditionalExpression` chooses from. */
  datatype Production = BetweenP | LikeP | InP | NullComparisonP | ComparisonP

  /** The `.`-pair loop of the dispatch: while the last peeked token is a
      `.`, peek one token more and take the next. */
  function SkipDots(lx: State, token: Option<Token>): (r: Peeked)
    ensures r.lexer == lx.(peek := r.lexer.peek)
    ensures !HasValue(r.token, ".")
    decreases PeekRoom(lx), token.Some?
  {
    if HasValue(token, ".") then
      var p1 := Peek(lx);
      var p2 := Peek(p1.lexer);
      SkipDots(p2.lexer, p2.token)
    else Peeked(token, lx)
  }

  /** What the dispatch has found: the token that decides the production,
      the token after it (past an optional NOT), and the cursor state. */
  datatype Glance = Glance(token: Option<Token>, lookahead: Option<Token>, lexer: State)

  /** The peeking half of `simpleConditionalExpression`. */
  function Discriminate(lx: State): (g: Glance)
    ensures g.lexer == lx || g.lexer == lx.(peek := 0)
    ensures g.token.Some? ==> lx.lookahead.Some?
  {
    var token0 := lx.lookahead;
    var g0 := if IsNextToken(lx, NOT) then Glimpse(lx) else Peeked(token0, lx);
    if HasKind(g0.token, IDENTIFIER) then PastIdentifier(g0.lexer)
    else Glance(g0.token, token0, g0.lexer)
  }

  /** The peeks after an identifier: skip `.` pairs and an optional NOT to
      reach the deciding token, then one more optional NOT to reach the
      token after it; the peek offset is reset at the end. */
  function PastIdentifier(lx: State): (g: Glance)
    ensures g.lexer == lx.(peek := 0)
  {
    var beyond := Peek(lx);
    var token := SkipNot(SkipDots(beyond.lexer, beyond.token));
    var next := SkipNot(Peek(token.lexer));
    Glance(token.token, next.token, ResetPeek(next.lexer))
  }

  /** An optional NOT: when the last peeked token is a NOT, peek once more. */
  function SkipNot(p: Peeked): (r: Peeked)
    ensures r.lexer == p.lexer.(peek := r.lexer.peek)
  {
    if HasKind(p.token, NOT) then Peek(p.lexer) else p
  }

  /** The production the dispatch picks from what it found. */
  function Decide(token: Option<Token>, lookahead: Option<Token>): Production
  {
    if HasKind(token, BETWEEN) then BetweenP
    else if HasKind(token, LIKE) then LikeP
    else if HasKind(token, IN) then InP
    else if HasKind(token, IS) && HasKind(lookahead, NULL) then NullComparisonP
    else ComparisonP
  }

  /** The node class each production builds. */
  predicate Produces(p: Production, n: Node)
  {
    match p
    case BetweenP => n.BetweenExpression?
    case LikeP => n.LikeExpression?
    case InP => n.InExpression?
    case NullComparisonP => n.NullComparisonExpression?
    case ComparisonP => n.ComparisonExpression?
  }

  /** `simpleConditionalExpression`: peek to choose, then parse. */
  function SimpleConditionalExpression(lx: State): (r: Result<Step, Error>)
    ensures r.Success? ==> Consumed(lx, r.value.lexer)
    ensures var g := Discriminate(lx); r.Success? ==> Produces(Decide(g.token, g.lookahead), r.value.node)
  {
    var g := Discriminate(lx);
    ParseChosen(Decide(g.token, g.lookahead), g.lexer)
  }

  /** The parsing half of `simpleConditionalExpression`. */
  function ParseChosen(p: Production, lx: State): (r: Result<Step, Error>)
    requires p != ComparisonP ==> lx.lookahead.Some?
    ensures r.Success? ==> Consumed(lx, r.value.lexer) && Produces(p, r.value.node)
  {
    match p
    case BetweenP => BetweenExpression(lx)
    case LikeP => LikeExpression(lx)
    case InP => InExpression(lx)
    case NullComparisonP => NullComparisonExpression(lx)
    case ComparisonP => ComparisonExpression(lx)
  }

  /** `betweenExpression`. */
  function BetweenExpression(lx: State): (r: Result<Step, Error>)
    requires lx.lookahead.Some?
    ensures r.Success? ==> Consumed(lx, r.value.lexer)
    ensures r.Success? ==> && r.value.node.BetweenExpression?
                           && r.value.node.expr1 == Nodes.IdentificationVariable(lx.lookahead.value.value)
                           && (r.value.node.not <==> IsNextToken(MoveNext(lx), NOT))
  {
    var e1 := IdentificationVariable(lx);
    var n := OptionalNot(e1.lexer);
    var m :- Match(n.lexer, BETWEEN);
    var e2 :- ArithmeticPrimary(m);
    var m2 :- Match(e2.lexer, AND);
    var e3 :- ArithmeticPrimary(m2);
    Success(Step(SetNot(NewBetweenExpression(e1.node, e2.node, e3.node), n.not), e3.lexer))
  }

  /** `comparisonExpression`; its opening `glimpse` only resets the peek
      offset. */
  function ComparisonExpression(lx: State): (r: Result<Step, Error>)
    ensures r.Success? ==> Consumed(lx, r.value.lexer)
    ensures r.Success? ==> && r.value.node.ComparisonExpression?
                           && (r.value.node.leftExpr.IdentificationVariable? || r.value.node.leftExpr.Literal?)
                           && lx.lookahead.Some? && r.value.node.leftExpr.value == lx.lookahead.value.value
                           && r.value.node.operator in ComparisonOperators
  {
    var g := Glimpse(lx);
    var left :- ArithmeticPrimary(g.lexer);
    var op :- ComparisonOperator(left.lexer);
    var right :- ArithmeticPrimary(op.lexer);
    Success(Step(Nodes.ComparisonExpression(left.node, op.operator, right.node), right.lexer))
  }

  /** `inExpression`. */
  function InExpression(lx: State): (r: Result<Step, Error>)
    requires lx.lookahead.Some?
    ensures r.Success? ==> Consumed(lx, r.value.lexer)
    ensures r.Success? ==> && r.value.node.InExpression?
                           && r.value.node.identificationVariableNode == Nodes.IdentificationVariable(lx.lookahead.value.value)
                           && (r.value.node.not <==> IsNextToken(MoveNext(lx), NOT))
                           && |r.value.node.litterals| >= 1
  {
    var v := IdentificationVariable(lx);
    var node := NewInExpression(v.node);
    var n := OptionalNot(v.lexer);
    var node := if n.not then SetNot(node, true) else node;
    var m :- Match(n.lexer, IN);
    var list :- InParameters(m);
    Success(Step(SetLiterals(node, list.nodes), list.lexer))
  }

  /** The `"(" inParameter {"," inParameter}* ")"` part of `inExpression`:
      one or more literals. */
  function InParameters(lx: State): (r: Result<ListStep, Error>)
    ensures r.Success? ==> Consumed(lx, r.value.lexer)
    ensures r.Success? ==> |r.value.nodes| >= 1 && Literal(MoveNext(lx)).Success?
                           && r.value.nodes[0] == Literal(MoveNext(lx)).value.node
  {
    var open :- Match(lx, OPEN_PARENTHESIS);
    var first :- Literal(open);
    var list :- InTail([first.node], first.lexer);
    assert list.nodes[0] == list.nodes[..1][0];
    var close :- Match(list.lexer, CLOSE_PARENTHESIS);
    Success(ListStep(list.nodes, close))
  }

  /** The `{"," inParameter}*` loop of `inExpression`. */
  function InTail(acc: seq<Node>, lx: State): (r: Result<ListStep, Error>)
    ensures r.Success? ==> Advanced(lx, r.value.lexer)
    ensures r.Success? ==> |r.value.nodes| >= |acc| && r.value.nodes[..|acc|] == acc
    ensures r.Success? ==> !IsNextToken(r.value.lexer, COMMA)
    ensures r.Success? && IsNextToken(lx, COMMA) ==> |r.value.nodes| > |acc|
    decreases Remaining(lx)
  {
    if IsNextToken(lx, COMMA) then
      var m := Match(lx, COMMA).value;
      var l :- Literal(m);
      var longer := acc + [l.node];
      var r := InTail(longer, l.lexer);
      assert r.Success? ==> r.value.nodes[..|acc|] == r.value.nodes[..|longer|][..|acc|];
      r
    else Success(ListStep(acc, lx))
  }

  /** `likeExpression`. */
  function LikeExpression(lx: State): (r: Result<Step, Error>)
    requires lx.lookahead.Some?
    ensures r.Success? ==> Consumed(lx, r.value.lexer)
    ensures r.Success? ==> && r.value.node.LikeExpression?
                           && r.value.node.stringExpr == Nodes.IdentificationVariable(lx.lookahead.value.value)
                           && (r.value.node.not <==> IsNextToken(MoveNext(lx), NOT))
  {
    var e := IdentificationVariable(lx);
    var n := OptionalNot(e.lexer);
    var m :- Match(n.lexer, LIKE);
    var p :- StringExpression(m);
    Success(Step(SetNot(NewLikeExpression(e.node, p.node), n.not), p.lexer))
  }

  /** `nullComparisonExpression`. */
  function NullComparisonExpression(lx: State): (r: Result<Step, Error>)
    requires lx.lookahead.Some?
    ensures r.Success? ==> Consumed(lx, r.value.lexer)
    ensures r.Success? ==> && r.value.node.NullComparisonExpression?
                           && r.value.node.expr == Nodes.IdentificationVariable(lx.lookahead.value.value)
                           && (r.value.node.not <==> IsNextToken(MoveNext(MoveNext(lx)), NOT))
  {
    var e := IdentificationVariable(lx);
    var node := NewNullComparisonExpression(e.node);
    var m :- Match(e.lexer, IS);
    var n := OptionalNot(m);
    var node := if n.not then SetNot(node, true) else node;
    var m2 :- Match(n.lexer, NULL);
    Success(Step(node, m2))
  }

  /** `comparisonOperator`: chosen by the lookahead's text, each character
      then matched by kind; `!` `=` is returned as `<>`. */
  function ComparisonOperator(lx: State): (r: Result<OperatorStep, Error>)
    ensures r.Success? ==> Consumed(lx, r.value.lexer) && r.value.operator in ComparisonOperators
    ensures !(HasValue(lx.lookahead, "=") || HasValue(lx.lookahead, "<") || HasValue(lx.lookahead, ">") || HasValue(lx.lookahead, "!"))
            ==> r == SyntaxFailure(lx, "=, <, <=, <>, >, >=, !=")
    ensures r.Success? && HasValue(lx.lookahead, "=") ==> r.value.operator == "="
    ensures r.Success? && HasValue(lx.lookahead, "<") ==> r.value.operator in {"<", "<=", "<>"}
    ensures r.Success? && HasValue(lx.lookahead, ">") ==> r.value.operator in {">", ">="}
    ensures r.Success? && HasValue(lx.lookahead, "!") ==> r.value.operator == "<>"
  {
    if HasValue(lx.lookahead, "=") then
      var m :- Match(lx, EQUALS);
      Success(OperatorStep("=", m))
    else if HasValue(lx.lookahead, "<") then
      var m :- Match(lx, LOWER_THAN);
      Success(LowerThanTail(m))
    else if HasValue(lx.lookahead, ">") then
      var m :- Match(lx, GREATER_THAN);
      Success(GreaterThanTail(m))
    else if HasValue(lx.lookahead, "!") then
      var m :- Match(lx, NEGATE);
      var m2 :- Match(m, EQUALS);
      Success(OperatorStep("<>", m2))
    else SyntaxFailure(lx, "=, <, <=, <>, >, >=, !=")
  }

  /** After `<`: an `=` or a `>` right behind it is part of the operator. */
  function LowerThanTail(lx: State): (r: OperatorStep)
    ensures r.operator in {"<", "<=", "<>"} && Advanced(lx, r.lexer)
    ensures r.operator == "<=" <==> IsNextToken(lx, EQUALS)
    ensures r.operator == "<>" <==> IsNextToken(lx, GREATER_THAN)
    ensures r.lexer == if r.operator == "<" then lx else MoveNext(lx)
  {
    if IsNextToken(lx, EQUALS) then OperatorStep("<=", Match(lx, EQUALS).value)
    else if IsNextToken(lx, GREATER_THAN) then OperatorStep("<>", Match(lx, GREATER_THAN).value)
    else OperatorStep("<", lx)
  }

  /** After `>`: an `=` right behind it is part of the operator. */
  function GreaterThanTail(lx: State): (r: OperatorStep)
    ensures r.operator in {">", ">="} && Advanced(lx, r.lexer)
    ensures r.operator == ">=" <==> IsNextToken(lx, EQUALS)
    ensures r.lexer == if r.operator == ">" then lx else MoveNext(lx)
  {
    if IsNextToken(lx, EQUALS) then OperatorStep(">=", Match(lx, EQUALS).value)
    else OperatorStep(">", lx)
  }

  /** `arithmeticPrimary`: an identifier, or else a literal. */
  function ArithmeticPrimary(lx: State): (r: Result<Step, Error>)
    ensures r.Success? ==> Consumed(lx, r.value.lexer)
    ensures r.Success? <==> HasKind(lx.lookahead, IDENTIFIER) || (lx.lookahead.Some? && LiteralTypeOf(lx.lookahead.value.kind).Some?)
    ensures r.Success? ==> && (r.value.node.IdentificationVariable? || r.value.node.Literal?)
                           && (r.value.node.IdentificationVariable? <==> HasKind(lx.lookahead, IDENTIFIER))
                           && r.value.lexer == MoveNext(lx) && r.value.node.value == lx.lookahead.value.value
    ensures r.Failure? ==> r == SyntaxFailure(lx, "Literal")
  {
    if HasKind(lx.lookahead, IDENTIFIER) then Success(IdentificationVariable(lx)) else Literal(lx)
  }

  /** The literal type a token kind gives in `literal`, if any. */
  function LiteralTypeOf(k: TokenKind): Option<LiteralType>
  {
    match k
    case STRING => Some(LiteralType.STRING)
    case INTEGER => Some(NUMERIC)
    case FLOAT => Some(NUMERIC)
    case TRUE => Some(BOOLEAN)
    case FALSE => Some(BOOLEAN)
    case _ => None
  }

  /** `literal`: one STRING, INTEGER, FLOAT, TRUE or FALSE token becomes a
      literal node holding the token's text; anything else is a syntax
      error expecting a literal. */
  function Literal(lx: State): (r: Result<Step, Error>)
    ensures r.Success? <==> lx.lookahead.Some? && LiteralTypeOf(lx.lookahead.value.kind).Some?
    ensures r.Success? ==> r.value.node == Nodes.Literal(LiteralTypeOf(lx.lookahead.value.kind).value, lx.lookahead.value.value)
    ensures r.Success? ==> r.value.lexer == MoveNext(lx) && Consumed(lx, r.value.lexer)
    ensures r.Failure? ==> r == SyntaxFailure(lx, "Literal")
  {
    if HasKind(lx.lookahead, TokenKind.STRING) then
      var m := Match(lx, TokenKind.STRING).value;
      assert m.token == lx.lookahead;
      Success(Step(Nodes.Literal(LiteralType.STRING, m.token.value.value), m))
    else if HasKind(lx.lookahead, INTEGER) || HasKind(lx.lookahead, FLOAT) then
      var m := Match(lx, if IsNextToken(lx, INTEGER) then INTEGER else FLOAT).value;
      assert m.token == lx.lookahead;
      Success(Step(Nodes.Literal(NUMERIC, m.token.value.value), m))
    else if HasKind(lx.lookahead, TRUE) || HasKind(lx.lookahead, FALSE) then
      var m := Match(lx, if IsNextToken(lx, TRUE) then TRUE else FALSE).value;
      assert m.token == lx.lookahead;
      Success(Step(Nodes.Literal(BOOLEAN, m.token.value.value), m))
    else SyntaxFailure(lx, "Literal")
  }

  /** `identificationVariable`: `match(T_IDENTIFIER)` never throws, so the
      lookahead, whatever its kind, becomes an identifier node. */
  function IdentificationVariable(lx: State): (r: Step)
    requires lx.lookahead.Some?
    ensures r.node == Nodes.IdentificationVariable(lx.lookahead.value.value)
    ensures r.lexer == MoveNext(lx) && Consumed(lx, r.lexer)
  {
    var m := Match(lx, IDENTIFIER).value;
    Step(Nodes.IdentificationVariable(m.token.value.value), m)
  }

  /** `stringExpression`: an identifier or a string literal. */
  function StringExpression(lx: State): (r: Result<Step, Error>)
    ensures r.Success? <==> HasKind(lx.lookahead, IDENTIFIER) || HasKind(lx.lookahead, TokenKind.STRING)
    ensures r.Success? ==> Consumed(lx, r.value.lexer) && IsPattern(r.value.node)
    ensures r.Success? ==> r.value.node.value == lx.lookahead.value.value
    ensures r.Failure? ==> r == SyntaxFailure(lx, "StateFieldPathExpression | string")
  {
    if HasKind(lx.lookahead, IDENTIFIER) then Success(IdentificationVariable(lx))
    else if HasKind(lx.lookahead, TokenKind.STRING) then
      var m := Match(lx, TokenKind.STRING).value;
      Success(Step(Nodes.Literal(LiteralType.STRING, m.token.value.value), m))
    else SyntaxFailure(lx, "StateFieldPathExpression | string")
  }

  // ---------------------------------------------------------------------
  // The conditional grammar
  // ---------------------------------------------------------------------

  /** `conditionalExpression`: terms separated by OR; an OR node only when
      there are at least two. */
  function ConditionalExpression(lx: State): (r: Result<Step, Error>)
    ensures r.Success? ==> Consumed(lx, r.value.lexer) && !IsNextToken(r.value.lexer, OR)
    decreases Remaining(lx), 6
  {
    var t :- ConditionalTerm(lx);
    OrTail([t.node], t.lexer, lx)
  }

  /** The `{"OR" conditionalTerm}*` loop; `start` is where the expression began. */
  function OrTail(acc: seq<Node>, lx: State, ghost start: State): (r: Result<Step, Error>)
    requires |acc| >= 1 && Consumed(start, lx)
    ensures r.Success? ==> Consumed(start, r.value.lexer)
    ensures r.Success? ==> !IsNextToken(r.value.lexer, OR)
    decreases Remaining(lx), 5
  {
    if IsNextToken(lx, OR) then
      var m := Match(lx, OR).value;
      var t :- ConditionalTerm(m);
      OrTail(acc + [t.node], t.lexer, start)
    else if |acc| == 1 then Success(Step(acc[0], lx))
    else Success(Step(Nodes.ConditionalExpression(acc), lx))
  }

  /** `conditionalTerm`: factors separated by AND; an AND node only when
      there are at least two. */
  function ConditionalTerm(lx: State): (r: Result<Step, Error>)
    ensures r.Success? ==> Consumed(lx, r.value.lexer) && !IsNextToken(r.value.lexer, AND)
    decreases Remaining(lx), 4
  {
    var f :- ConditionalFactor(lx);
    AndTail([f.node], f.lexer, lx)
  }

  /** The `{"AND" conditionalFactor}*` loop. */
  function AndTail(acc: seq<Node>, lx: State, ghost start: State): (r: Result<Step, Error>)
    requires |acc| >= 1 && Consumed(start, lx)
    ensures r.Success? ==> Consumed(start, r.value.lexer)
    ensures r.Success? ==> !IsNextToken(r.value.lexer, AND)
    decreases Remaining(lx), 3
  {
    if IsNextToken(lx, AND) then
      var m := Match(lx, AND).value;
      var f :- ConditionalFactor(m);
      AndTail(acc + [f.node], f.lexer, start)
    else if |acc| == 1 then Success(Step(acc[0], lx))
    else Success(Step(Nodes.ConditionalTerm(acc), lx))
  }

  /** `conditionalFactor`: a NOT node exactly when a NOT was consumed. */
  function ConditionalFactor(lx: State): (r: Result<Step, Error>)
    ensures r.Success? ==> Consumed(lx, r.value.lexer)
    ensures !IsNextToken(lx, NOT) ==> r == ConditionalPrimary(lx)
    ensures IsNextToken(lx, NOT) ==>
              var p := ConditionalPrimary(MoveNext(lx));
              && (r.Success? <==> p.Success?)
              && (r.Success? ==> r.value == Step(Nodes.ConditionalFactor(true, p.value.node), p.value.lexer))
    decreases Remaining(lx), 2
  {
    var n := OptionalNot(lx);
    var p :- ConditionalPrimary(n.lexer);
    if !n.not then Success(p)
    else Success(Step(SetNot(NewConditionalFactor(p.node), true), p.lexer))
  }

  /** `conditionalPrimary`: a simple expression, unless the lookahead is `(`
      and the token after the matching `)` does not look like the middle of
      a simple expression; then a parenthesised expression, which must be
      an OR node to pass `setConditionalExpression`. */
  function ConditionalPrimary(lx: State): (r: Result<Step, Error>)
    ensures r.Success? ==> Consumed(lx, r.value.lexer) && r.value.node.ConditionalPrimary?
    ensures r.Success? ==> (r.value.node.simpleConditionalExpression.Some? <==> r.value.node.conditionalExpression.None?)
    ensures r.Success? && r.value.node.conditionalExpression.Some? ==>
              IsNextToken(lx, OPEN_PARENTHESIS) && r.value.node.conditionalExpression.value.ConditionalExpression?
    decreases Remaining(lx), 1
  {
    if !IsNextToken(lx, OPEN_PARENTHESIS) then SimplePrimary(lx)
    else
      var beyond := PeekBeyondClosingParenthesis(lx);
      if SimpleLookahead(beyond.token) then SimplePrimary(beyond.lexer)
      else GroupedExpression(beyond.lexer)
  }

  /** A primary holding the simple conditional expression read from `lx`. */
  function SimplePrimary(lx: State): (r: Result<Step, Error>)
    ensures r.Success? ==> Consumed(lx, r.value.lexer) && r.value.node.ConditionalPrimary?
    ensures var s := SimpleConditionalExpression(lx);
            && (r.Success? <==> s.Success?)
            && (r.Success? ==> r.value.node == Nodes.ConditionalPrimary(Some(s.value.node), None) && r.value.lexer == s.value.lexer)
  {
    var s :- SimpleConditionalExpression(lx);
    Success(Step(SetSimpleConditionalExpression(NewConditionalPrimary(), s.node), s.lexer))
  }

  /** The `"(" conditionalExpression ")"` path of `conditionalPrimary`. The
      closing parenthesis is matched only after the expression has been
      stored, so a group that is not an OR node fails with the type error
      first. */
  function GroupedExpression(lx: State): (r: Result<Step, Error>)
    requires IsNextToken(lx, OPEN_PARENTHESIS)
    ensures r.Success? ==> Consumed(lx, r.value.lexer) && r.value.node.ConditionalPrimary?
    ensures r.Success? ==> && r.value.node.simpleConditionalExpression.None?
                           && r.value.node.conditionalExpression.Some?
                           && r.value.node.conditionalExpression.value.ConditionalExpression?
    ensures var e := ConditionalExpression(MoveNext(lx));
            e.Success? && !e.value.node.ConditionalExpression? ==>
              r == Failure(TypeError("setConditionalExpression", "ConditionalExpressionNode"))
    decreases Remaining(lx), 0
  {
    var m := Match(lx, OPEN_PARENTHESIS).value;
    var e :- ConditionalExpression(m);
    var grouped :- SetConditionalExpression(NewConditionalPrimary(), e.node);
    var close :- Match(e.lexer, CLOSE_PARENTHESIS);
    Success(Step(grouped, close))
  }

  /** `filterNode`: the root wraps the expression. */
  function FilterNode(lx: State): (r: Result<Step, Error>)
    ensures r.Success? ==> Consumed(lx, r.value.lexer) && r.value.node.Filter?
  {
    var e :- ConditionalExpression(lx);
    Success(Step(Filter(e.node), e.lexer))
  }

  /** `filterLanguage`: load the first token, parse, and insist that no
      token is left. */
  function FilterLanguage(lx: State): (r: Result<Node, Error>)
    ensures r.Success? ==> r.value.Filter?
    ensures var f := FilterNode(MoveNext(lx));
            r.Success? <==> f.Success? && f.value.lexer.lookahead.None?
    ensures var f := FilterNode(MoveNext(lx));
            f.Success? && f.value.lexer.lookahead.Some? ==> r == SyntaxFailure(f.value.lexer, "end of string")
    ensures var f := FilterNode(MoveNext(lx)); f.Failure? ==> r == Failure(f.error)
  {
    var f :- FilterNode(MoveNext(lx));
    if f.lexer.lookahead.Some? then SyntaxFailure(f.lexer, "end of string")
    else Success(f.node)
  }

  /** `new Parser($expression)` then `getAST()`. */
  function Parse(expression: string): (r: Result<Node, Error>)
    ensures r.Success? ==> r.value.Filter?
  {
    FilterLanguage(Start(expression, Lexer.Tokenize(expression)))
  }
}
