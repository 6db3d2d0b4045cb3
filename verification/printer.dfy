/** The parser's inverse on tokens: a tree of the shape the parser returns
    printed back to a token list. Keyword and punctuation tokens carry their
    own text, every position is 0, and a group is printed between
    parentheses. */
module Printer {
  import opened Wrappers
  import opened Tokens
  import opened Nodes
  import opened Shapes
  import opened Parser

  function Tok(k: TokenKind, v: string): Token
  {
    Token(k, v, 0)
  }

  const NotToken: Token := Tok(NOT, "NOT")
  const AndToken: Token := Tok(AND, "AND")
  const OrToken: Token := Tok(OR, "OR")
  const OpenToken: Token := Tok(OPEN_PARENTHESIS, "(")
  const CloseToken: Token := Tok(CLOSE_PARENTHESIS, ")")

  /** A measure on trees that every printing function and every proof
      about them descends along. */
  function Size(n: Node): (s: nat)
    ensures s >= 1
  {
    match n
    case Filter(c) => 1 + Size(c)
    case ConditionalExpression(ts) => 1 + SizeList(ts)
    case ConditionalTerm(fs) => 1 + SizeList(fs)
    case ConditionalFactor(_, p) => 1 + Size(p)
    case ConditionalPrimary(_, g) => 1 + (if g.Some? then Size(g.value) else 0)
    case _ => 1
  }

  function SizeList(ns: seq<Node>): (s: nat)
    ensures ns != [] ==> s >= Size(ns[0]) + SizeList(ns[1..])
  {
    if ns == [] then 0 else Size(ns[0]) + SizeList(ns[1..])
  }

  /** Each child a printing function descends into is smaller. */
  lemma SizeDown(n: Node)
    ensures n.ConditionalPrimary? && n.conditionalExpression.Some? ==> Size(n.conditionalExpression.value) < Size(n)
    ensures n.ConditionalFactor? ==> Size(n.conditionalPrimary) < Size(n)
    ensures n.ConditionalTerm? ==> SizeList(n.conditionalFactors) < Size(n)
    ensures n.ConditionalExpression? ==> SizeList(n.conditionalTerms) < Size(n)
  {
  }

  /** The token kind a literal of type `t` is printed with. */
  function LiteralKind(t: LiteralType): (k: TokenKind)
    ensures LiteralTypeOf(k) == Some(t)
  {
    match t
    case STRING => TokenKind.STRING
    case BOOLEAN => TRUE
    case NUMERIC => INTEGER
  }

  /** An identifier or a literal as one token holding its text. */
  function OperandToken(n: Node): (t: Token)
    requires IsOperand(n)
    ensures t.kind == IDENTIFIER <==> n.IdentificationVariable?
    ensures t.kind in {IDENTIFIER, TokenKind.STRING, INTEGER, TRUE} && t.value == n.value
  {
    if n.IdentificationVariable? then Tok(IDENTIFIER, n.value) else Tok(LiteralKind(n.literalType), n.value)
  }

  /** The optional NOT of a simple expression. */
  function NotTokens(not: bool): (r: seq<Token>)
    ensures |r| == if not then 1 else 0
  {
    if not then [NotToken] else []
  }

  /** A comparison operator as the one or two single-character tokens the
      parser reads it from. */
  function OperatorTokens(op: string): (r: seq<Token>)
    requires op in ComparisonOperators
    ensures 1 <= |r| <= 2 && r[0].kind in {EQUALS, LOWER_THAN, GREATER_THAN} && r[0].value in {"=", "<", ">"}
  {
    if op == "=" then [Tok(EQUALS, "=")]
    else if op == "<" then [Tok(LOWER_THAN, "<")]
    else if op == "<=" then [Tok(LOWER_THAN, "<"), Tok(EQUALS, "=")]
    else if op == "<>" then [Tok(LOWER_THAN, "<"), Tok(GREATER_THAN, ">")]
    else if op == ">" then [Tok(GREATER_THAN, ">")]
    else [Tok(GREATER_THAN, ">"), Tok(EQUALS, "=")]
  }

  /** The literals of an IN list after the first, each behind a comma. */
  function ListTail(ls: seq<Node>): seq<Token>
    requires forall i :: 0 <= i < |ls| ==> ls[i].Literal?
  {
    if ls == [] then [] else [Tok(COMMA, ","), OperandToken(ls[0])] + ListTail(ls[1..])
  }

  /** A simple conditional expression; it always starts with its operand. */
  function PrintSimple(n: Node): (r: seq<Token>)
    requires IsSimple(n)
    ensures |r| >= 3 && r[0].kind in {IDENTIFIER, TokenKind.STRING, INTEGER, TRUE}
  {
    if n.ComparisonExpression? then
      [OperandToken(n.leftExpr)] + OperatorTokens(n.operator) + [OperandToken(n.rightExpr)]
    else if n.BetweenExpression? then
      [OperandToken(n.expr1)] + NotTokens(n.not)
      + [Tok(BETWEEN, "BETWEEN"), OperandToken(n.expr2), AndToken, OperandToken(n.expr3)]
    else if n.LikeExpression? then
      [OperandToken(n.stringExpr)] + NotTokens(n.not) + [Tok(LIKE, "LIKE"), OperandToken(n.stringPattern)]
    else if n.InExpression? then
      [OperandToken(n.identificationVariableNode)] + NotTokens(n.not)
      + [Tok(IN, "IN"), OpenToken, OperandToken(n.litterals[0])] + ListTail(n.litterals[1..]) + [CloseToken]
    else
      [OperandToken(n.expr), Tok(IS, "IS")] + NotTokens(n.not) + [Tok(NULL, "NULL")]
  }

  /** A primary: its simple expression, or its OR node in parentheses. */
  function PrintPrimary(n: Node): (r: seq<Token>)
    requires IsPrimary(n)
    ensures |r| > 0 && r[0].kind != NOT
    ensures r[0].kind == OPEN_PARENTHESIS <==> n.simpleConditionalExpression.None?
    decreases Size(n), 1
  {
    if n.simpleConditionalExpression.Some? then PrintSimple(n.simpleConditionalExpression.value)
    else [OpenToken] + PrintExpr(n.conditionalExpression.value) + [CloseToken]
  }

  /** A factor: NOT before the primary when the flag is set. */
  function PrintFactor(n: Node): (r: seq<Token>)
    requires IsFactor(n)
    ensures |r| > 0 && (r[0].kind == NOT <==> n.ConditionalFactor?)
    decreases Size(n), 2
  {
    if n.ConditionalFactor? then [NotToken] + PrintPrimary(n.conditionalPrimary) else PrintPrimary(n)
  }

  /** The factors of an AND node after the first, each behind AND. */
  function AndRest(fs: seq<Node>): seq<Token>
    requires forall i :: 0 <= i < |fs| ==> IsFactor(fs[i])
    decreases SizeList(fs), 3
  {
    if fs == [] then [] else [AndToken] + PrintFactor(fs[0]) + AndRest(fs[1..])
  }

  /** A term: its factors joined by AND. */
  function PrintTerm(n: Node): (r: seq<Token>)
    requires IsTerm(n)
    ensures |r| > 0
    decreases Size(n), 4
  {
    if n.ConditionalTerm? then PrintFactor(n.conditionalFactors[0]) + AndRest(n.conditionalFactors[1..])
    else PrintFactor(n)
  }

  /** The terms of an OR node after the first, each behind OR. */
  function OrRest(ts: seq<Node>): seq<Token>
    requires forall i :: 0 <= i < |ts| ==> IsTerm(ts[i])
    decreases SizeList(ts), 5
  {
    if ts == [] then [] else [OrToken] + PrintTerm(ts[0]) + OrRest(ts[1..])
  }

  /** An expression: the terms of an OR node joined by OR, or one term. */
  function PrintExpr(n: Node): (r: seq<Token>)
    requires IsExpr(n)
    ensures |r| > 0
    decreases Size(n), 6
  {
    if IsOrNode(n) then PrintTerm(n.conditionalTerms[0]) + OrRest(n.conditionalTerms[1..])
    else PrintTerm(n)
  }
}
