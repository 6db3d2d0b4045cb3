/** The parser reads every printed tree back: for each production, a cursor
    reading the printed tokens followed by tokens that end the production
    parses exactly the tree and stops at those tokens. */
module RoundTrip {
  import opened Wrappers
  import opened Tokens
  import opened Cursor
  import opened Nodes
  import opened Shapes
  import opened Parser
  import opened Lookahead
  import opened Printer
  import opened Balance

  /** The tokens after a factor do not send a parenthesised primary down the
      simple-expression path. */
  predicate StopsFactor(rest: seq<Token>)
  {
    !SimpleLookahead(At(rest, 0))
  }

  /** ... nor continue an AND node. */
  predicate StopsTerm(rest: seq<Token>)
  {
    StopsFactor(rest) && !HasKind(At(rest, 0), AND)
  }

  /** ... nor continue an OR node. */
  predicate StopsExpr(rest: seq<Token>)
  {
    StopsTerm(rest) && !HasKind(At(rest, 0), OR)
  }

  lemma ReadingAt(lx: State, ts: seq<Token>)
    requires Reading(lx, ts)
    ensures lx.lookahead == At(ts, 0)
  {
  }

  lemma AtAppend(a: seq<Token>, b: seq<Token>)
    ensures At(a + b, 0) == if a == [] then At(b, 0) else Some(a[0])
  {
    if a == [] {
      assert a + b == b;
    }
  }

  lemma Cons<T>(s: seq<T>)
    requires |s| > 0
    ensures [s[0]] + s[1..] == s
  {
  }

  lemma Assoc<T>(a: seq<T>, b: seq<T>, c: seq<T>, d: seq<T>)
    ensures a + b + c + d == a + (b + (c + d))
  {
  }

  lemma Snoc<T>(acc: seq<T>, s: seq<T>)
    requires |s| > 0
    ensures acc + [s[0]] + s[1..] == acc + s
  {
    Cons(s);
    assert acc + [s[0]] + s[1..] == acc + ([s[0]] + s[1..]);
  }

  // ---------------------------------------------------------------------
  // Operands and operators
  // ---------------------------------------------------------------------

  lemma LiteralRT(o: Node, lx: State, rest: seq<Token>)
    requires o.Literal? && Reading(lx, [OperandToken(o)] + rest)
    ensures Parser.Literal(lx) == Success(Step(o, MoveNext(lx)))
    ensures Reading(MoveNext(lx), rest)
  {
    MoveNextReading(lx, OperandToken(o), rest);
  }

  lemma OperandRT(o: Node, lx: State, rest: seq<Token>)
    requires IsOperand(o) && Reading(lx, [OperandToken(o)] + rest)
    ensures ArithmeticPrimary(lx) == Success(Step(o, MoveNext(lx)))
    ensures Reading(MoveNext(lx), rest)
  {
    MoveNextReading(lx, OperandToken(o), rest);
    if o.Literal? {
      LiteralRT(o, lx, rest);
    }
  }

  lemma PatternRT(o: Node, lx: State, rest: seq<Token>)
    requires IsPattern(o) && Reading(lx, [OperandToken(o)] + rest)
    ensures StringExpression(lx) == Success(Step(o, MoveNext(lx)))
    ensures Reading(MoveNext(lx), rest)
  {
    MoveNextReading(lx, OperandToken(o), rest);
  }

  lemma OperatorRT(op: string, lx: State, rest: seq<Token>)
    requires op in ComparisonOperators && Reading(lx, OperatorTokens(op) + rest)
    requires !HasKind(At(rest, 0), EQUALS) && !HasKind(At(rest, 0), GREATER_THAN)
    ensures var r := ComparisonOperator(lx);
            r.Success? && r.value.operator == op && Reading(r.value.lexer, rest)
  {
    var ts := OperatorTokens(op);
    if |ts| == 1 {
      MoveNextReading(lx, ts[0], rest);
      ReadingAt(MoveNext(lx), rest);
    } else {
      assert ts + rest == [ts[0]] + ([ts[1]] + rest);
      MoveNextReading(lx, ts[0], [ts[1]] + rest);
      MoveNextReading(MoveNext(lx), ts[1], rest);
    }
  }

  /** `!` then `=` reads back as `<>`: the parser keeps no `!=`. */
  lemma NegateEqualsRT(bang: Token, eq: Token, lx: State, rest: seq<Token>)
    requires bang.kind == NEGATE && bang.value == "!" && eq.kind == EQUALS
    requires Reading(lx, [bang, eq] + rest)
    ensures var r := ComparisonOperator(lx);
            r.Success? && r.value.operator == "<>" && Reading(r.value.lexer, rest)
  {
    assert [bang, eq] + rest == [bang] + ([eq] + rest);
    MoveNextReading(lx, bang, [eq] + rest);
    MoveNextReading(MoveNext(lx), eq, rest);
  }

  // ---------------------------------------------------------------------
  // The five simple conditional expressions
  // ---------------------------------------------------------------------

  /** The production that parses `n`. */
  function ProductionOf(n: Node): Production
  {
    if n.BetweenExpression? then BetweenP
    else if n.LikeExpression? then LikeP
    else if n.InExpression? then InP
    else if n.NullComparisonExpression? then NullComparisonP
    else ComparisonP
  }

  /** After a leading identifier and no `.`, the dispatch decides on the
      token after the identifier, or after the NOT that follows it. */
  lemma DispatchAfterIdentifier(ts: seq<Token>)
    requires |ts| >= 2 && ts[0].kind == IDENTIFIER && ts[1].value != "."
    ensures var j := SkipNotAt(ts, 1); DispatchOn(ts) == Decide(At(ts, j), At(ts, SkipNotAt(ts, j + 1)))
  {
    assert DotsEnd(ts, 1) == 1;
  }

  /** The dispatch picks the production of the printed expression, whatever
      follows it. */
  lemma DispatchPrinted(n: Node, rest: seq<Token>)
    requires IsSimple(n)
    ensures DispatchOn(PrintSimple(n) + rest) == ProductionOf(n)
  {
    var p := PrintSimple(n);
    var ts := p + rest;
    assert ts[0] == p[0] && ts[1] == p[1] && ts[2] == p[2];
    if n.ComparisonExpression? {
      ComparisonDispatch(n, rest);
    } else if n.NullComparisonExpression? {
      NullComparisonDispatch(n, rest);
    } else {
      KeywordDispatch(n, rest);
    }
  }

  lemma ComparisonDispatch(n: Node, rest: seq<Token>)
    requires n.ComparisonExpression? && IsSimple(n)
    ensures DispatchOn(PrintSimple(n) + rest) == ComparisonP
  {
    ComparisonShape(n, rest);
    DispatchOperator(OperandToken(n.leftExpr), OperatorTokens(n.operator), [OperandToken(n.rightExpr)] + rest);
  }

  /** An operand followed by an operator character is read as a comparison. */
  lemma DispatchOperator(left: Token, op: seq<Token>, more: seq<Token>)
    requires left.kind in {IDENTIFIER, TokenKind.STRING, INTEGER, TRUE}
    requires op != [] && op[0].kind in {EQUALS, LOWER_THAN, GREATER_THAN} && op[0].value != "."
    ensures DispatchOn([left] + (op + more)) == ComparisonP
  {
    var ts := [left] + (op + more);
    assert ts[0] == left && ts[1] == op[0];
    if left.kind == IDENTIFIER {
      DispatchAfterIdentifier(ts);
    }
  }

  lemma NullComparisonDispatch(n: Node, rest: seq<Token>)
    requires n.NullComparisonExpression? && IsSimple(n)
    ensures DispatchOn(PrintSimple(n) + rest) == NullComparisonP
  {
    NullComparisonShape(n, rest);
    DispatchNull(OperandToken(n.expr), n.not, rest);
  }

  /** An identifier, IS, an optional NOT and NULL are read as a null
      comparison. */
  lemma DispatchNull(subject: Token, not: bool, rest: seq<Token>)
    requires subject.kind == IDENTIFIER
    ensures DispatchOn([subject] + ([Tok(IS, "IS")] + (NotTokens(not) + ([Tok(NULL, "NULL")] + rest)))) == NullComparisonP
  {
    var isTok, nullTok := Tok(IS, "IS"), Tok(NULL, "NULL");
    var ts := [subject] + ([isTok] + (NotTokens(not) + ([nullTok] + rest)));
    if not {
      assert ts == [subject, isTok, NotToken, nullTok] + rest;
      DispatchNullAt(ts, 3);
    } else {
      assert ts == [subject, isTok, nullTok] + rest;
      DispatchNullAt(ts, 2);
    }
  }

  /** IS after the identifier, and NULL at index `k`, just after IS or its
      NOT. */
  lemma DispatchNullAt(ts: seq<Token>, k: nat)
    requires k == 2 || k == 3
    requires |ts| > k && ts[0].kind == IDENTIFIER && ts[1] == Tok(IS, "IS") && ts[k] == Tok(NULL, "NULL")
    requires k == 3 ==> ts[2] == NotToken
    ensures DispatchOn(ts) == NullComparisonP
  {
    DispatchAfterIdentifier(ts);
  }

  /** BETWEEN, LIKE and IN: the keyword after the subject and its optional
      NOT decides. */
  lemma KeywordDispatch(n: Node, rest: seq<Token>)
    requires (n.BetweenExpression? || n.LikeExpression? || n.InExpression?) && IsSimple(n)
    ensures DispatchOn(PrintSimple(n) + rest) == ProductionOf(n)
  {
    if n.BetweenExpression? {
      BetweenDispatch(n, rest);
    } else if n.LikeExpression? {
      LikeDispatch(n, rest);
    } else {
      InDispatch(n, rest);
    }
  }

  lemma BetweenDispatch(n: Node, rest: seq<Token>)
    requires n.BetweenExpression? && IsSimple(n)
    ensures DispatchOn(PrintSimple(n) + rest) == BetweenP
  {
    BetweenShape(n, rest);
    DispatchKeyword(OperandToken(n.expr1), n.not, Tok(BETWEEN, "BETWEEN"),
      [OperandToken(n.expr2)] + ([AndToken] + ([OperandToken(n.expr3)] + rest)));
  }

  lemma LikeDispatch(n: Node, rest: seq<Token>)
    requires n.LikeExpression? && IsSimple(n)
    ensures DispatchOn(PrintSimple(n) + rest) == LikeP
  {
    LikeShape(n, rest);
    DispatchKeyword(OperandToken(n.stringExpr), n.not, Tok(LIKE, "LIKE"), [OperandToken(n.stringPattern)] + rest);
  }

  lemma InDispatch(n: Node, rest: seq<Token>)
    requires n.InExpression? && IsSimple(n)
    ensures DispatchOn(PrintSimple(n) + rest) == InP
  {
    InShape(n, rest);
    DispatchKeyword(OperandToken(n.identificationVariableNode), n.not, Tok(IN, "IN"),
      [OpenToken, OperandToken(n.litterals[0])] + ListTail(n.litterals[1..]) + [CloseToken] + rest);
  }

  /** An identifier, an optional NOT and a BETWEEN, LIKE or IN keyword are
      read by the keyword's production. */
  lemma DispatchKeyword(subject: Token, not: bool, keyword: Token, more: seq<Token>)
    requires subject.kind == IDENTIFIER && keyword.kind in {BETWEEN, LIKE, IN} && keyword.value != "."
    ensures DispatchOn([subject] + (NotTokens(not) + ([keyword] + more))) == Decide(Some(keyword), None)
  {
    var t1 := [keyword] + more;
    if not {
      assert [subject] + (NotTokens(not) + t1) == [subject, NotToken, keyword] + more;
      DispatchKeywordAt([subject, NotToken, keyword] + more, 2);
    } else {
      assert [subject] + (NotTokens(not) + t1) == [subject, keyword] + more;
      DispatchKeywordAt([subject, keyword] + more, 1);
    }
  }

  /** The keyword at index `j`, just after the identifier or its NOT. */
  lemma DispatchKeywordAt(ts: seq<Token>, j: nat)
    requires j == 1 || j == 2
    requires |ts| > j && ts[0].kind == IDENTIFIER && ts[j].kind in {BETWEEN, LIKE, IN} && ts[j].value != "."
    requires j == 2 ==> ts[1] == NotToken
    ensures DispatchOn(ts) == Decide(Some(ts[j]), None)
  {
    DispatchAfterIdentifier(ts);
  }

  /** The printed BETWEEN expression, one token at a time. */
  lemma BetweenShape(n: Node, rest: seq<Token>)
    requires n.BetweenExpression? && IsSimple(n)
    ensures PrintSimple(n) + rest
            == [OperandToken(n.expr1)] + (NotTokens(n.not) + ([Tok(BETWEEN, "BETWEEN")]
               + ([OperandToken(n.expr2)] + ([AndToken] + ([OperandToken(n.expr3)] + rest)))))
  {
  }

  /** An optional NOT before a token that is not NOT. */
  lemma NotRT(lx: State, not: bool, ts: seq<Token>)
    requires Reading(lx, NotTokens(not) + ts) && ts != [] && ts[0].kind != NOT
    ensures OptionalNot(lx).not == not && Reading(OptionalNot(lx).lexer, ts)
  {
    if not {
      MoveNextReading(lx, NotToken, ts);
    } else {
      assert NotTokens(not) + ts == ts;
      ReadingAt(lx, ts);
    }
  }

  lemma BetweenRT(n: Node, lx: State, rest: seq<Token>)
    requires n.BetweenExpression? && n.expr1.IdentificationVariable? && IsOperand(n.expr2) && IsOperand(n.expr3)
    requires Reading(lx, [OperandToken(n.expr1)] + (NotTokens(n.not) + ([Tok(BETWEEN, "BETWEEN")]
               + ([OperandToken(n.expr2)] + ([AndToken] + ([OperandToken(n.expr3)] + rest))))))
    ensures var r := Parser.BetweenExpression(lx);
            r.Success? && r.value.node == n && Reading(r.value.lexer, rest)
  {
    var t3 := [OperandToken(n.expr3)] + rest;
    var t2 := [OperandToken(n.expr2)] + ([AndToken] + t3);
    var t1 := [Tok(BETWEEN, "BETWEEN")] + t2;
    MoveNextReading(lx, OperandToken(n.expr1), NotTokens(n.not) + t1);
    var e1 := Parser.IdentificationVariable(lx);
    NotRT(e1.lexer, n.not, t1);
    var nt := OptionalNot(e1.lexer);
    MoveNextReading(nt.lexer, Tok(BETWEEN, "BETWEEN"), t2);
    var m := MoveNext(nt.lexer);
    OperandRT(n.expr2, m, [AndToken] + t3);
    var e2 := MoveNext(m);
    MoveNextReading(e2, AndToken, t3);
    var m2 := MoveNext(e2);
    OperandRT(n.expr3, m2, rest);
    assert Match(nt.lexer, BETWEEN) == Success(m);
    assert Match(e2, AND) == Success(m2);
    assert SetNot(NewBetweenExpression(n.expr1, n.expr2, n.expr3), nt.not) == n;
  }

  lemma LikeShape(n: Node, rest: seq<Token>)
    requires n.LikeExpression? && IsSimple(n)
    ensures PrintSimple(n) + rest
            == [OperandToken(n.stringExpr)] + (NotTokens(n.not) + ([Tok(LIKE, "LIKE")] + ([OperandToken(n.stringPattern)] + rest)))
  {
  }

  lemma LikeRT(n: Node, lx: State, rest: seq<Token>)
    requires n.LikeExpression? && n.stringExpr.IdentificationVariable? && IsPattern(n.stringPattern)
    requires Reading(lx, [OperandToken(n.stringExpr)] + (NotTokens(n.not) + ([Tok(LIKE, "LIKE")] + ([OperandToken(n.stringPattern)] + rest))))
    ensures var r := Parser.LikeExpression(lx);
            r.Success? && r.value.node == n && Reading(r.value.lexer, rest)
  {
    var t2 := [OperandToken(n.stringPattern)] + rest;
    var t1 := [Tok(LIKE, "LIKE")] + t2;
    MoveNextReading(lx, OperandToken(n.stringExpr), NotTokens(n.not) + t1);
    var e := Parser.IdentificationVariable(lx);
    NotRT(e.lexer, n.not, t1);
    var nt := OptionalNot(e.lexer);
    MoveNextReading(nt.lexer, Tok(LIKE, "LIKE"), t2);
    var m := MoveNext(nt.lexer);
    PatternRT(n.stringPattern, m, rest);
    assert Match(nt.lexer, LIKE) == Success(m);
    assert SetNot(NewLikeExpression(n.stringExpr, n.stringPattern), nt.not) == n;
  }

  lemma NullComparisonShape(n: Node, rest: seq<Token>)
    requires n.NullComparisonExpression? && IsSimple(n)
    ensures PrintSimple(n) + rest
            == [OperandToken(n.expr)] + ([Tok(IS, "IS")] + (NotTokens(n.not) + ([Tok(NULL, "NULL")] + rest)))
  {
  }

  lemma NullComparisonRT(n: Node, lx: State, rest: seq<Token>)
    requires n.NullComparisonExpression? && n.expr.IdentificationVariable?
    requires Reading(lx, [OperandToken(n.expr)] + ([Tok(IS, "IS")] + (NotTokens(n.not) + ([Tok(NULL, "NULL")] + rest))))
    ensures var r := Parser.NullComparisonExpression(lx);
            r.Success? && r.value.node == n && Reading(r.value.lexer, rest)
  {
    var t2 := [Tok(NULL, "NULL")] + rest;
    var t1 := NotTokens(n.not) + t2;
    MoveNextReading(lx, OperandToken(n.expr), [Tok(IS, "IS")] + t1);
    var e := Parser.IdentificationVariable(lx);
    MoveNextReading(e.lexer, Tok(IS, "IS"), t1);
    var m := MoveNext(e.lexer);
    NotRT(m, n.not, t2);
    var nt := OptionalNot(m);
    MoveNextReading(nt.lexer, Tok(NULL, "NULL"), rest);
    assert Match(e.lexer, IS) == Success(m);
    assert Match(nt.lexer, NULL) == Success(MoveNext(nt.lexer));
    var empty := NewNullComparisonExpression(e.node);
    assert (if nt.not then SetNot(empty, true) else empty) == n;
  }

  /** The comma loop reads the printed tail of an IN list. */
  lemma {:induction false} InTailRT(acc: seq<Node>, ls: seq<Node>, lx: State, rest: seq<Token>)
    requires forall i :: 0 <= i < |acc| ==> acc[i].Literal?
    requires forall i :: 0 <= i < |ls| ==> ls[i].Literal?
    requires Reading(lx, ListTail(ls) + rest) && !HasKind(At(rest, 0), COMMA)
    ensures var r := InTail(acc, lx);
            r.Success? && r.value.nodes == acc + ls && Reading(r.value.lexer, rest)
    decreases |ls|
  {
    if ls == [] {
      assert ListTail(ls) + rest == rest;
      ReadingAt(lx, rest);
      assert acc + ls == acc;
    } else {
      var tail := ListTail(ls[1..]) + rest;
      assert ListTail(ls) + rest == [Tok(COMMA, ",")] + ([OperandToken(ls[0])] + tail);
      MoveNextReading(lx, Tok(COMMA, ","), [OperandToken(ls[0])] + tail);
      var m := MoveNext(lx);
      LiteralRT(ls[0], m, tail);
      Snoc(acc, ls);
      InTailRT(acc + [ls[0]], ls[1..], MoveNext(m), rest);
    }
  }

  /** The parenthesised literal list of an IN expression. */
  lemma InParametersRT(ls: seq<Node>, lx: State, rest: seq<Token>)
    requires |ls| > 0 && forall i :: 0 <= i < |ls| ==> ls[i].Literal?
    requires Reading(lx, [OpenToken, OperandToken(ls[0])] + ListTail(ls[1..]) + [CloseToken] + rest)
    ensures var r := InParameters(lx);
            r.Success? && r.value.nodes == ls && Reading(r.value.lexer, rest)
  {
    var t4 := [CloseToken] + rest;
    var t3 := [OperandToken(ls[0])] + (ListTail(ls[1..]) + t4);
    assert [OpenToken, OperandToken(ls[0])] + ListTail(ls[1..]) + [CloseToken] + rest == [OpenToken] + t3;
    MoveNextReading(lx, OpenToken, t3);
    var l1 := MoveNext(lx);
    LiteralRT(ls[0], l1, ListTail(ls[1..]) + t4);
    InTailRT([ls[0]], ls[1..], MoveNext(l1), t4);
    Cons(ls);
    var l2 := InTail([ls[0]], MoveNext(l1)).value.lexer;
    MoveNextReading(l2, CloseToken, rest);
  }

  lemma InShape(n: Node, rest: seq<Token>)
    requires n.InExpression? && IsSimple(n)
    ensures PrintSimple(n) + rest
            == [OperandToken(n.identificationVariableNode)] + (NotTokens(n.not) + ([Tok(IN, "IN")]
               + ([OpenToken, OperandToken(n.litterals[0])] + ListTail(n.litterals[1..]) + [CloseToken] + rest)))
  {
    InJoin(OperandToken(n.identificationVariableNode), NotTokens(n.not), Tok(IN, "IN"), OpenToken,
           OperandToken(n.litterals[0]), ListTail(n.litterals[1..]), CloseToken, rest);
  }

  /** The re-bracketing `InShape` needs, over opaque tokens. */
  lemma InJoin(v: Token, nt: seq<Token>, in_: Token, open: Token, first: Token, tail: seq<Token>, close: Token, rest: seq<Token>)
    ensures [v] + nt + [in_, open, first] + tail + [close] + rest
            == [v] + (nt + ([in_] + ([open, first] + tail + [close] + rest)))
  {
    assert [in_, open, first] == [in_] + [open, first];
  }

  lemma InRT(n: Node, lx: State, rest: seq<Token>)
    requires n.InExpression? && n.identificationVariableNode.IdentificationVariable?
    requires |n.litterals| > 0 && forall i :: 0 <= i < |n.litterals| ==> n.litterals[i].Literal?
    requires Reading(lx, [OperandToken(n.identificationVariableNode)] + (NotTokens(n.not) + ([Tok(IN, "IN")]
               + ([OpenToken, OperandToken(n.litterals[0])] + ListTail(n.litterals[1..]) + [CloseToken] + rest))))
    ensures var r := Parser.InExpression(lx);
            r.Success? && r.value.node == n && Reading(r.value.lexer, rest)
  {
    var ls := n.litterals;
    var t2 := [OpenToken, OperandToken(ls[0])] + ListTail(ls[1..]) + [CloseToken] + rest;
    var t1 := [Tok(IN, "IN")] + t2;
    MoveNextReading(lx, OperandToken(n.identificationVariableNode), NotTokens(n.not) + t1);
    var v := Parser.IdentificationVariable(lx);
    NotRT(v.lexer, n.not, t1);
    var nt := OptionalNot(v.lexer);
    MoveNextReading(nt.lexer, Tok(IN, "IN"), t2);
    var m := MoveNext(nt.lexer);
    InParametersRT(ls, m, rest);
    assert Match(nt.lexer, IN) == Success(m);
    var empty := NewInExpression(v.node);
    var node := if nt.not then SetNot(empty, true) else empty;
    assert SetLiterals(node, ls) == n;
  }

  lemma ComparisonShape(n: Node, rest: seq<Token>)
    requires n.ComparisonExpression? && IsSimple(n)
    ensures PrintSimple(n) + rest
            == [OperandToken(n.leftExpr)] + (OperatorTokens(n.operator) + ([OperandToken(n.rightExpr)] + rest))
  {
  }

  lemma ComparisonRT(n: Node, lx: State, rest: seq<Token>)
    requires n.ComparisonExpression? && IsOperand(n.leftExpr) && n.operator in ComparisonOperators && IsOperand(n.rightExpr)
    requires Reading(lx, [OperandToken(n.leftExpr)] + (OperatorTokens(n.operator) + ([OperandToken(n.rightExpr)] + rest)))
    ensures var r := Parser.ComparisonExpression(lx);
            r.Success? && r.value.node == n && Reading(r.value.lexer, rest)
  {
    var t2 := [OperandToken(n.rightExpr)] + rest;
    var t1 := OperatorTokens(n.operator) + t2;
    assert Glimpse(lx).lexer == lx;
    OperandRT(n.leftExpr, lx, t1);
    var l1 := MoveNext(lx);
    OperatorRT(n.operator, l1, t2);
    var l2 := ComparisonOperator(l1).value.lexer;
    OperandRT(n.rightExpr, l2, rest);
  }

  /** `simpleConditionalExpression` reads every printed simple expression,
      whatever follows it. */
  lemma SimpleRT(n: Node, lx: State, rest: seq<Token>)
    requires IsSimple(n) && Reading(lx, PrintSimple(n) + rest)
    ensures var r := SimpleConditionalExpression(lx);
            r.Success? && r.value.node == n && Reading(r.value.lexer, rest)
  {
    SimpleChoice(n, lx, rest);
    ChosenRT(n, lx, rest);
  }

  /** The dispatch on a printed simple expression picks its production and
      leaves the cursor where it was. */
  lemma SimpleChoice(n: Node, lx: State, rest: seq<Token>)
    requires IsSimple(n) && Reading(lx, PrintSimple(n) + rest)
    ensures SimpleConditionalExpression(lx) == ParseChosen(ProductionOf(n), lx)
  {
    DiscriminateAgrees(lx);
    DispatchPrinted(n, rest);
    assert lx.(peek := 0) == lx;
  }

  /** The production of a printed simple expression reads it. */
  lemma ChosenRT(n: Node, lx: State, rest: seq<Token>)
    requires IsSimple(n) && Reading(lx, PrintSimple(n) + rest)
    ensures var r := ParseChosen(ProductionOf(n), lx);
            r.Success? && r.value.node == n && Reading(r.value.lexer, rest)
  {
    if n.BetweenExpression? {
      BetweenPrintedRT(n, lx, rest);
    } else if n.LikeExpression? {
      LikePrintedRT(n, lx, rest);
    } else if n.InExpression? {
      InPrintedRT(n, lx, rest);
    } else if n.NullComparisonExpression? {
      NullComparisonPrintedRT(n, lx, rest);
    } else {
      ComparisonPrintedRT(n, lx, rest);
    }
  }

  lemma BetweenPrintedRT(n: Node, lx: State, rest: seq<Token>)
    requires n.BetweenExpression? && IsSimple(n) && Reading(lx, PrintSimple(n) + rest)
    ensures var r := ParseChosen(BetweenP, lx);
            r.Success? && r.value.node == n && Reading(r.value.lexer, rest)
  {
    assert ParseChosen(BetweenP, lx) == Parser.BetweenExpression(lx);
    BetweenShape(n, rest);
    BetweenRT(n, lx, rest);
  }

  lemma LikePrintedRT(n: Node, lx: State, rest: seq<Token>)
    requires n.LikeExpression? && IsSimple(n) && Reading(lx, PrintSimple(n) + rest)
    ensures var r := ParseChosen(LikeP, lx);
            r.Success? && r.value.node == n && Reading(r.value.lexer, rest)
  {
    assert ParseChosen(LikeP, lx) == Parser.LikeExpression(lx);
    LikeShape(n, rest);
    LikeRT(n, lx, rest);
  }

  lemma InPrintedRT(n: Node, lx: State, rest: seq<Token>)
    requires n.InExpression? && IsSimple(n) && Reading(lx, PrintSimple(n) + rest)
    ensures var r := ParseChosen(InP, lx);
            r.Success? && r.value.node == n && Reading(r.value.lexer, rest)
  {
    assert ParseChosen(InP, lx) == Parser.InExpression(lx);
    InShape(n, rest);
    InRT(n, lx, rest);
  }

  lemma NullComparisonPrintedRT(n: Node, lx: State, rest: seq<Token>)
    requires n.NullComparisonExpression? && IsSimple(n) && Reading(lx, PrintSimple(n) + rest)
    ensures var r := ParseChosen(NullComparisonP, lx);
            r.Success? && r.value.node == n && Reading(r.value.lexer, rest)
  {
    assert ParseChosen(NullComparisonP, lx) == Parser.NullComparisonExpression(lx);
    NullComparisonShape(n, rest);
    NullComparisonRT(n, lx, rest);
  }

  lemma ComparisonPrintedRT(n: Node, lx: State, rest: seq<Token>)
    requires n.ComparisonExpression? && IsSimple(n) && Reading(lx, PrintSimple(n) + rest)
    ensures var r := ParseChosen(ComparisonP, lx);
            r.Success? && r.value.node == n && Reading(r.value.lexer, rest)
  {
    assert ParseChosen(ComparisonP, lx) == Parser.ComparisonExpression(lx);
    ComparisonShape(n, rest);
    ComparisonRT(n, lx, rest);
  }

  // ---------------------------------------------------------------------
  // The conditional grammar
  // ---------------------------------------------------------------------

  /** `conditionalPrimary` reads a printed primary. */
  lemma {:induction false} PrimaryRT(n: Node, lx: State, rest: seq<Token>)
    requires IsPrimary(n) && Reading(lx, PrintPrimary(n) + rest) && StopsFactor(rest)
    ensures var r := Parser.ConditionalPrimary(lx);
            r.Success? && r.value.node == n && Reading(r.value.lexer, rest)
    decreases Size(n), 3
  {
    if n.simpleConditionalExpression.Some? {
      PrimarySimpleRT(n, lx, rest);
    } else {
      SizeDown(n);
      var g := n.conditionalExpression.value;
      assert n == ConditionalPrimary(None, Some(g));
      assert PrintPrimary(n) + rest == [OpenToken] + (PrintExpr(g) + ([CloseToken] + rest));
      PrimaryGroupRT(g, lx, rest);
    }
  }

  /** A simple expression never starts with `(`, so it takes the first path. */
  lemma PrimarySimpleRT(n: Node, lx: State, rest: seq<Token>)
    requires IsPrimary(n) && n.simpleConditionalExpression.Some?
    requires Reading(lx, PrintSimple(n.simpleConditionalExpression.value) + rest)
    ensures var r := Parser.ConditionalPrimary(lx);
            r.Success? && r.value.node == n && Reading(r.value.lexer, rest)
  {
    var s := n.simpleConditionalExpression.value;
    ReadingAt(lx, PrintSimple(s) + rest);
    assert n == ConditionalPrimary(Some(s), None);
    assert Parser.ConditionalPrimary(lx) == SimplePrimary(lx);
    SimplePrimaryRT(s, lx, rest);
  }

  lemma SimplePrimaryRT(s: Node, lx: State, rest: seq<Token>)
    requires IsSimple(s) && Reading(lx, PrintSimple(s) + rest)
    ensures var r := SimplePrimary(lx);
            r.Success? && r.value.node == ConditionalPrimary(Some(s), None) && Reading(r.value.lexer, rest)
  {
    SimpleRT(s, lx, rest);
  }

  /** On a printed group the look past the matching `)` finds a token that
      stops a factor, so the grouped path is taken. */
  lemma {:induction false} PrimaryGroupRT(g: Node, lx: State, rest: seq<Token>)
    requires IsOrNode(g) && Reading(lx, [OpenToken] + (PrintExpr(g) + ([CloseToken] + rest))) && StopsFactor(rest)
    ensures var r := Parser.ConditionalPrimary(lx);
            r.Success? && r.value.node == ConditionalPrimary(None, Some(g)) && Reading(r.value.lexer, rest)
    decreases Size(g) + 1, 2
  {
    var inner := PrintExpr(g) + ([CloseToken] + rest);
    ReadingAt(lx, [OpenToken] + inner);
    PeekBeyondAgrees(lx);
    assert From(Rest(lx), 1) == inner;
    AfterGroup(g, rest);
    assert lx.(peek := 0) == lx;
    GroupRT(g, lx, rest);
  }

  /** The grouped path reads `(`, the OR node and `)`. */
  lemma {:induction false} GroupRT(g: Node, lx: State, rest: seq<Token>)
    requires IsOrNode(g) && Reading(lx, [OpenToken] + (PrintExpr(g) + ([CloseToken] + rest)))
    ensures IsNextToken(lx, OPEN_PARENTHESIS)
    ensures var r := Parser.GroupedExpression(lx);
            r.Success? && r.value.node == ConditionalPrimary(None, Some(g)) && Reading(r.value.lexer, rest)
    decreases Size(g) + 1, 1
  {
    var inner := PrintExpr(g) + ([CloseToken] + rest);
    ReadingAt(lx, [OpenToken] + inner);
    MoveNextReading(lx, OpenToken, inner);
    var m := MoveNext(lx);
    AtAppend([CloseToken], rest);
    ExprRT(g, m, [CloseToken] + rest);
    var e := Parser.ConditionalExpression(m).value;
    MoveNextReading(e.lexer, CloseToken, rest);
  }

  lemma {:induction false} FactorRT(n: Node, lx: State, rest: seq<Token>)
    requires IsFactor(n) && Reading(lx, PrintFactor(n) + rest) && StopsFactor(rest)
    ensures var r := Parser.ConditionalFactor(lx);
            r.Success? && r.value.node == n && Reading(r.value.lexer, rest)
    decreases Size(n), 4
  {
    ReadingAt(lx, PrintFactor(n) + rest);
    AtAppend(PrintFactor(n), rest);
    if n.ConditionalFactor? {
      SizeDown(n);
      MoveNextReading(lx, NotToken, PrintPrimary(n.conditionalPrimary) + rest);
      PrimaryRT(n.conditionalPrimary, MoveNext(lx), rest);
    } else {
      PrimaryRT(n, lx, rest);
    }
  }

  /** The printed factors after the first, split at the first of them. */
  lemma AndRestCons(fs: seq<Node>, rest: seq<Token>)
    requires fs != [] && forall i :: 0 <= i < |fs| ==> IsFactor(fs[i])
    ensures AndRest(fs) + rest == [AndToken] + (PrintFactor(fs[0]) + (AndRest(fs[1..]) + rest))
  {
    Cons(fs);
    AndRestFirst(fs[0], fs[1..], rest);
  }

  lemma AndRestFirst(f: Node, more: seq<Node>, rest: seq<Token>)
    requires IsFactor(f) && forall i :: 0 <= i < |more| ==> IsFactor(more[i])
    ensures AndRest([f] + more) + rest == [AndToken] + (PrintFactor(f) + (AndRest(more) + rest))
  {
    var fs := [f] + more;
    assert fs[0] == f && fs[1..] == more;
    var a, b, c := [AndToken], PrintFactor(f), AndRest(more);
    Assoc(a, b, c, rest);
  }

  /** The printed terms after the first, split at the first of them. */
  lemma OrRestCons(ts: seq<Node>, rest: seq<Token>)
    requires ts != [] && forall i :: 0 <= i < |ts| ==> IsTerm(ts[i])
    ensures OrRest(ts) + rest == [OrToken] + (PrintTerm(ts[0]) + (OrRest(ts[1..]) + rest))
  {
    Cons(ts);
    OrRestFirst(ts[0], ts[1..], rest);
  }

  lemma OrRestFirst(t: Node, more: seq<Node>, rest: seq<Token>)
    requires IsTerm(t) && forall i :: 0 <= i < |more| ==> IsTerm(more[i])
    ensures OrRest([t] + more) + rest == [OrToken] + (PrintTerm(t) + (OrRest(more) + rest))
  {
    var ts := [t] + more;
    assert ts[0] == t && ts[1..] == more;
    var a, b, c := [OrToken], PrintTerm(t), OrRest(more);
    Assoc(a, b, c, rest);
  }

  lemma TermShape(n: Node, rest: seq<Token>)
    requires n.ConditionalTerm? && IsTerm(n)
    ensures PrintTerm(n) + rest == PrintFactor(n.conditionalFactors[0]) + (AndRest(n.conditionalFactors[1..]) + rest)
  {
  }

  lemma ExprShape(n: Node, rest: seq<Token>)
    requires IsOrNode(n)
    ensures PrintExpr(n) + rest == PrintTerm(n.conditionalTerms[0]) + (OrRest(n.conditionalTerms[1..]) + rest)
  {
  }

  /** The AND loop stops where a factor is not followed by AND. */
  lemma AndTailEndRT(acc: seq<Node>, lx: State, rest: seq<Token>, start: State)
    requires |acc| >= 1 && Consumed(start, lx) && Reading(lx, rest) && StopsTerm(rest)
    ensures var r := AndTail(acc, lx, start);
            && r.Success? && Reading(r.value.lexer, rest)
            && r.value.node == if |acc| == 1 then acc[0] else Nodes.ConditionalTerm(acc)
  {
    ReadingAt(lx, rest);
  }

  /** The AND loop reads the printed factors after the first. */
  lemma {:induction false} AndTailRT(acc: seq<Node>, fs: seq<Node>, lx: State, rest: seq<Token>, start: State)
    requires |acc| >= 1 && forall i :: 0 <= i < |fs| ==> IsFactor(fs[i])
    requires Consumed(start, lx) && Reading(lx, AndRest(fs) + rest) && StopsTerm(rest)
    ensures var r := AndTail(acc, lx, start);
            && r.Success? && Reading(r.value.lexer, rest)
            && r.value.node == if |acc + fs| == 1 then acc[0] else Nodes.ConditionalTerm(acc + fs)
    decreases SizeList(fs), 5
  {
    if fs == [] {
      assert AndRest(fs) + rest == rest;
      assert acc + fs == acc;
      AndTailEndRT(acc, lx, rest, start);
    } else {
      var tail := AndRest(fs[1..]) + rest;
      AndRestCons(fs, rest);
      MoveNextReading(lx, AndToken, PrintFactor(fs[0]) + tail);
      var m := MoveNext(lx);
      AtAppend(AndRest(fs[1..]), rest);
      FactorRT(fs[0], m, tail);
      var f := Parser.ConditionalFactor(m).value;
      Snoc(acc, fs);
      assert AndTail(acc, lx, start) == AndTail(acc + [fs[0]], f.lexer, start);
      AndTailRT(acc + [fs[0]], fs[1..], f.lexer, rest, start);
    }
  }

  /** `conditionalTerm` reads a printed term. */
  lemma {:induction false} TermRT(n: Node, lx: State, rest: seq<Token>)
    requires IsTerm(n) && Reading(lx, PrintTerm(n) + rest) && StopsTerm(rest)
    ensures var r := Parser.ConditionalTerm(lx);
            r.Success? && r.value.node == n && Reading(r.value.lexer, rest)
    decreases Size(n), 7
  {
    if n.ConditionalTerm? {
      TermAndRT(n, lx, rest);
    } else {
      TermFactorRT(n, lx, rest);
    }
  }

  /** An AND node: its first factor, then the AND loop over the others. */
  lemma {:induction false} TermAndRT(n: Node, lx: State, rest: seq<Token>)
    requires n.ConditionalTerm? && IsTerm(n) && Reading(lx, PrintTerm(n) + rest) && StopsTerm(rest)
    ensures var r := Parser.ConditionalTerm(lx);
            r.Success? && r.value.node == n && Reading(r.value.lexer, rest)
    decreases Size(n), 6
  {
    SizeDown(n);
    var fs := n.conditionalFactors;
    var tail := AndRest(fs[1..]) + rest;
    TermShape(n, rest);
    AtAppend(AndRest(fs[1..]), rest);
    FactorRT(fs[0], lx, tail);
    var f := Parser.ConditionalFactor(lx).value;
    assert Parser.ConditionalTerm(lx) == AndTail([fs[0]], f.lexer, lx);
    AndTailRT([fs[0]], fs[1..], f.lexer, rest, lx);
    Cons(fs);
  }

  /** A term that is a factor: the AND loop stops at once. */
  lemma {:induction false} TermFactorRT(n: Node, lx: State, rest: seq<Token>)
    requires !n.ConditionalTerm? && IsFactor(n) && Reading(lx, PrintFactor(n) + rest) && StopsTerm(rest)
    ensures var r := Parser.ConditionalTerm(lx);
            r.Success? && r.value.node == n && Reading(r.value.lexer, rest)
    decreases Size(n), 6
  {
    FactorRT(n, lx, rest);
    var f := Parser.ConditionalFactor(lx).value;
    assert Parser.ConditionalTerm(lx) == AndTail([n], f.lexer, lx);
    AndTailEndRT([n], f.lexer, rest, lx);
  }

  /** The OR loop stops where a term is not followed by OR. */
  lemma OrTailEndRT(acc: seq<Node>, lx: State, rest: seq<Token>, start: State)
    requires |acc| >= 1 && Consumed(start, lx) && Reading(lx, rest) && StopsExpr(rest)
    ensures var r := OrTail(acc, lx, start);
            && r.Success? && Reading(r.value.lexer, rest)
            && r.value.node == if |acc| == 1 then acc[0] else Nodes.ConditionalExpression(acc)
  {
    ReadingAt(lx, rest);
  }

  /** The OR loop reads the printed terms after the first. */
  lemma {:induction false} OrTailRT(acc: seq<Node>, ts: seq<Node>, lx: State, rest: seq<Token>, start: State)
    requires |acc| >= 1 && forall i :: 0 <= i < |ts| ==> IsTerm(ts[i])
    requires Consumed(start, lx) && Reading(lx, OrRest(ts) + rest) && StopsExpr(rest)
    ensures var r := OrTail(acc, lx, start);
            && r.Success? && Reading(r.value.lexer, rest)
            && r.value.node == if |acc + ts| == 1 then acc[0] else Nodes.ConditionalExpression(acc + ts)
    decreases SizeList(ts), 8
  {
    if ts == [] {
      assert OrRest(ts) + rest == rest;
      assert acc + ts == acc;
      OrTailEndRT(acc, lx, rest, start);
    } else {
      var tail := OrRest(ts[1..]) + rest;
      OrRestCons(ts, rest);
      MoveNextReading(lx, OrToken, PrintTerm(ts[0]) + tail);
      var m := MoveNext(lx);
      AtAppend(OrRest(ts[1..]), rest);
      TermRT(ts[0], m, tail);
      var t := Parser.ConditionalTerm(m).value;
      Snoc(acc, ts);
      assert OrTail(acc, lx, start) == OrTail(acc + [ts[0]], t.lexer, start);
      OrTailRT(acc + [ts[0]], ts[1..], t.lexer, rest, start);
    }
  }

  /** `conditionalExpression` reads a printed expression back into the same
      tree and stops where the expression ends. */
  lemma {:induction false} ExprRT(n: Node, lx: State, rest: seq<Token>)
    requires IsExpr(n) && Reading(lx, PrintExpr(n) + rest) && StopsExpr(rest)
    ensures var r := Parser.ConditionalExpression(lx);
            r.Success? && r.value.node == n && Reading(r.value.lexer, rest)
    decreases Size(n), 10
  {
    if IsOrNode(n) {
      ExprOrRT(n, lx, rest);
    } else {
      TermRT(n, lx, rest);
      var t := Parser.ConditionalTerm(lx).value;
      assert Parser.ConditionalExpression(lx) == OrTail([n], t.lexer, lx);
      OrTailEndRT([n], t.lexer, rest, lx);
    }
  }

  /** An OR node: its first term, then the OR loop over the others. */
  lemma {:induction false} ExprOrRT(n: Node, lx: State, rest: seq<Token>)
    requires IsOrNode(n) && Reading(lx, PrintExpr(n) + rest) && StopsExpr(rest)
    ensures var r := Parser.ConditionalExpression(lx);
            r.Success? && r.value.node == n && Reading(r.value.lexer, rest)
    decreases Size(n), 9
  {
    SizeDown(n);
    var ts := n.conditionalTerms;
    var tail := OrRest(ts[1..]) + rest;
    ExprShape(n, rest);
    AtAppend(OrRest(ts[1..]), rest);
    TermRT(ts[0], lx, tail);
    var t := Parser.ConditionalTerm(lx).value;
    assert Parser.ConditionalExpression(lx) == OrTail([ts[0]], t.lexer, lx);
    OrTailRT([ts[0]], ts[1..], t.lexer, rest, lx);
    Cons(ts);
  }

  /** The whole parser inverts the printer: every tree of the shape the
      parser returns, printed, parses back to that tree under the root. */
  lemma ParsePrinted(input: string, n: Node)
    requires IsExpr(n)
    ensures FilterLanguage(Start(input, PrintExpr(n))) == Success(Filter(n))
  {
    var lx := MoveNext(Start(input, PrintExpr(n)));
    StartReading(input, PrintExpr(n));
    assert PrintExpr(n) + [] == PrintExpr(n);
    ExprRT(n, lx, []);
    ReadingAt(Parser.ConditionalExpression(lx).value.lexer, []);
  }
}
