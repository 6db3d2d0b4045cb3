/** Parenthesis balance of printed token lists: a printed expression never
    closes a parenthesis it did not open, so the search for the token after
    a matching `)` passes over it unchanged. */
module Balance {
  import opened Wrappers
  import opened Tokens
  import opened Nodes
  import opened Shapes
  import opened Lookahead
  import opened Printer

  /** The nesting depth after `ts`, starting `unmatched` deep; nothing once
      the depth has reached 0. */
  function Depth(ts: seq<Token>, unmatched: nat): (r: Option<nat>)
    ensures r.Some? ==> r.value > 0
  {
    if unmatched == 0 then None
    else if ts == [] then Some(unmatched)
    else Depth(ts[1..], Adjust(unmatched, ts[0]))
  }

  /** Depth composes over concatenation. */
  lemma {:induction false} DepthAppend(a: seq<Token>, b: seq<Token>, unmatched: nat)
    requires Depth(a, unmatched).Some?
    ensures Depth(a + b, unmatched) == Depth(b, Depth(a, unmatched).value)
  {
    if a != [] {
      assert (a + b)[0] == a[0];
      assert (a + b)[1..] == a[1..] + b;
      DepthAppend(a[1..], b, Adjust(unmatched, a[0]));
    } else {
      assert a + b == b;
    }
  }

  /** While the depth stays positive over `a`, the search continues past it
      at the depth it ends with. */
  lemma {:induction false} AfterMatchAppend(a: seq<Token>, b: seq<Token>, unmatched: nat)
    requires Depth(a, unmatched).Some?
    ensures AfterMatch(a + b, unmatched) == AfterMatch(b, Depth(a, unmatched).value)
  {
    if a != [] {
      assert (a + b)[0] == a[0];
      assert (a + b)[1..] == a[1..] + b;
      AfterMatchAppend(a[1..], b, Adjust(unmatched, a[0]));
    } else {
      assert a + b == b;
    }
  }

  /** From any positive depth, `ts` ends at the depth it started at. */
  ghost predicate Neutral(ts: seq<Token>)
  {
    forall u: nat :: u > 0 ==> Depth(ts, u) == Some(u)
  }

  lemma NeutralAppend(a: seq<Token>, b: seq<Token>)
    requires Neutral(a) && Neutral(b)
    ensures Neutral(a + b)
  {
    forall u: nat | u > 0
      ensures Depth(a + b, u) == Some(u)
    {
      DepthAppend(a, b, u);
    }
  }

  /** A list with no parenthesis in it. */
  predicate Plain(ts: seq<Token>)
  {
    forall i :: 0 <= i < |ts| ==> ts[i].kind != OPEN_PARENTHESIS && ts[i].kind != CLOSE_PARENTHESIS
  }

  lemma {:induction false} PlainNeutral(ts: seq<Token>)
    requires Plain(ts)
    ensures Neutral(ts)
  {
    if ts != [] {
      assert Plain(ts[1..]) by {
        forall i | 0 <= i < |ts[1..]| ensures ts[1..][i] == ts[i + 1] { }
      }
      PlainNeutral(ts[1..]);
      forall u: nat | u > 0
        ensures Depth(ts, u) == Some(u)
      {
        assert Adjust(u, ts[0]) == u;
      }
    }
  }

  /** A neutral list in parentheses is neutral. */
  lemma NeutralGroup(a: seq<Token>)
    requires Neutral(a)
    ensures Neutral([OpenToken] + a + [CloseToken])
  {
    forall u: nat | u > 0
      ensures Depth([OpenToken] + a + [CloseToken], u) == Some(u)
    {
      var g := [OpenToken] + a + [CloseToken];
      assert g[0] == OpenToken;
      assert g[1..] == a + [CloseToken];
      DepthAppend(a, [CloseToken], u + 1);
    }
  }

  lemma {:induction false} ListTailPlain(ls: seq<Node>)
    requires forall i :: 0 <= i < |ls| ==> ls[i].Literal?
    ensures Plain(ListTail(ls))
  {
    if ls != [] {
      ListTailPlain(ls[1..]);
    }
  }

  lemma SimpleNeutral(n: Node)
    requires IsSimple(n)
    ensures Neutral(PrintSimple(n))
  {
    if n.InExpression? {
      InNeutral(n);
    } else {
      SimplePlain(n);
      PlainNeutral(PrintSimple(n));
    }
  }

  lemma PlainAppend(a: seq<Token>, b: seq<Token>)
    requires Plain(a) && Plain(b)
    ensures Plain(a + b)
  {
  }

  /** Only the IN list puts parentheses in a simple expression. */
  lemma SimplePlain(n: Node)
    requires IsSimple(n) && !n.InExpression?
    ensures Plain(PrintSimple(n))
  {
    if n.ComparisonExpression? {
      PlainAppend([OperandToken(n.leftExpr)], OperatorTokens(n.operator));
      PlainAppend([OperandToken(n.leftExpr)] + OperatorTokens(n.operator), [OperandToken(n.rightExpr)]);
    } else if n.BetweenExpression? {
      var tail := [Tok(BETWEEN, "BETWEEN"), OperandToken(n.expr2), AndToken, OperandToken(n.expr3)];
      PlainAppend([OperandToken(n.expr1)], NotTokens(n.not));
      PlainAppend([OperandToken(n.expr1)] + NotTokens(n.not), tail);
    } else if n.LikeExpression? {
      var tail := [Tok(LIKE, "LIKE"), OperandToken(n.stringPattern)];
      PlainAppend([OperandToken(n.stringExpr)], NotTokens(n.not));
      PlainAppend([OperandToken(n.stringExpr)] + NotTokens(n.not), tail);
    } else {
      var head := [OperandToken(n.expr), Tok(IS, "IS")];
      PlainAppend(head, NotTokens(n.not));
      PlainAppend(head + NotTokens(n.not), [Tok(NULL, "NULL")]);
    }
  }

  /** The literal list of an IN expression is the only group in a simple
      expression. */
  lemma InNeutral(n: Node)
    requires n.InExpression? && IsSimple(n)
    ensures Neutral(PrintSimple(n))
  {
    var head := [OperandToken(n.identificationVariableNode)] + NotTokens(n.not) + [Tok(IN, "IN")];
    var inner := [OperandToken(n.litterals[0])] + ListTail(n.litterals[1..]);
    var group := [OpenToken] + inner + [CloseToken];
    assert PrintSimple(n) == head + group;
    ListTailPlain(n.litterals[1..]);
    PlainNeutral(head);
    PlainNeutral(inner);
    NeutralGroup(inner);
    NeutralAppend(head, group);
  }

  lemma {:induction false} PrimaryNeutral(n: Node)
    requires IsPrimary(n)
    ensures Neutral(PrintPrimary(n))
    decreases Size(n), 1
  {
    if n.simpleConditionalExpression.Some? {
      SimpleNeutral(n.simpleConditionalExpression.value);
    } else {
      ExprNeutral(n.conditionalExpression.value);
      NeutralGroup(PrintExpr(n.conditionalExpression.value));
    }
  }

  lemma {:induction false} FactorNeutral(n: Node)
    requires IsFactor(n)
    ensures Neutral(PrintFactor(n))
    decreases Size(n), 2
  {
    if n.ConditionalFactor? {
      PrimaryNeutral(n.conditionalPrimary);
      PlainNeutral([NotToken]);
      NeutralAppend([NotToken], PrintPrimary(n.conditionalPrimary));
    } else {
      PrimaryNeutral(n);
    }
  }

  lemma {:induction false} AndRestNeutral(fs: seq<Node>)
    requires forall i :: 0 <= i < |fs| ==> IsFactor(fs[i])
    ensures Neutral(AndRest(fs))
    decreases SizeList(fs), 3
  {
    if fs == [] {
      PlainNeutral([]);
    } else {
      FactorNeutral(fs[0]);
      AndRestNeutral(fs[1..]);
      PlainNeutral([AndToken]);
      NeutralAppend([AndToken], PrintFactor(fs[0]));
      NeutralAppend([AndToken] + PrintFactor(fs[0]), AndRest(fs[1..]));
    }
  }

  lemma {:induction false} TermNeutral(n: Node)
    requires IsTerm(n)
    ensures Neutral(PrintTerm(n))
    decreases Size(n), 4
  {
    if n.ConditionalTerm? {
      FactorNeutral(n.conditionalFactors[0]);
      AndRestNeutral(n.conditionalFactors[1..]);
      NeutralAppend(PrintFactor(n.conditionalFactors[0]), AndRest(n.conditionalFactors[1..]));
    } else {
      FactorNeutral(n);
    }
  }

  lemma {:induction false} OrRestNeutral(ts: seq<Node>)
    requires forall i :: 0 <= i < |ts| ==> IsTerm(ts[i])
    ensures Neutral(OrRest(ts))
    decreases SizeList(ts), 5
  {
    if ts == [] {
      PlainNeutral([]);
    } else {
      TermNeutral(ts[0]);
      OrRestNeutral(ts[1..]);
      PlainNeutral([OrToken]);
      NeutralAppend([OrToken], PrintTerm(ts[0]));
      NeutralAppend([OrToken] + PrintTerm(ts[0]), OrRest(ts[1..]));
    }
  }

  /** Every printed expression is balanced. */
  lemma {:induction false} ExprNeutral(n: Node)
    requires IsExpr(n)
    ensures Neutral(PrintExpr(n))
    decreases Size(n), 6
  {
    if IsOrNode(n) {
      TermNeutral(n.conditionalTerms[0]);
      OrRestNeutral(n.conditionalTerms[1..]);
      NeutralAppend(PrintTerm(n.conditionalTerms[0]), OrRest(n.conditionalTerms[1..]));
    } else {
      TermNeutral(n);
    }
  }

  /** The token after the `)` that closes a printed group is the first token
      after the group. */
  lemma AfterGroup(e: Node, rest: seq<Token>)
    requires IsExpr(e)
    ensures AfterMatch(PrintExpr(e) + ([CloseToken] + rest), 1) == At(rest, 0)
  {
    ExprNeutral(e);
    AfterMatchAppend(PrintExpr(e), [CloseToken] + rest, 1);
    assert ([CloseToken] + rest)[1..] == rest;
  }
}
