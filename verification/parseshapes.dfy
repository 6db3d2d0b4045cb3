/** What the parser promises about the trees it builds: every successful
    parse returns a tree of the shapes in `Shapes`. The simple productions
    give simple expressions, `conditionalPrimary` a primary wrapper with one
    slot set, `conditionalFactor` a NOT node exactly when it consumed a NOT,
    `conditionalTerm` a factor or an AND node over two or more factors, and
    `conditionalExpression` a term or an OR node over two or more terms. */
module ParseShapes {
  import opened Wrappers
  import opened Tokens
  import opened Cursor
  import Nodes
  import opened Shapes
  import opened Parser
  import Lexer

  // ---------------------------------------------------------------------
  // Operands and IN lists
  // ---------------------------------------------------------------------

  /** `arithmeticPrimary` reads one token into an operand. */
  lemma ArithmeticShape(lx: State)
    ensures var r := ArithmeticPrimary(lx);
            r.Success? ==> IsOperand(r.value.node) && r.value.lexer == MoveNext(lx)
  {
  }

  /** The comma loop keeps what it was given and adds only literals. */
  lemma {:induction false} InTailShape(acc: seq<Nodes.Node>, lx: State)
    requires forall i :: 0 <= i < |acc| ==> acc[i].Literal?
    ensures var r := InTail(acc, lx);
            r.Success? ==> && |r.value.nodes| >= |acc| && r.value.nodes[..|acc|] == acc
                           && forall i :: 0 <= i < |r.value.nodes| ==> r.value.nodes[i].Literal?
    decreases Remaining(lx)
  {
    if IsNextToken(lx, COMMA) {
      var m := Match(lx, COMMA).value;
      var l := Parser.Literal(m);
      if l.Success? {
        var acc' := acc + [l.value.node];
        InTailShape(acc', l.value.lexer);
        var r := InTail(acc', l.value.lexer);
        assert InTail(acc, lx) == r;
        if r.Success? {
          assert r.value.nodes[..|acc|] == r.value.nodes[..|acc'|][..|acc|];
        }
      }
    }
  }

  /** The parenthesised list of an IN expression is one or more literals. */
  lemma InParametersShape(lx: State)
    ensures var r := InParameters(lx);
            r.Success? ==> |r.value.nodes| > 0 && forall i :: 0 <= i < |r.value.nodes| ==> r.value.nodes[i].Literal?
  {
    var open := Match(lx, OPEN_PARENTHESIS);
    if open.Success? {
      var first := Parser.Literal(open.value);
      if first.Success? {
        InTailShape([first.value.node], first.value.lexer);
      }
    }
  }

  // ---------------------------------------------------------------------
  // The five simple conditional expressions
  // ---------------------------------------------------------------------

  lemma BetweenIsSimple(lx: State)
    requires lx.lookahead.Some?
    ensures var r := BetweenExpression(lx); r.Success? ==> r.value.node.BetweenExpression? && IsSimple(r.value.node)
  {
    var e1 := IdentificationVariable(lx);
    var n := OptionalNot(e1.lexer);
    var m := Match(n.lexer, BETWEEN);
    if m.Success? {
      ArithmeticShape(m.value);
      var e2 := ArithmeticPrimary(m.value);
      if e2.Success? {
        var m2 := Match(e2.value.lexer, AND);
        if m2.Success? {
          ArithmeticShape(m2.value);
        }
      }
    }
  }

  lemma LikeIsSimple(lx: State)
    requires lx.lookahead.Some?
    ensures var r := LikeExpression(lx); r.Success? ==> r.value.node.LikeExpression? && IsSimple(r.value.node)
  {
    var e := IdentificationVariable(lx);
    var n := OptionalNot(e.lexer);
    var m := Match(n.lexer, LIKE);
    if m.Success? {
      var p := StringExpression(m.value);
      assert p.Success? ==> IsPattern(p.value.node);
    }
  }

  lemma InIsSimple(lx: State)
    requires lx.lookahead.Some?
    ensures var r := InExpression(lx); r.Success? ==> r.value.node.InExpression? && IsSimple(r.value.node)
  {
    var v := IdentificationVariable(lx);
    var n := OptionalNot(v.lexer);
    var m := Match(n.lexer, IN);
    if m.Success? {
      InParametersShape(m.value);
    }
  }

  lemma NullComparisonIsSimple(lx: State)
    requires lx.lookahead.Some?
    ensures var r := NullComparisonExpression(lx);
            r.Success? ==> r.value.node.NullComparisonExpression? && IsSimple(r.value.node)
  {
  }

  lemma ComparisonIsSimple(lx: State)
    ensures var r := ComparisonExpression(lx);
            r.Success? ==> r.value.node.ComparisonExpression? && IsSimple(r.value.node)
  {
    var g := Glimpse(lx);
    ArithmeticShape(g.lexer);
    var left := ArithmeticPrimary(g.lexer);
    if left.Success? {
      var op := ComparisonOperator(left.value.lexer);
      if op.Success? {
        ArithmeticShape(op.value.lexer);
      }
    }
  }

  /** Whatever production the dispatch picks, its tree is a simple
      conditional expression of that production's class. */
  lemma SimpleShape(lx: State)
    ensures var r := SimpleConditionalExpression(lx); r.Success? ==> IsSimple(r.value.node)
  {
    var g := Discriminate(lx);
    var p := Decide(g.token, g.lookahead);
    match p
    case BetweenP => BetweenIsSimple(g.lexer);
    case LikeP => LikeIsSimple(g.lexer);
    case InP => InIsSimple(g.lexer);
    case NullComparisonP => NullComparisonIsSimple(g.lexer);
    case ComparisonP => ComparisonIsSimple(g.lexer);
  }

  // ---------------------------------------------------------------------
  // The conditional grammar
  // ---------------------------------------------------------------------

  /** `conditionalExpression` returns a term or an OR node. */
  lemma {:induction false} ExprShape(lx: State)
    ensures var r := ConditionalExpression(lx); r.Success? ==> IsExpr(r.value.node)
    decreases Remaining(lx), 6
  {
    var t := ConditionalTerm(lx);
    if t.Success? {
      TermShape(lx);
      OrTailShape([t.value.node], t.value.lexer, lx);
    }
  }

  /** The OR loop over terms: one term stands alone, two or more make an
      OR node. */
  lemma {:induction false} OrTailShape(acc: seq<Nodes.Node>, lx: State, start: State)
    requires |acc| >= 1 && Consumed(start, lx) && forall i :: 0 <= i < |acc| ==> IsTerm(acc[i])
    ensures var r := OrTail(acc, lx, start); r.Success? ==> IsExpr(r.value.node)
    decreases Remaining(lx), 5
  {
    if IsNextToken(lx, OR) {
      var m := Match(lx, OR).value;
      var t := ConditionalTerm(m);
      if t.Success? {
        TermShape(m);
        var acc' := acc + [t.value.node];
        assert forall i :: 0 <= i < |acc'| ==> IsTerm(acc'[i]);
        assert OrTail(acc, lx, start) == OrTail(acc', t.value.lexer, start);
        OrTailShape(acc', t.value.lexer, start);
      }
    } else if |acc| >= 2 {
      assert IsOrNode(Nodes.ConditionalExpression(acc));
    }
  }

  /** What the OR loop does with the terms it was given: a single term
      with no OR after it comes back unchanged; otherwise the result is an
      OR node over two or more terms that begins with them. */
  lemma {:induction false} OrTailKeeps(acc: seq<Nodes.Node>, lx: State, start: State)
    requires |acc| >= 1 && Consumed(start, lx)
    ensures var r := OrTail(acc, lx, start);
            r.Success? && |acc| == 1 && !IsNextToken(lx, OR) ==> r.value.node == acc[0]
    ensures var r := OrTail(acc, lx, start);
            r.Success? && (|acc| >= 2 || IsNextToken(lx, OR)) ==>
              && r.value.node.ConditionalExpression?
              && 2 <= |r.value.node.conditionalTerms| && |acc| <= |r.value.node.conditionalTerms|
              && r.value.node.conditionalTerms[..|acc|] == acc
    decreases Remaining(lx)
  {
    if IsNextToken(lx, OR) {
      var m := Match(lx, OR).value;
      var t := ConditionalTerm(m);
      if t.Success? {
        var acc' := acc + [t.value.node];
        assert OrTail(acc, lx, start) == OrTail(acc', t.value.lexer, start);
        OrTailKeeps(acc', t.value.lexer, start);
        var r := OrTail(acc', t.value.lexer, start);
        if r.Success? {
          var ts := r.value.node.conditionalTerms;
          assert ts[..|acc|] == ts[..|acc'|][..|acc|];
        }
      }
    }
  }

  /** `conditionalTerm` returns a factor or an AND node. */
  lemma {:induction false} TermShape(lx: State)
    ensures var r := ConditionalTerm(lx); r.Success? ==> IsTerm(r.value.node)
    decreases Remaining(lx), 4
  {
    var f := ConditionalFactor(lx);
    if f.Success? {
      FactorShape(lx);
      AndTailShape([f.value.node], f.value.lexer, lx);
    }
  }

  /** The AND loop over factors: one factor stands alone, two or more make
      an AND node. */
  lemma {:induction false} AndTailShape(acc: seq<Nodes.Node>, lx: State, start: State)
    requires |acc| >= 1 && Consumed(start, lx) && forall i :: 0 <= i < |acc| ==> IsFactor(acc[i])
    ensures var r := AndTail(acc, lx, start); r.Success? ==> IsTerm(r.value.node)
    decreases Remaining(lx), 3
  {
    if IsNextToken(lx, AND) {
      var m := Match(lx, AND).value;
      var f := ConditionalFactor(m);
      if f.Success? {
        FactorShape(m);
        var acc' := acc + [f.value.node];
        assert forall i :: 0 <= i < |acc'| ==> IsFactor(acc'[i]);
        assert AndTail(acc, lx, start) == AndTail(acc', f.value.lexer, start);
        AndTailShape(acc', f.value.lexer, start);
      }
    } else if |acc| == 1 {
      FactorIsTerm(acc[0]);
    } else {
      assert IsTerm(Nodes.ConditionalTerm(acc));
    }
  }

  /** The AND loop keeps its factors in the same way. */
  lemma {:induction false} AndTailKeeps(acc: seq<Nodes.Node>, lx: State, start: State)
    requires |acc| >= 1 && Consumed(start, lx)
    ensures var r := AndTail(acc, lx, start);
            r.Success? && |acc| == 1 && !IsNextToken(lx, AND) ==> r.value.node == acc[0]
    ensures var r := AndTail(acc, lx, start);
            r.Success? && (|acc| >= 2 || IsNextToken(lx, AND)) ==>
              && r.value.node.ConditionalTerm?
              && 2 <= |r.value.node.conditionalFactors| && |acc| <= |r.value.node.conditionalFactors|
              && r.value.node.conditionalFactors[..|acc|] == acc
    decreases Remaining(lx)
  {
    if IsNextToken(lx, AND) {
      var m := Match(lx, AND).value;
      var f := ConditionalFactor(m);
      if f.Success? {
        var acc' := acc + [f.value.node];
        assert AndTail(acc, lx, start) == AndTail(acc', f.value.lexer, start);
        AndTailKeeps(acc', f.value.lexer, start);
        var r := AndTail(acc', f.value.lexer, start);
        if r.Success? {
          var fs := r.value.node.conditionalFactors;
          assert fs[..|acc|] == fs[..|acc'|][..|acc|];
        }
      }
    }
  }

  /** `conditionalFactor` returns a NOT node exactly when the lookahead was
      NOT, and a bare primary otherwise. */
  lemma {:induction false} FactorShape(lx: State)
    ensures var r := ConditionalFactor(lx);
            r.Success? ==> IsFactor(r.value.node) && (r.value.node.ConditionalFactor? <==> IsNextToken(lx, NOT))
    decreases Remaining(lx), 2
  {
    var n := OptionalNot(lx);
    PrimaryShape(n.lexer);
  }

  /** `conditionalPrimary` returns a primary wrapper with exactly one slot
      set: a simple expression, or an OR node read between parentheses. */
  lemma {:induction false} PrimaryShape(lx: State)
    ensures var r := Parser.ConditionalPrimary(lx); r.Success? ==> IsPrimary(r.value.node)
    decreases Remaining(lx), 1
  {
    if !IsNextToken(lx, OPEN_PARENTHESIS) {
      assert Parser.ConditionalPrimary(lx) == SimplePrimary(lx);
      SimplePrimaryShape(lx);
    } else {
      var beyond := PeekBeyondClosingParenthesis(lx);
      if SimpleLookahead(beyond.token) {
        assert Parser.ConditionalPrimary(lx) == SimplePrimary(beyond.lexer);
        SimplePrimaryShape(beyond.lexer);
      } else {
        assert Parser.ConditionalPrimary(lx) == GroupedExpression(beyond.lexer);
        assert Remaining(beyond.lexer) == Remaining(lx);
        GroupShape(beyond.lexer);
      }
    }
  }

  lemma SimplePrimaryShape(lx: State)
    ensures var r := SimplePrimary(lx); r.Success? ==> IsPrimary(r.value.node)
  {
    SimpleShape(lx);
  }

  /** A group holds an OR node, the only expression the setter admits. */
  lemma {:induction false} GroupShape(lx: State)
    requires IsNextToken(lx, OPEN_PARENTHESIS)
    ensures var r := GroupedExpression(lx); r.Success? ==> IsPrimary(r.value.node)
    decreases Remaining(lx), 0
  {
    var m := Match(lx, OPEN_PARENTHESIS).value;
    ExprShape(m);
    var e := Parser.ConditionalExpression(m);
    if e.Success? && e.value.node.ConditionalExpression? {
      ExprOrNode(e.value.node);
    }
  }

  /** A successful parse is the root over a term or an OR node. */
  lemma ParseShape(expression: string)
    ensures var r := Parse(expression); r.Success? ==> r.value.Filter? && IsExpr(r.value.child)
  {
    var lx := MoveNext(Start(expression, Lexer.Tokenize(expression)));
    ExprShape(lx);
  }
}
