/** The trees the parser can return, as predicates over the AST: which node
    classes sit where, when the OR/AND/NOT nodes appear, and what the
    operands of a simple conditional expression can be. */
module Shapes {
  import opened Wrappers
  import opened Nodes

  /** The operators a comparison node can carry after `!=` is rewritten. */
  const ComparisonOperators: set<string> := {"=", "<", "<=", "<>", ">", ">="}

  /** An operand of a comparison or a BETWEEN bound: `arithmeticPrimary`. */
  predicate IsOperand(n: Node)
  {
    n.IdentificationVariable? || n.Literal?
  }

  /** A LIKE pattern: `stringExpression`. */
  predicate IsPattern(n: Node)
  {
    n.IdentificationVariable? || (n.Literal? && n.literalType == STRING)
  }

  /** The five simple conditional expressions with the operands the
      grammar allows; an IN list is never empty and holds only literals. */
  predicate IsSimple(n: Node)
  {
    match n
    case ComparisonExpression(l, op, r) => IsOperand(l) && op in ComparisonOperators && IsOperand(r)
    case BetweenExpression(_, e1, e2, e3) => e1.IdentificationVariable? && IsOperand(e2) && IsOperand(e3)
    case LikeExpression(_, e, p) => e.IdentificationVariable? && IsPattern(p)
    case InExpression(_, v, ls) => v.IdentificationVariable? && |ls| > 0 && forall i :: 0 <= i < |ls| ==> ls[i].Literal?
    case NullComparisonExpression(_, e) => e.IdentificationVariable?
    case _ => false
  }

  /** A primary wrapper with exactly one slot set: a simple expression, or a
      parenthesised OR node. */
  predicate IsPrimary(n: Node)
    decreases n, 0
  {
    && n.ConditionalPrimary?
    && match (n.simpleConditionalExpression, n.conditionalExpression)
       case (Some(s), None) => IsSimple(s)
       case (None, Some(g)) => IsOrNode(g)
       case _ => false
  }

  /** A factor: a primary, or a NOT node (flag set) around one. */
  predicate IsFactor(n: Node)
    decreases n, 1
  {
    if n.ConditionalFactor? then n.not && IsPrimary(n.conditionalPrimary) else IsPrimary(n)
  }

  /** A term: a factor, or an AND node over at least two factors. */
  predicate IsTerm(n: Node)
    decreases n, 2
  {
    if n.ConditionalTerm? then
      |n.conditionalFactors| >= 2 && forall i :: 0 <= i < |n.conditionalFactors| ==> IsFactor(n.conditionalFactors[i])
    else IsFactor(n)
  }

  /** An OR node over at least two terms. */
  predicate IsOrNode(n: Node)
    decreases n, 3
  {
    n.ConditionalExpression? && |n.conditionalTerms| >= 2
    && forall i :: 0 <= i < |n.conditionalTerms| ==> IsTerm(n.conditionalTerms[i])
  }

  /** What `conditionalExpression` returns: an OR node or a term. */
  predicate IsExpr(n: Node)
  {
    IsOrNode(n) || IsTerm(n)
  }

  /** A factor standing alone is a term. */
  lemma FactorIsTerm(n: Node)
    requires IsFactor(n)
    ensures IsTerm(n)
  {
    if n.ConditionalFactor? {
      assert IsPrimary(n.conditionalPrimary);
    } else {
      assert IsPrimary(n);
    }
  }

  /** An expression whose root is an OR node is a well-formed OR node: no
      term or factor has that root. */
  lemma ExprOrNode(n: Node)
    requires IsExpr(n) && n.ConditionalExpression?
    ensures IsOrNode(n)
  {
    assert !IsPrimary(n);
    assert !IsFactor(n);
    assert !IsTerm(n);
  }
}
