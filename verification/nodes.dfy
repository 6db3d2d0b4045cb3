/** The AST: one variant per node class, with the classes' constructors and
    setters as functions that keep the classes' defaults and type hints. */
module Nodes {
  import opened Wrappers
  import opened Exceptions

  /** The three `LiteralNode` type constants. */
  datatype LiteralType = STRING | BOOLEAN | NUMERIC

  function LiteralCode(t: LiteralType): (c: int)
    ensures 1 <= c <= 3
  {
    match t
    case STRING => 1
    case BOOLEAN => 2
    case NUMERIC => 3
  }

  /** The three type constants are distinct. */
  lemma LiteralCodeInjective(a: LiteralType, b: LiteralType)
    ensures LiteralCode(a) == LiteralCode(b) <==> a == b
  {
  }

  datatype Node =
    | Filter(child: Node)
    | ConditionalExpression(conditionalTerms: seq<Node>)
    | ConditionalTerm(conditionalFactors: seq<Node>)
    | ConditionalFactor(not: bool, conditionalPrimary: Node)
    | ConditionalPrimary(simpleConditionalExpression: Option<Node>, conditionalExpression: Option<Node>)
    | ComparisonExpression(leftExpr: Node, operator: string, rightExpr: Node)
    | BetweenExpression(not: bool, expr1: Node, expr2: Node, expr3: Node)
    | LikeExpression(not: bool, stringExpr: Node, stringPattern: Node)
    | InExpression(not: bool, identificationVariableNode: Node, litterals: seq<Node>)
    | NullComparisonExpression(not: bool, expr: Node)
    | Literal(literalType: LiteralType, value: string)
    | IdentificationVariable(value: string)

  /** The classes with a `not` flag and a `setNot` setter. */
  predicate HasNot(n: Node)
  {
    n.ConditionalFactor? || n.BetweenExpression? || n.LikeExpression? || n.InExpression? || n.NullComparisonExpression?
  }

  /** `new ConditionalFactorNode($primary)`: the flag starts false. */
  function NewConditionalFactor(conditionalPrimary: Node): (r: Node)
    requires conditionalPrimary.ConditionalPrimary?
    ensures r.ConditionalFactor? && !r.not && r.conditionalPrimary == conditionalPrimary
  {
    ConditionalFactor(false, conditionalPrimary)
  }

  /** `new ConditionalPrimaryNode()`: both slots start unset. */
  function NewConditionalPrimary(): (r: Node)
    ensures r.ConditionalPrimary? && r.simpleConditionalExpression.None? && r.conditionalExpression.None?
  {
    ConditionalPrimary(None, None)
  }

  /** `new BetweenExpressionNode($expr1, $expr2, $expr3)`: the subject must be
      an identification variable, the bounds any node; the flag starts false. */
  function NewBetweenExpression(expr1: Node, expr2: Node, expr3: Node): (r: Node)
    requires expr1.IdentificationVariable?
    ensures HasNot(r) && !r.not && r.BetweenExpression?
    ensures r.expr1 == expr1 && r.expr2 == expr2 && r.expr3 == expr3
  {
    BetweenExpression(false, expr1, expr2, expr3)
  }

  /** `new LikeExpressionNode($stringExpr, $stringPattern)`. */
  function NewLikeExpression(stringExpr: Node, stringPattern: Node): (r: Node)
    requires stringExpr.IdentificationVariable?
    ensures HasNot(r) && !r.not && r.LikeExpression?
    ensures r.stringExpr == stringExpr && r.stringPattern == stringPattern
  {
    LikeExpression(false, stringExpr, stringPattern)
  }

  /** `new InExpressionNode($identificationVariableNode)`: the literal list
      starts empty. */
  function NewInExpression(identificationVariableNode: Node): (r: Node)
    requires identificationVariableNode.IdentificationVariable?
    ensures HasNot(r) && !r.not && r.InExpression?
    ensures r.identificationVariableNode == identificationVariableNode && r.litterals == []
  {
    InExpression(false, identificationVariableNode, [])
  }

  /** `new NullComparisonExpressionNode($expr)`. */
  function NewNullComparisonExpression(expr: Node): (r: Node)
    requires expr.IdentificationVariable?
    ensures HasNot(r) && !r.not && r.NullComparisonExpression? && r.expr == expr
  {
    NullComparisonExpression(false, expr)
  }

  /** `setNot` of each class that has one: the flag takes the new value and
      nothing else changes. */
  function SetNot(n: Node, not: bool): (r: Node)
    requires HasNot(n)
    ensures HasNot(r) && r.not == not
    ensures r.(not := n.not) == n
  {
    match n
    case ConditionalFactor(_, p) => ConditionalFactor(not, p)
    case BetweenExpression(_, e1, e2, e3) => BetweenExpression(not, e1, e2, e3)
    case LikeExpression(_, e, p) => LikeExpression(not, e, p)
    case InExpression(_, v, ls) => InExpression(not, v, ls)
    case NullComparisonExpression(_, e) => NullComparisonExpression(not, e)
  }

  /** `InExpressionNode::setLiterals`: replaces the whole list and nothing
      else. */
  function SetLiterals(n: Node, literals: seq<Node>): (r: Node)
    requires n.InExpression?
    ensures r.InExpression? && r.litterals == literals
    ensures r.not == n.not && r.identificationVariableNode == n.identificationVariableNode
  {
    InExpression(n.not, n.identificationVariableNode, literals)
  }

  /** `setSimpleConditionalExpression`: any node goes into the simple slot;
      the group slot is untouched. */
  function SetSimpleConditionalExpression(p: Node, e: Node): (r: Node)
    requires p.ConditionalPrimary?
    ensures r.ConditionalPrimary? && r.simpleConditionalExpression == Some(e)
    ensures r.conditionalExpression == p.conditionalExpression
  {
    ConditionalPrimary(Some(e), p.conditionalExpression)
  }

  /** `setConditionalExpression`: its type hint admits only an OR node; any
      other argument is a type error. The simple slot is untouched. */
  function SetConditionalExpression(p: Node, e: Node): (r: Result<Node, Error>)
    requires p.ConditionalPrimary?
    ensures r.Success? <==> e.ConditionalExpression?
    ensures r.Success? ==> r.value.ConditionalPrimary? && r.value.conditionalExpression == Some(e)
    ensures r.Success? ==> r.value.simpleConditionalExpression == p.simpleConditionalExpression
    ensures r.Failure? ==> r.error == TypeError("setConditionalExpression", "ConditionalExpressionNode")
  {
    if e.ConditionalExpression? then Success(ConditionalPrimary(p.simpleConditionalExpression, Some(e)))
    else Failure(TypeError("setConditionalExpression", "ConditionalExpressionNode"))
  }

  /** Setting the flag to what it already is changes nothing, and a second
      `setNot` wins over the first: the setter behaves like a field. */
  lemma SetNotLaws(n: Node, a: bool, b: bool)
    requires HasNot(n)
    ensures SetNot(n, n.not) == n
    ensures SetNot(SetNot(n, a), b) == SetNot(n, b)
  {
  }

  /** `setLiterals` behaves like a field in the same way. */
  lemma SetLiteralsLaws(n: Node, a: seq<Node>, b: seq<Node>)
    requires n.InExpression?
    ensures SetLiterals(n, n.litterals) == n
    ensures SetLiterals(SetLiterals(n, a), b) == SetLiterals(n, b)
  {
  }
}
