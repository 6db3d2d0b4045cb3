/** Token kinds of the filter-expression lexer, with the integer codes the
    lexer class declares as constants, and the token record itself. */
module Tokens {
  import opened Wrappers

  datatype TokenKind =
    // Kinds that are never identifiers: codes below 100.
    | NONE | INTEGER | STRING | FLOAT
    | CLOSE_PARENTHESIS | OPEN_PARENTHESIS | COMMA
    | EQUALS | GREATER_THAN | LOWER_THAN | NEGATE
    // The identifier kind itself: code 100.
    | IDENTIFIER
    // Keywords, which are also valid identifiers: codes above 100.
    | AND | BETWEEN | FALSE | IN | IS | LIKE | NOT | NULL | OR | TRUE

  /** A scanned lexeme: its kind, its (possibly unescaped) text and its
      character offset in the expression. */
  datatype Token = Token(kind: TokenKind, value: string, position: nat)

  /** The integer value of the `T_*` constant for each kind. */
  function Code(k: TokenKind): int
  {
    match k
    case NONE => 1
    case INTEGER => 2
    case STRING => 3
    case FLOAT => 4
    case CLOSE_PARENTHESIS => 5
    case OPEN_PARENTHESIS => 6
    case COMMA => 7
    case EQUALS => 9
    case GREATER_THAN => 10
    case LOWER_THAN => 11
    case NEGATE => 12
    case IDENTIFIER => 100
    case AND => 102
    case BETWEEN => 107
    case FALSE => 119
    case IN => 123
    case IS => 127
    case LIKE => 131
    case NOT => 135
    case NULL => 136
    case OR => 139
    case TRUE => 148
  }

  /** The constant's name without its `T_` prefix. */
  function Name(k: TokenKind): string
  {
    match k
    case NONE => "NONE"
    case INTEGER => "INTEGER"
    case STRING => "STRING"
    case FLOAT => "FLOAT"
    case CLOSE_PARENTHESIS => "CLOSE_PARENTHESIS"
    case OPEN_PARENTHESIS => "OPEN_PARENTHESIS"
    case COMMA => "COMMA"
    case EQUALS => "EQUALS"
    case GREATER_THAN => "GREATER_THAN"
    case LOWER_THAN => "LOWER_THAN"
    case NEGATE => "NEGATE"
    case IDENTIFIER => "IDENTIFIER"
    case AND => "AND"
    case BETWEEN => "BETWEEN"
    case FALSE => "FALSE"
    case IN => "IN"
    case IS => "IS"
    case LIKE => "LIKE"
    case NOT => "NOT"
    case NULL => "NULL"
    case OR => "OR"
    case TRUE => "TRUE"
  }

  /** Looking up a class constant by the name following `T_`: the lexer
      builds that name from an upper-cased lexeme and asks whether it is
      defined. */
  function ConstantNamed(name: string): (r: Option<TokenKind>)
    ensures r.Some? ==> Name(r.value) == name
  {
    match name
    case "NONE" => Some(NONE)
    case "INTEGER" => Some(INTEGER)
    case "STRING" => Some(STRING)
    case "FLOAT" => Some(FLOAT)
    case "CLOSE_PARENTHESIS" => Some(CLOSE_PARENTHESIS)
    case "OPEN_PARENTHESIS" => Some(OPEN_PARENTHESIS)
    case "COMMA" => Some(COMMA)
    case "EQUALS" => Some(EQUALS)
    case "GREATER_THAN" => Some(GREATER_THAN)
    case "LOWER_THAN" => Some(LOWER_THAN)
    case "NEGATE" => Some(NEGATE)
    case "IDENTIFIER" => Some(IDENTIFIER)
    case "AND" => Some(AND)
    case "BETWEEN" => Some(BETWEEN)
    case "FALSE" => Some(FALSE)
    case "IN" => Some(IN)
    case "IS" => Some(IS)
    case "LIKE" => Some(LIKE)
    case "NOT" => Some(NOT)
    case "NULL" => Some(NULL)
    case "OR" => Some(OR)
    case "TRUE" => Some(TRUE)
    case _ => None
  }

  /** The ten keyword kinds. */
  predicate IsKeyword(k: TokenKind)
  {
    k in {AND, BETWEEN, FALSE, IN, IS, LIKE, NOT, NULL, OR, TRUE}
  }

  /** The kinds that can never stand for an identifier. */
  predicate IsNonIdentifier(k: TokenKind)
  {
    !IsKeyword(k) && k != IDENTIFIER
  }

  /** The layout the parser's `match` relies on: non-identifier kinds are
      coded below 100, IDENTIFIER is exactly 100 and keywords are above 100. */
  lemma CodeLayout(k: TokenKind)
    ensures IsNonIdentifier(k) <==> 0 < Code(k) < 100
    ensures k == IDENTIFIER <==> Code(k) == 100
    ensures IsKeyword(k) <==> Code(k) > 100
  {
  }

  /** Distinct kinds have distinct codes, so comparing codes is comparing kinds. */
  lemma CodeInjective(a: TokenKind, b: TokenKind)
    ensures Code(a) == Code(b) <==> a == b
  {
  }

  /** Every kind's constant can be found again by its name. */
  lemma ConstantNamedRoundTrip(k: TokenKind)
    ensures ConstantNamed(Name(k)) == Some(k)
  {
  }

  /** What the base lexer's `getLiteral` reports for a kind in error
      messages: the class-qualified constant name. */
  function KindLiteral(k: TokenKind): (r: string)
    ensures |r| > |ConstantPrefix| && r[..|ConstantPrefix|] == ConstantPrefix
    ensures ConstantNamed(r[|ConstantPrefix|..]) == Some(k)
  {
    ConstantNamedRoundTrip(k);
    ConstantPrefix + Name(k)
  }

  /** The lexer class's name and the `T_` of its constants. */
  const ConstantPrefix: string := "Swop\\FilterExpressionParser\\Lexer\\Lexer::T_"

  /** Distinct kinds are reported under distinct names. */
  lemma KindLiteralInjective(a: TokenKind, b: TokenKind)
    ensures KindLiteral(a) == KindLiteral(b) <==> a == b
  {
    if KindLiteral(a) == KindLiteral(b) {
      assert KindLiteral(a)[|ConstantPrefix|..] == KindLiteral(b)[|ConstantPrefix|..];
    }
  }
}
