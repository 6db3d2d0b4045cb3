/** The exception the parser throws, with its three factories, and the error
    values a parse can end in. */
module Exceptions {
  import opened Wrappers

  /** A PHP exception reduced to what the factories set: message, code and
      the chained previous exception. */
  datatype ExpressionException = ExpressionException(
    message: string,
    code: int,
    previous: Option<ExpressionException>)

  const SyntaxPrefix: string := "[Syntax Error] "
  const SemanticalPrefix: string := "[Semantical Error] "

  /** `expressionError`: the expression itself is the message. */
  function ExpressionError(expression: string): (e: ExpressionException)
    ensures e.message == expression && e.code == 0 && e.previous.None?
  {
    ExpressionException(expression, 0, None)
  }

  /** `syntaxError`: the message behind the syntax prefix, code 0, and the
      previous exception passed through. */
  function SyntaxError(message: string, previous: Option<ExpressionException>): (e: ExpressionException)
    ensures |e.message| == |SyntaxPrefix| + |message|
    ensures e.message[..|SyntaxPrefix|] == SyntaxPrefix && e.message[|SyntaxPrefix|..] == message
    ensures e.code == 0 && e.previous == previous
  {
    ExpressionException(SyntaxPrefix + message, 0, previous)
  }

  /** `semanticalError`: the same shape behind the semantical prefix. */
  function SemanticalError(message: string, previous: Option<ExpressionException>): (e: ExpressionException)
    ensures |e.message| == |SemanticalPrefix| + |message|
    ensures e.message[..|SemanticalPrefix|] == SemanticalPrefix && e.message[|SemanticalPrefix|..] == message
    ensures e.code == 0 && e.previous == previous
  {
    ExpressionException(SemanticalPrefix + message, 0, previous)
  }

  /** A syntax error and a semantical error can never be mistaken for each
      other, whatever their messages. */
  lemma SyntaxNotSemantical(m1: string, p1: Option<ExpressionException>, m2: string, p2: Option<ExpressionException>)
    ensures SyntaxError(m1, p1) != SemanticalError(m2, p2)
  {
    assert SyntaxError(m1, p1).message[2] == 'y';
    assert SemanticalError(m2, p2).message[2] == 'e';
  }

  /** Each prefixed factory keeps its whole input: equal exceptions come
      from equal messages and equal previous exceptions. */
  lemma FactoriesInjective(m1: string, p1: Option<ExpressionException>, m2: string, p2: Option<ExpressionException>)
    ensures SyntaxError(m1, p1) == SyntaxError(m2, p2) ==> m1 == m2 && p1 == p2
    ensures SemanticalError(m1, p1) == SemanticalError(m2, p2) ==> m1 == m2 && p1 == p2
  {
  }

  /** How a parse fails: a thrown `ExpressionException`, or the engine's
      type error when a setter's parameter type hint rejects its argument. */
  datatype Error =
    | Thrown(exception: ExpressionException)
    | TypeError(setter: string, expected: string)
}
