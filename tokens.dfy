/** Tokens of the calculator and the outcomes of evaluating them. */
module Tokens {

  /** The operator and bracket symbols of `enum ops`. */
  datatype Op = LeftBracket | RightBracket | Plus | Minus | Times | Divide

  /** A token: a NUMBER carrying its value, or an OP carrying its symbol.
      The FUNC kind is declared by the program but never built, so it is not here. */
  datatype Token = Number(value: real) | Operator(op: Op)

  /** The ways an evaluation is aborted. The first four are the program's syntax
      errors; MissingBracketResult and NotSingleNumber are its failing assertions;
      DivisionByZero stands for the floating-point division by zero the model does not carry. */
  datatype Error =
    | UnclosedBracket          // "Syntax error: unclosed (."
    | UnexpectedRightBracket   // "Syntax error: unexpected )."
    | RightBracketExpected     // "Syntax error: ) expected."
    | InvalidInfixRhs          // "Invalid RHS for infix op."
    | MissingBracketResult     // assertion after a bracket was reduced
    | NotSingleNumber          // assertion on the final list
    | DivisionByZero

  datatype Option<T> = None | Some(value: T)

  datatype Result<T> = Ok(value: T) | Err(error: Error)

  /** Success or failure of a step that returns no value. */
  datatype Outcome = Pass | Fail(error: Error)

  /** The six characters that become OP tokens. */
  predicate IsOpChar(c: char)
  {
    c == '(' || c == ')' || c == '+' || c == '-' || c == '*' || c == '/'
  }

  /** The character each operator is written with. */
  function CharOfOp(op: Op): (c: char)
    ensures IsOpChar(c)
  {
    match op
    case LeftBracket => '('
    case RightBracket => ')'
    case Plus => '+'
    case Minus => '-'
    case Times => '*'
    case Divide => '/'
  }

  /** `op_get_from_chr`: the operator written by an operator character. */
  function OpOfChar(c: char): (op: Op)
    requires IsOpChar(c)
    ensures CharOfOp(op) == c
  {
    if c == '(' then LeftBracket
    else if c == ')' then RightBracket
    else if c == '+' then Plus
    else if c == '-' then Minus
    else if c == '*' then Times
    else Divide
  }

  /** Reading back the character of an operator gives that operator. */
  lemma OpOfCharOfOp(op: Op)
    ensures OpOfChar(CharOfOp(op)) == op
  {
  }

  /** The four operators an infix fold applies. */
  predicate IsArithmetic(op: Op)
  {
    op == Plus || op == Minus || op == Times || op == Divide
  }

  /** The value a fold `a op b` stores in its left operand. */
  function Combine(op: Op, a: real, b: real): (r: Result<real>)
    requires IsArithmetic(op)
    ensures r.Err? <==> op == Divide && b == 0.0
    ensures r.Err? ==> r.error == DivisionByZero
    ensures r.Ok? && op == Divide ==> r.value * b == a
    ensures r.Ok? && op == Minus ==> r.value + b == a
  {
    match op
    case Plus => Ok(a + b)
    case Minus => Ok(a - b)
    case Times => Ok(a * b)
    case Divide => if b == 0.0 then Err(DivisionByZero) else Ok(a / b)
  }
}
