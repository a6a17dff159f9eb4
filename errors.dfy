/** The exceptions the static pipeline throws, and a result type that carries them. */
module Errors {

  datatype Failure =
    | MismatchedParentheses          // 'Mismatched parentheses'
    | UnexpectedEndOfExpression      // 'Unexpected end of expression'
    | DivisionByZero                 // 'Division by zero is forbidden in mathmatic'
    | UnsupportedOperator(op: string) // 'Unsupported operator: <op>'

  datatype Result<+T> = Ok(value: T) | Err(error: Failure)
}
