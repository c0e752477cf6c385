// The error kinds the parsers report, and the result wrappers every operation
// of the model returns instead of throwing.

module Errors {

  /** Java runtime exceptions that the source lets escape unchecked. */
  datatype RuntimeFault =
    | EmptyStack              // java.util.EmptyStackException from Stack.peek/pop
    | IndexOutOfBounds        // StringIndexOutOfBoundsException from String.charAt
    | NumberFormat            // NumberFormatException from Double.parseDouble / new BigDecimal
    | NullFunction            // NullPointerException: a client function missing from the table consulted
    | NonTerminatingQuotient  // ArithmeticException from BigDecimal.divide
    | IntOverflow             // ArithmeticException from Math.toIntExact

  /** The kinds of ExpressionParserException (exceptions/ErrorType.java and the StringParser error types). */
  datatype ErrorType =
    | NoExpressionError
    | DivisionByZeroError
    | VariableDetectedError
    | IncorrectVariablesQuantityError
    | IncorrectNumberType
    | IncorrectLogicType
    | IncorrectVariableValueType
    | SyntaxError
    | BracketError
    | IncorrectValuesQuantityError
    | Runtime(fault: RuntimeFault)

  datatype Result<+T> = Ok(value: T) | Err(error: ErrorType)
  {
    predicate IsFailure() { Err? }
    function PropagateFailure<U>(): Result<U> requires Err? { Err(error) }
    function Extract(): T requires Ok? { value }
  }

  datatype Option<+T> = None | Some(value: T)

  /** The result of an operation that produces nothing but may fail. */
  datatype Outcome = Pass | Fail(error: ErrorType)
  {
    predicate IsFailure() { Fail? }
    function PropagateFailure(): Outcome requires Fail? { this }
  }
}
