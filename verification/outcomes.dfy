/**
 * Values and failures shared by the three components: a `Result` for the
 * operations that can throw in the original program, and the closed set of
 * exceptions those operations raise.
 */
module Outcomes {

  /** The exceptions the modelled code can raise. */
  datatype Error =
    | EmptyStack                    // java.util.EmptyStackException from Stack.pop()
    | DivisionByZero                // ArithmeticException, thrown before a division by 0
    | UnmatchedParenthesis(expr: string)  // RuntimeException("Непарная скобка в выражении: " + expr)
    | InvalidExpression(expr: string)     // RuntimeException("Неверное выражение: " + expr)
    | IndexOutOfBounds              // StringIndexOutOfBounds / ArrayIndexOutOfBounds
    | FunctionFailure               // an exception raised inside a function call (sqrt, sin, ...)
    | StackOverflow                 // StackOverflowError from a recursion that never ends
  {
    /** A java.lang.Error rather than an Exception: `catch (Exception e)` does not stop it. */
    predicate IsFatal() { StackOverflow? }
  }

  datatype Option<+T> = None | Some(value: T)

  datatype Result<+T> = Ok(value: T) | Err(error: Error) {
    predicate IsFailure() { Err? }

    function PropagateFailure<U>(): Result<U>
      requires Err?
    {
      Err(error)
    }

    function Extract(): T
      requires Ok?
    {
      value
    }
  }
}
