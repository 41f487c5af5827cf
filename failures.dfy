/** Failure-carrying results for the rewrite engine and its evaluator.
    Each exception the library (or .NET underneath it) can raise on the
    modelled paths becomes one tag of `Error`. */
module Failures {

  datatype Error =
    | NotActivated            // NotImplementedException thrown by the marker's own body
    | UnsupportedTargetShape  // NotSupportedException: marker argument is not a construction lambda
    | UnhandledExpression     // ArgumentException: node or lambda body of a kind the parser does not handle
    | IndexOutOfRange         // ArgumentOutOfRangeException: Arguments[i] or Parameters[0] does not exist
    | NullReference           // member access on something that is not an object (evaluator only)
    | NotEvaluable            // a node the small evaluator does not interpret (evaluator only)

  datatype Result<T> = Ok(value: T) | Err(error: Error) {
    predicate IsFailure() { Err? }

    function PropagateFailure<U>(): Result<U>
      requires Err?
    {
      Err(error)
    }

    function Extract(): T
      requires Ok?
    {
      value
    }
  }

  datatype Option<T> = None | Some(value: T)
}
