/** Failure-carrying values shared by every module of the model.

    The Python package signals failure by raising exceptions; the model
    returns a `Result` whose `Err` case names the kind of exception that
    the corresponding Python code raises.
 */
module Outcomes {

  /** An optional value; `None` plays the role of Python's `None`. */
  datatype Option<+T> = None | Some(value: T)

  /** The exception kinds raised by the modelled code. */
  datatype Error =
    | Overlap          // RangeOverlapError, CategoryOverlapError, VariableOverlapError
    | OperationError   // RangeOperationError, VariableOperationError
    | NotCreated       // VariableNotCreatedError
    | Validation       // a payload rejected by the spec's value check
    | TypeError
    | AttributeError
    | KeyError
    | IndexError
    | ValueError
    | AssertionError
    | RecursionError
    | ZeroDivisionError
    | Unmodelled       // a float value, which lies outside the model

  datatype Result<+T> = Ok(value: T) | Err(error: Error) {
    predicate IsFailure() {
      Err?
    }

    function PropagateFailure<U>(): Result<U>
      requires Err?
    {
      Err(error)
    }

    function Extract(): T
      requires Ok?
    {
      value
    }
  }

  /** `Ok(())` when the condition holds, otherwise the given error. */
  function Need(condition: bool, e: Error): (r: Result<()>)
    ensures r.Ok? <==> condition
    ensures !condition ==> r == Err(e)
  {
    if condition then Ok(()) else Err(e)
  }
}
