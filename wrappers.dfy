/** Outcome of an operation that the Python code lets fail with an exception. */
module Wrappers {

  /** The exceptions the modelled code can raise. */
  datatype Error =
    | AssertionError     // a failed `assert` in a constructor
    | ValueError         // numpy refuses a reshape or a transpose
    | IndexError         // an index out of range, or indexing a 0-d array
    | ZeroDivisionError  // `//` by zero
    | TypeError          // a call with the wrong number or kind of arguments

  datatype Result<+T> = Ok(value: T) | Err(error: Error) {
    predicate IsFailure() { Err? }

    function PropagateFailure<U>(): Result<U>
      requires Err?
    {
      Err(error)
    }

    function Extract(): T
      requires Ok?
    {
      value
    }
  }

  datatype Option<+T> = None | Some(value: T)
}
