/** The exceptions the modelled Python code raises, as values, and the outcome of
    an operation that either returns a value or raises one of them. */
module Outcomes {

  /** Python's built-in exceptions, as far as the curves and the bond constructor raise them. */
  datatype PyError =
    | IndexError              // `xs[0]` or `xs[-1]` on an empty list
    | ValueError(message: string)
    | TypeError               // an operator applied to operands of unsupported types
    | ZeroDivisionError       // a float or timedelta divided by zero

  /** Either the value a Python call returns or the exception it raises. */
  datatype Result<+T> = Ok(value: T) | Err(error: PyError) {
    predicate IsFailure() { Err? }

    function PropagateFailure<U>(): Result<U>
      requires Err?
    {
      Err(error)
    }

    function Extract(): T
      requires Ok?
    {
      value
    }
  }

  /** A Python value that may be `None`. */
  datatype Option<+T> = None | Some(value: T)
}
