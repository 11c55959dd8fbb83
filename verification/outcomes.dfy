/** Outcomes of the calls the model cannot see into: remote chain queries,
    connection set-up and tear-down, and the caller's code inside a scope. */
module Outcomes {

  /** The Python exception classes that the connection manager tells apart. */
  datatype ErrorKind =
    | AttributeError
    | ConnectionError
    | OverflowError         // raised by `datetime` arithmetic outside its range
    | OtherException        // any other subclass of `Exception`
    | Cancelled             // a `BaseException` that is not an `Exception`, e.g. `asyncio.CancelledError`
    | GeneratorDidNotStop   // the `RuntimeError` contextlib raises when a context generator yields twice
  {
    /** True if an `except Exception` clause catches it. */
    predicate IsException() {
      !Cancelled?
    }
  }

  /** How a call that returns nothing of interest ended. */
  datatype Completion = Normal | Raised(kind: ErrorKind)

  /** A call that returns a value or raises. */
  datatype Result<+T> = Ok(value: T) | Err(error: ErrorKind)

  datatype Option<+T> = None | Some(value: T)
}
