/** Failure-carrying results for the operations that raise a Python exception. */
module Wrappers {

  datatype Option<+T> = None | Some(value: T)

  /** The Python exceptions the modelled code can raise. */
  datatype Error = ValueError | IndexError | AttributeError

  /** A value, or the exception raised instead of returning it. */
  datatype Result<+T> = Ok(value: T) | Err(error: Error)

  /** The outcome of a procedure that returns nothing: it finished, or it raised. */
  datatype Outcome = Pass | Fail(error: Error)
}
