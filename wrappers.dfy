/** Option and Result: a missing value and an operation that can raise. */
module Wrappers {

  datatype Option<+T> = None | Some(value: T)

  /** The exception classes the modelled code raises or lets escape. */
  datatype Error =
    | ValueError
    | TypeError
    | KeyError
    | AttributeError
    | ZeroDivisionError
    | QueueEmpty
    | QueueFull

  datatype Result<+T> = Ok(value: T) | Err(error: Error)
}
