/** Option and Result, the two failure-carrying wrappers the model uses for
    Python's `None` and for operations that raise. */
module Wrappers {

  datatype Option<+T> = None | Some(value: T)

  /** The outcome of an operation that the source may abort with an exception;
      `error` describes the exception. */
  datatype Result<+T> = Ok(value: T) | Err(error: string)
}
