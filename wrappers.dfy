/** Failure-compatible result types shared by the client and the server models. */
module Wrappers {

  /** A value that may be absent; in the JavaScript models `None` stands for `undefined`. */
  datatype Option<+T> = None | Some(value: T)

  /** The outcome of an operation that can fail with an error of type `E`. */
  datatype Result<+T, +E> = Ok(value: T) | Err(error: E)
}
