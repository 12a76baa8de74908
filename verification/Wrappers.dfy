/** Results of operations that can fail. */
module Wrappers {

  /** An operation that changes something or reports why it did not. */
  datatype Outcome<+E> = Pass | Fail(error: E)

  datatype Option<+T> = None | Some(value: T)

  /** `Err` is an error the caller gets back, `Panic` an assertion or `unwrap` that stops the kernel. */
  datatype Result<+T, +E> = Ok(value: T) | Err(error: E) | Panic
}
