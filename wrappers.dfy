/** Small optional and outcome types used across the model. */
module Wrappers {
  /** An optional value: Python's `Optional[T]` / `None`. */
  datatype Option<+T> = None | Some(value: T)

  /** The outcome of an operation that either succeeds or raises. */
  datatype Outcome<+E> = Pass | Fail(error: E)
}
