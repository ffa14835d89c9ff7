/** Failure-carrying datatypes shared by the whole model.
    - Option<T> stands for Go's `(value, ok)` pairs;
    - Outcome<E> stands for a Go function that only returns `error` (nil is Pass);
    - Result<T, E> stands for a Go function that returns `(value, error)`. */
module Wrappers {

  datatype Option<+T> = None | Some(value: T)

  datatype Outcome<+E> = Pass | Fail(error: E)

  datatype Result<+T, +E> = Success(value: T) | Failure(error: E)
}
