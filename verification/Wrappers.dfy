/** The two failure-carrying datatypes every component shares. */
module Wrappers {
  datatype Option<+T> = None | Some(value: T)

  /** Stands for a C++ or Python function that either returns or throws. */
  datatype Result<+T, +E> = Success(value: T) | Failure(error: E)
}
