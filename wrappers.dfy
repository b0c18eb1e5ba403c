/** Failure-carrying return values: the model's stand-in for the C++ exceptions
    (`Exception("...")`) and for nullable piece pointers. */
module Wrappers {

  datatype Option<+T> = None | Some(value: T)

  /** Pass, or Fail with the reason the operation was refused. */
  datatype Outcome<+E> = Pass | Fail(error: E)

  datatype Result<+R, +E> = Success(value: R) | Failure(error: E)
}
