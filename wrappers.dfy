/** Failure-carrying values: the model's stand-in for Python exceptions. */
module Wrappers {

  /** None stands for "the call raised"; Some carries the value it returned. */
  datatype Option<+T> = None | Some(value: T)

  /** A value or the error the Python code raises instead of returning. */
  datatype Result<+R, +E> = Success(value: R) | Failure(error: E)
}
