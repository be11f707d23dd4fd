/** Failure-compatible wrappers shared by the model: the Python code signals
    failures by raising, which the model returns as `Failure` values. */
module Outcomes {

  datatype Option<+T> = None | Some(value: T)

  datatype Result<+T, +E> = Success(value: T) | Failure(error: E)
}
