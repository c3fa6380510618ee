/** Failure-compatible wrappers shared by the modules of the bridge model. */
module Outcomes {

  /** An optional value: an environment variable that may be unset, a query key that may be absent. */
  datatype Option<+T> = None | Some(value: T)

  /** The value of a configuration step, or the error that makes the process abort. */
  datatype Result<+R, +E> = Success(value: R) | Failure(error: E)
}
