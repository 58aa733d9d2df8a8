/** Failure-carrying return values shared by every module of the model. */
module Wrappers {

  /** A value that may be absent, Python's `None` or a Django lookup miss. */
  datatype Option<+T> = None | Some(value: T)

  /** Either a value or the error wger raises or reports. */
  datatype Result<+R, +E> = Ok(value: R) | Err(error: E)
}
