/** Failure-carrying result types shared by the modules of the ZFS driver model. */
module Wrappers {

  /** A value that may be absent; for a Go `error` result, None stands for `nil`. */
  datatype Option<+T> = None | Some(value: T)

  /** A value or the reason it could not be produced. */
  datatype Result<+T, +E> = Ok(value: T) | Err(error: E)
}
