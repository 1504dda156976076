/** Small failure-carrying datatypes shared by the other modules. */
module Wrappers {

  /** A value that may be missing: a polling loop whose reading trace runs out before its exit test holds. */
  datatype Option<+T> = None | Some(value: T)

  /** A value or the reason it was refused. */
  datatype Result<+T, +E> = Ok(value: T) | Err(error: E)
}
