/** Option and result wrappers shared by the modules of this model. */
module Wrappers {

  /** A value that may be absent (a failed `TryGetValue`, a missing key). */
  datatype Option<+T> = None | Some(value: T)

  /** The outcome of an operation that either returns a value or throws. */
  datatype Result<+T, +E> = Ok(value: T) | Err(error: E)

  /** The `KeyNotFoundException` of a failed dictionary lookup. */
  datatype LookupError = KeyNotFound(key: string)
}
