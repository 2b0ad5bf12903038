/** Small shared types. */
module Prelude {
  /** The id of a row. */
  type Id = nat

  datatype Option<+T> = None | Some(value: T)

  datatype Result<+T, +E> = Ok(value: T) | Err(error: E)
}
