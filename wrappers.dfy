/** The result and option types shared by the whole model. */
module Wrappers {

  /** An optional value: the outcome of a conversion that may fail. */
  datatype Option<+T> = None | Some(value: T)

  /** A computed value, or the message of the `ValueError` the source raises. */
  datatype Result<+T> = Ok(value: T) | Err(msg: string)
}
