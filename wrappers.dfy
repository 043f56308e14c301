/** The optional-value and value-or-error datatypes shared by the other modules. */
module Wrappers {

  /** Python's `None` or a present value. */
  datatype Option<+T> = None | Some(value: T)

  /** A value, or the message of the exception Python would raise instead. */
  datatype Result<+T> = Ok(value: T) | Err(error: string)
}
