/** Result and outcome types for the operations that raise an error in the source. */
module Wrappers {
  /** A computed value, or the message of the error the source raises instead. */
  datatype Result<T> = Ok(value: T) | Err(msg: string)

  /** Completion of an operation that returns nothing, or the error it raises. */
  datatype Outcome = Pass | Fail(msg: string)
}
