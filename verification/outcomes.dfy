/** Failure-carrying values shared by the parser and the two scripts. */
module Outcomes {

  /** A value that may be absent: the result of a conversion that can fail. */
  datatype Option<+T> = None | Some(value: T)

  /** Either the value a step computed or the reason the whole step failed. */
  datatype Result<+T, +E> = Ok(value: T) | Err(error: E)
}
