/** Plain wrappers for the optional values, results and exceptions of the Python code. */
module Wrappers {

  /** Python's `None` or a present value. */
  datatype Option<+T> = None | Some(value: T)

  /** The Python exceptions the core can raise. */
  datatype Error =
    | ValueError  // raised explicitly by `Board.isLineComplete`
    | IndexError  // raised by Python list indexing out of range

  /** A result that is either a value or a raised exception. */
  datatype Result<+T> = Ok(value: T) | Err(error: Error)
}
