/** Outcome types for the Python code's error paths: a missing value is `None`,
    an exception the source raises is `Err` with the exception's message. */
module Wrappers {

  datatype Option<+T> = None | Some(value: T)

  datatype Result<+T> = Ok(value: T) | Err(msg: string)
}
