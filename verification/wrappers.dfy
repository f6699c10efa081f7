/** Result types for operations that can fail. */
module Wrappers {

  datatype Option<+T> = None | Some(value: T)

  /** A value, or the error the program reports. */
  datatype Result<+T> = Ok(value: T) | Err(error: string)
}
