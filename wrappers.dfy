/** Option and Result values standing in for Go's (value, ok) and (value, error) pairs. */
module Wrappers {

  datatype Option<+T> = None | Some(value: T)

  /** A Go error is modelled by its message text. */
  datatype Result<+T> = Ok(value: T) | Err(msg: string)
}
