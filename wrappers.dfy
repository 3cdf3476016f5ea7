/** Option and Result wrappers, and the shape of a Go `error` value. */
module Wrappers {

  datatype Option<+T> = None | Some(value: T)

  datatype Result<+T> = Ok(value: T) | Fail(error: Error)

  /** A Go `error`: only its `Error()` text is observable. `nil` is `None` in an `Option<Error>`. */
  datatype Error = Error(text: string)
}
