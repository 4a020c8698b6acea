/** The two result shapes every layer shares: an optional value, and the
    answer of an HTTP handler (a success status with a body, or an error
    status with the handler's message). */
module Wrappers {

  datatype Option<T> = None | Some(value: T)

  datatype Reply<T> = Ok(status: int, body: T) | Fail(status: int, message: string)
}
