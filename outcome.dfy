/** The shape of Go's `error` return: nil, or an error carrying a message. */
module Outcomes {
  datatype Outcome = Ok | Err(message: string)

  datatype Option<T> = None | Some(value: T)
}
