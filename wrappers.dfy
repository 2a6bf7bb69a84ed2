/** Option and Result: what a handler gets back from a step that can fail. */
module Wrappers {

  datatype Option<+T> = None | Some(value: T)

  /** The outcome of a store call: a value, or the message of the error it threw. */
  datatype Result<+T> = Ok(value: T) | Err(message: string)
}
