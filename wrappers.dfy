/** Failure-carrying values shared by the model: Go's `(value, error)` pairs
    become a Result whose failure side holds the error's text. */
module Wrappers {

  datatype Option<+T> = None | Some(value: T)

  /** Ok carries the value of a call that returned a nil error; Err carries
      the text of the error (what `err.Error()` would print). */
  datatype Result<+T> = Ok(value: T) | Err(msg: string)
}
