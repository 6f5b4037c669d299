/** Error-or-value wrappers used for the Go functions that return `(T, error)`. */
module Outcomes {

  datatype Option<+T> = None | Some(value: T)

  /** `Err` carries the text of the Go error that the source builds. */
  datatype Result<+T> = Ok(value: T) | Err(message: string)
}
