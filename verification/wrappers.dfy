/** Failure-carrying datatypes shared by the modules of this model: Go's
    `(value, error)` pairs become `Result`, and a nil-or-value becomes `Option`. */
module Wrappers {

  datatype Option<+T> = None | Some(value: T)

  /** `Ok(value)` stands for a Go return with a nil error, `Err(error)` for a
      non-nil one (whose other results the callers in this model never use). */
  datatype Result<+T, +E> = Ok(value: T) | Err(error: E)
}
