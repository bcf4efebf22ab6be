/** Values shared by the modules of this model: Go's nil-able pointers and
    its `(value, error)` returns. */
module Common {

  /** A Go `error`; only its message is observable here. */
  datatype Error = Error(message: string)

  /** A pointer that may be nil. */
  datatype Option<T> = None | Some(value: T)

  /** A `(value, error)` pair in which exactly one side is meaningful. */
  datatype Result<T> = Success(value: T) | Failure(error: Error)
}
