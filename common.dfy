/** Values shared by every part of the model: raw bytes and the two wrappers
    that stand for Go's `(value, error)` returns. */
module Common {

  /** An encoded image, exactly as read from or written to a file. */
  type Bytes = seq<bv8>

  /** A Go `error` that may be nil: `None` is nil, `Some(msg)` carries `err.Error()`. */
  datatype Option<+T> = None | Some(value: T)

  /** A Go `(T, error)` pair where exactly one side is meaningful. */
  datatype Result<+T> = Ok(value: T) | Err(error: string)
}
