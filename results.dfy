/** Failure-carrying datatypes shared by the model: Go's `(value, err)` pairs and nil pointers. */
module Results {

  /** A value that may be absent: a nil `*T` in Go, or a parse that failed. */
  datatype Option<+T> = None | Some(value: T)

  /** Either a value or an error: Go's `(*T, *E)` return pair where exactly one is nil. */
  datatype Result<+T, +E> = Success(value: T) | Failure(error: E)
}
