/** Optional values and success-or-error outcomes, shared by the modules of the model. */
module Results {

  /** A value that may be absent; `None` also stands for a slot nothing has written yet. */
  datatype Option<+T> = None | Some(value: T)

  /** The outcome of an operation that may fail with an error of type `E`. */
  datatype Result<+T, +E> = Success(value: T) | Failure(error: E)
}
