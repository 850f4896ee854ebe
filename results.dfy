/** Failure-carrying return values: Java's `null` returns and thrown exceptions become these. */
module Results {

  /** A lookup that may find nothing (`Map.get` returning `null`, a parse that throws). */
  datatype Option<+T> = None | Some(value: T)

  /** A computation that either returns a value or throws the exception described by `error`. */
  datatype Result<+T, +E> = Success(value: T) | Failure(error: E)
}
