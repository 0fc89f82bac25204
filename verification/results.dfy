/** Outcome types shared by the store model. */
module Results {

  /** A value that may be absent, as an optional TypeScript parameter or property. */
  datatype Option<+T> = None | Some(value: T)

  /** Either a new value or the error an operation throws. */
  datatype Result<+T, +E> = Ok(value: T) | Err(error: E)
}
