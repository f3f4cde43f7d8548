/** Shared vocabulary: optional values and results that stand for the source's thrown errors. */
module Common {
  datatype Option<+T> = None | Some(value: T)

  datatype Result<+T, +E> = Ok(value: T) | Err(error: E)
}
