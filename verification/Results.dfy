/** Optional values, and results that are either a value or an error, as the Go functions return them side by side. */
module Results {
  datatype Option<+T> = None | Some(value: T)
  datatype Result<+T, +E> = Ok(value: T) | Err(error: E)
}
