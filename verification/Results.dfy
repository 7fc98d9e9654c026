// The two-valued returns of the source: a value or an error, and a value that may be missing.
module Results {
  datatype Result<+T> = Ok(value: T) | Err(message: string)
  datatype Option<+T> = None | Some(value: T)
}
