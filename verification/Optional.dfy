/** Values that may be absent, and results of operations that may be refused. */
module Optional {
  datatype Option<+T> = None | Some(value: T)

  datatype Result<+T, +E> = Ok(value: T) | Err(error: E)
}
