module Options {
  datatype Option<T> = None | Some(value: T)

  /** The value of an operation, or its failure. */
  datatype Result<T> = Ok(value: T) | Err
}
