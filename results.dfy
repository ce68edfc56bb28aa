/** Option and Result values used for the source's None returns and raised errors. */
module Results {

  datatype Option<+T> = None | Some(value: T)

  /** A computation that either produced a value or raised an error with a message. */
  datatype Result<+T> = Ok(value: T) | Err(msg: string)
}
