/** Success and failure values shared by the other modules. */
module Results {

  datatype Option<+T> = None | Some(value: T)

  /** A handler either commits a value or raises one error and changes nothing. */
  datatype Result<+T, +E> = Ok(value: T) | Err(error: E)
}
