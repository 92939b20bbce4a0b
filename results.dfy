/** The optional-value and error-return shapes used by the TCP codec. */
module Results {

  datatype Option<+T> = None | Some(value: T)

  /** The value-or-error result every fallible operation of the codec returns. */
  datatype Result<+T, +E> = Ok(value: T) | Err(error: E)
}
