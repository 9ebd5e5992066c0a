/** Option and Result values for the Python `None` and for the exceptions the
    modelled code can raise. */
module Results {

  /** A Python value that may be `None`. */
  datatype Option<+T> = None | Some(value: T)

  /** The outcome of a Python expression that may raise instead of returning. */
  datatype Result<+T, +E> = Ok(value: T) | Err(error: E)
}
