/** Failure-carrying datatypes used throughout the model. */
module Results {

  /** A value that may be absent: a missing CSV cell (NaN), an exhausted prompt, an empty column. */
  datatype Option<+T> = None | Some(value: T)

  /** Either a computed value or the error the script would raise instead. */
  datatype Result<+T, +E> = Ok(value: T) | Err(error: E)
}
