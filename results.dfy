/** Option and Result values used for the absent and error outcomes of the blob store. */
module Results {

  /** A value that may be absent: Python's `None` versus a present value. */
  datatype Option<+T> = None | Some(value: T)

  /** Either a value or an error, for operations that raise or reject in the source. */
  datatype Result<+T, +E> = Ok(value: T) | Err(error: E)
}
