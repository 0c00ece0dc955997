/** Outcomes of operations that raise in the original program. */
module Results {

  /** The exceptions the original program raises: `ValueError("Malformed path")`
      from the strategy constructor, a bare `ValueError` for a non-positive size,
      and the `TypeError`/`AttributeError` of combining an integer with a strategy. */
  datatype Error = Malformed | InvalidArgument | TypeMismatch

  datatype Result<T> = Ok(value: T) | Err(error: Error)

  datatype Option<T> = None | Some(value: T)
}
