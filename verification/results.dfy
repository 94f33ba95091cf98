/** Failure-carrying values shared by the listing planner and the field administration. */
module Results {

  /** A value that may be absent: an unset request parameter, a missing array entry. */
  datatype Option<+T> = None | Some(value: T)

  /** The outcome of an operation that either produces a value or stops with an error. */
  datatype Result<+T, +E> = Ok(value: T) | Err(error: E)
}
