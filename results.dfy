/** Option and Result, the shapes in which the model reports Python's `None` and raised exceptions. */
module Results {

  /** Python's `None` versus a present value. */
  datatype Option<+T> = None | Some(value: T)

  /** A normal return (`Ok`) or a raised exception (`Err`). */
  datatype Result<+T, +E> = Ok(value: T) | Err(error: E)
}
