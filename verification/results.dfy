/** Failure-carrying values used by every layer of the model. */
module Results {

  /** An absent or present value: a Reactor `Mono` that completes empty or with one item. */
  datatype Option<+T> = None | Some(value: T)

  /** The outcome of an operation that signals failure by an exception. */
  datatype Result<+T, +E> = Ok(value: T) | Err(error: E)
}
