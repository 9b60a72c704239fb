/** The failure-carrying results the model uses for the source's exceptions. */
module Results {
  datatype Result<+T, +E> = Ok(value: T) | Err(error: E)

  datatype Option<+T> = None | Some(value: T)

  /** The exceptions the core throws. */
  datatype Error = BadAlloc | InvalidArgument | LogicError | OutOfRange | Overflow
}
