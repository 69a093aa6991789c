/** Failure kinds raised by the top-N operator, and a result type. */
module Results {

  /** The exceptions the operator can raise, kept apart so that a configuration
      error, a memory-ceiling abort and a broken cursor invariant are distinguishable. */
  datatype Error =
    | NullArgument(message: string)       // a required constructor argument is null
    | IllegalArgument(message: string)    // a constructor argument is out of range
    | CursorAdvanceFailed                 // a channel cursor could not reach a referenced position
    | MemoryLimitExceeded(maxSize: nat)   // the running estimate went over the ceiling (bytes)

  /** A reference that may be null. */
  datatype Option<+T> = None | Some(value: T)

  datatype Result<+T> = Ok(value: T) | Err(error: Error)
}
