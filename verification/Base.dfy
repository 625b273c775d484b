/** Small carriers shared by the other modules. */
module Base {
  datatype Option<+T> = None | Some(value: T)

  /** A Go call that either returns a value, returns an error, or indexes out of range. */
  datatype Outcome<+T> = Ok(value: T) | Error | Panic
}
