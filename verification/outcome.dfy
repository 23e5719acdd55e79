/** Failure-carrying results shared by every module of the payroll model. */
module Outcome {

  /** A value that may be absent: the model's stand-in for a Rust checked
      operation that returns `None` (and panics once unwrapped by `-`/`+`). */
  datatype Option<+T> = None | Some(value: T)

  /** The outcome of an instruction: the updated accounts, or the reason the
      whole transaction was rolled back. */
  datatype Result<+T, +E> = Ok(value: T) | Err(error: E)
}
