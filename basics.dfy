/** Failure-carrying values shared by every module of the model. */
module Basics {

  datatype Option<+T> = None | Some(value: T)

  /** A computation that either yields a value or stops with an error. */
  datatype Result<+T, +E> = Ok(value: T) | Err(error: E)

  /** A check that either passes or stops with an error (the script's `catapult_exception`). */
  datatype Outcome<+E> = Pass | Fail(error: E)

  /**
   * Which reading of a test whose code and message disagree to run: the
   * code as the script has it, or the test its message asks for.
   */
  datatype Reading = AsWritten | Intended
}
