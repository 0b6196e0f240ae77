/** Failure-compatible result types for the mail sender pipeline.
    Every exception the extension raises towards the calling script becomes
    a `Failure` value; `:-` short-circuits on the first one, exactly as a
    thrown exception aborts the rest of `send`. */
module Results {

  datatype Option<+T> = None | Some(value: T)

  /** What the caller of `send` observes when the call fails. */
  datatype Failure =
    /** An error built by the extension with a diagnostic message. */
    | ScriptError(message: string)
    /** A Java runtime exception that escapes the extension unhandled. */
    | Uncaught(exception: string)

  datatype Result<+T> = Ok(value: T) | Err(error: Failure) {
    predicate IsFailure() { Err? }

    function PropagateFailure<U>(): Result<U>
      requires Err?
    {
      Err(error)
    }

    function Extract(): T
      requires Ok?
    {
      value
    }
  }

  /** A check that either passes or fails; it carries no value. */
  datatype Outcome = Pass | Fail(error: Failure)
}
