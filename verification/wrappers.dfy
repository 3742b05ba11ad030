/** Failure-compatible result types shared by the parser and the interpreter. */
module Wrappers {

  /** Why an operation produced no value: an error the source returns as
      `Err(&'static str)`, or a panic, which unwinds out of every caller. */
  datatype Failure = Reported(msg: string) | Panicked(msg: string)

  /** Rust's `Result<T, &'static str>`, with panics folded into the error side. */
  datatype Result<+T> = Ok(value: T) | Err(failure: Failure) {

    predicate IsFailure() {
      Err?
    }

    function PropagateFailure<U>(): Result<U>
      requires Err?
    {
      Err(failure)
    }

    function Extract(): T
      requires Ok?
    {
      value
    }
  }

  /** An error returned (not a panic) with the given message. */
  function Fail<T>(msg: string): Result<T> {
    Err(Reported(msg))
  }

  datatype Option<+T> = None | Some(value: T)
}
