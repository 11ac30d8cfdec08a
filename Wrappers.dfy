/** Option, Outcome and Result: the values that stand for JavaScript's `null`/`undefined`
    and for a thrown error. */
module Wrappers {

  datatype Option<+T> = None | Some(value: T)

  /** Pass stands for "returned normally", Fail(e) for "threw e" and Crash(e) for "raised
      e where nothing handles it", which ends the process. */
  datatype Outcome<+E> = Pass | Fail(error: E) | Crash(error: E)

  datatype Result<+R, +E> = Success(value: R) | Failure(error: E)
}
