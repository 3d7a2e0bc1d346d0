/** Optional values and fault-carrying outcomes, standing in for C#'s nullable
    references and for exceptions that a call can throw. */
module Wrappers {

  /** A reference that may be null: `None` plays the part of `null`. */
  datatype Option<+T> = None | Some(value: T)

  /** The result of a `void` operation: `Pass` when it returns normally,
      `Fail(e)` when it would throw `e`. */
  datatype Outcome<+E> = Pass | Fail(error: E)
}
