/** Option and Outcome: the absent value (`null`) and the thrown error of the source. */
module Wrappers {

  datatype Option<+T> = None | Some(value: T)

  /** The settled result of an async call: it resolved, or it rejected with `error`. */
  datatype Outcome<+E> = Pass | Fail(error: E)
}
