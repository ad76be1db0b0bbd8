/** Option and Outcome values standing for the source's nullable references and thrown exceptions. */
module Wrappers {

  datatype Option<+T> = None | Some(value: T)

  /** The result of a step that either succeeds or throws an exception carrying `error`. */
  datatype Outcome<+E> = Pass | Fail(error: E)
}
