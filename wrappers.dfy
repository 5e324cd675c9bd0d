/** Failure-carrying values shared by the modules of the model. */
module Wrappers {

  /** A value that may be absent: a JavaScript `undefined`/`null`. */
  datatype Option<T> = None | Some(value: T) {
    function GetOr(default: T): T {
      match this
      case Some(v) => v
      case None => default
    }
  }

  /** The result of an operation that returns normally or throws `error`. */
  datatype Outcome<E> = Pass | Fail(error: E)
}
