/** Small failure-carrying datatypes shared by the journal modules, and the
    one piece of JavaScript value semantics the components rely on. */
module Outcomes {

  /** A value that may be absent: the `entry` prop of the form is either an
      existing record or missing. */
  datatype Option<+T> = None | Some(value: T)

  /** The outcome of an operation that either produces a value or is refused. */
  datatype Result<+R, +E> = Success(value: R) | Failure(error: E)
}

module JsText {

  /** Truthiness of a JavaScript string: the empty string is the only falsy
      string, so "0" and " " are both truthy. */
  predicate Truthy(s: string) {
    s != ""
  }
}
