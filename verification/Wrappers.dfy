/** Values that may be missing and calls that may fail. */
module Wrappers {

  /** A missing row, key or cursor, or the answer of a call that failed. */
  datatype Option<+T> = None | Some(value: T)

  /** How a call that changes something elsewhere ends: with a reply of success, or with an
      error after which it may have taken effect all the same. */
  datatype Reply = Heard | Unheard(applied: bool) {
    predicate Applied() { Heard? || applied }
  }
}
