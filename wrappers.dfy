/** A value that may be absent: Kotlin's nullable types (`T?`). */
module Wrappers {
  datatype Option<+T> = None | Some(value: T)
}
