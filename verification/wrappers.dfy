/** Absence-carrying values: JavaScript's `null`/`undefined` and "no such key". */
module Wrappers {

  datatype Option<+T> = None | Some(value: T)
}
