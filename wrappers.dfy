/** The optional value used where the source returns `null` or leaves a value `undefined`. */
module Wrappers {
  datatype Option<+T> = None | Some(value: T)
}
