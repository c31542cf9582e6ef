/** Option, for values the source represents as `None` or a missing key. */
module Wrappers {
  datatype Option<+T> = None | Some(value: T)
}
