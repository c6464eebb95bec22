/** The conventional optional-value datatype, used for fields and replies that may be absent. */
module Wrappers {
  datatype Option<+T> = None | Some(value: T)
}
