/** The absent-or-present value the model uses wherever the source yields `null` or `undefined`. */
module Wrappers {
  datatype Option<+T> = None | Some(value: T)
}
