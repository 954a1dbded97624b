/** The Option datatype used for values the source represents as `None` or a value. */
module Wrappers {

  datatype Option<+T> = None | Some(value: T)
}
