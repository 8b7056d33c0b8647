/** An optional value. */
module Wrappers {

  /** Either no value, or exactly one value. */
  datatype Option<+T> = None | Some(value: T)
}
