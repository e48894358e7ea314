/** A value that a JavaScript object may or may not carry (`undefined` is None). */
module Wrappers {

  datatype Option<+T> = None | Some(value: T)
}
