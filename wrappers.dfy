/** The optional value used wherever the source has `null`, `undefined` or a failed parse. */
module Wrappers {
  datatype Option<+T> = None | Some(value: T)
}
