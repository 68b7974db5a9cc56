/** The optional value used for decodes that can fail. */
module Wrappers {
  datatype Option<+T> = None | Some(value: T)
}
