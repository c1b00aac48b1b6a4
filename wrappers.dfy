/** The usual optional value, used for lookups and parses that can fail. */
module Wrappers {
  datatype Option<+T> = None | Some(value: T)
}
