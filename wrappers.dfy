/** An optional value, for the regex matches and the selected project. */
module Wrappers {
  datatype Option<T> = None | Some(value: T)
}
