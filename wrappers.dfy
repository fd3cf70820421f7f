/** An optional value, shared by the games and the keyboard navigation. */
module Wrappers {
  datatype Option<T> = None | Some(value: T)
}
