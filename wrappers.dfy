/** The optional value used for "no match" and "no template". */
module Wrappers {
  datatype Option<T> = None | Some(value: T)
}
