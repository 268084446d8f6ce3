/** The optional value of the program drivers' results. */
module Wrappers {
  datatype Option<T> = None | Some(value: T)
}
