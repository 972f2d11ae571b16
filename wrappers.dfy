/** The optional value used for a search that may find nothing and for an
    operation that may raise. */
module Wrappers {
  datatype Option<T> = None | Some(value: T)
}
