/** The optional value returned by the queries of the store. */
module Wrappers {

  datatype Option<+T> = None | Some(value: T)
}
