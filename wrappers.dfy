/** The optional value used for JavaScript's `null`: a missing row, an unbound user,
    a field absent from a JSON body. */
module Wrappers {
  datatype Option<+T> = None | Some(value: T)
}
