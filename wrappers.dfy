/** The optional value used wherever PHP code tests `isset` or gets `false` back from a search. */
module Wrappers {

  datatype Option<+T> = None | Some(value: T)
}
