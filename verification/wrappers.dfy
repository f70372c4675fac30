/** The optional value used wherever the screener returns Python's None. */
module Wrappers {

  datatype Option<+T> = None | Some(value: T)
}
