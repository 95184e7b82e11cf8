/** The optional value used for marks that may be absent and for searches that may fail. */
module Wrappers {

  datatype Option<+T> = None | Some(value: T)
}
