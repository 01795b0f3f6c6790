/** Failure-free optional values, used where the source answers "not found". */
module Wrappers {

  datatype Option<+T> = None | Some(value: T)
}
