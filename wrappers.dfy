/** The optional value that stands for C's NULL (empty slots, unset variables). */
module Wrappers {

  datatype Option<+T> = None | Some(value: T)
}
