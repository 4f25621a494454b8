/** The optional value used for the operations of simcrop that either produce a result or stop. */
module Wrappers {

  datatype Option<+T> = None | Some(value: T)
}
