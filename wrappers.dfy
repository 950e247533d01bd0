/** The optional value used for "no value" results. */
module Wrappers {

  datatype Option<+T> = None | Some(value: T)
}
