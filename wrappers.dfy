/** The optional value used for "emitted nothing" results. */
module Wrappers {

  datatype Option<+T> = None | Some(value: T)
}
