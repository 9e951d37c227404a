/** The optional value used for "first match, or nothing" answers. */
module Wrappers {

  datatype Option<+T> = None | Some(value: T)
}
