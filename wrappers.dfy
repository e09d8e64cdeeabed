/** The optional value used for request parameters that may be absent and
    for a regular-expression match that may fail. */
module Wrappers {

  datatype Option<+T> = None | Some(value: T)
}
