/** The optional value used for a handler's guard and callback, either of which may be absent. */
module Wrappers {

  datatype Option<+T> = None | Some(value: T)
}
