/** The optional value used where the source gets `None` back or raises. */
module Wrappers {

  datatype Option<+T> = None | Some(value: T)
}
