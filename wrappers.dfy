/** The optional value used where the application either has a value or has none. */
module Wrappers {

  datatype Option<+T> = None | Some(value: T)
}
