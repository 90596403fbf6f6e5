/** The optional value used for the app's edit state and for lookups that may miss. */
module Wrappers {

  datatype Option<+T> = None | Some(value: T)
}
