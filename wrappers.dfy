/** The optional value used where the plugin code tests a value for null or a failed match. */
module Wrappers {

  datatype Option<+T> = None | Some(value: T)
}
