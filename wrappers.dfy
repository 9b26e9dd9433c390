/** The usual optional value, used where a lookup or a validation may find nothing. */
module Wrappers {

  datatype Option<+T> = None | Some(value: T)

}
