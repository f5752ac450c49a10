/** The optional value used where the source has `null` or an empty form field. */
module Wrappers {

  datatype Option<+T> = None | Some(value: T)

}
