/** The optional value used for lookups that may find nothing and for nullable columns. */
module Wrappers {

  datatype Option<+T> = None | Some(value: T)

}
