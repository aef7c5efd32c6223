/** The optional value used for readings that may fail and for storage
    lookups that may find nothing. */
module Wrappers {
  datatype Option<T> = None | Some(value: T)
}
