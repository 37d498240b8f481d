/** Optional values, used for the client library's out-parameters that may be left unset. */
module Wrappers {
  datatype Option<+T> = None | Some(value: T)
}
