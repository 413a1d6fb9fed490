/** Optional values: a JSON field that may be absent, a decoding that may fail. */
module Wrappers {

  datatype Option<+T> = None | Some(value: T)
}
