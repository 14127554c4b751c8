/** Optional values: a field that may be absent, or a parse that may yield no number. */
module Wrappers {
  datatype Option<+T> = None | Some(value: T)
}
