/** Optional values: the model's stand-in for `undefined` and for a thrown error. */
module Wrappers {
  datatype Option<+T> = None | Some(value: T)
}
