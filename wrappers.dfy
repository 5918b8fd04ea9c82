/** Optional values: JavaScript's `undefined` and absent object properties. */
module Wrappers {
  datatype Option<+T> = None | Some(value: T)
}
