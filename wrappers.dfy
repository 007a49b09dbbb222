/** Optional values: JavaScript's `undefined` for a property that may be missing. */
module Wrappers {

  datatype Option<+T> = None | Some(value: T)
}
