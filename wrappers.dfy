/** Optional values, used for JavaScript's `null`/`undefined` and for operations that may throw. */
module Wrappers {

  datatype Option<+T> = None | Some(value: T)
}
