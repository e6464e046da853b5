/** Optional values, used for JavaScript's `null` and `NaN` results. */
module Wrappers {

  datatype Option<+T> = None | Some(value: T)
}
