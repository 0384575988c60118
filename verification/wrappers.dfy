/** Optional values, standing for JavaScript's `null` / `undefined` / `NaN`. */
module Wrappers {

  datatype Option<+T> = None | Some(value: T)
}
