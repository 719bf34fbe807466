/** Optional values: `null` / `undefined` in the source. */
module Wrappers {

  datatype Option<+T> = None | Some(value: T)

}
