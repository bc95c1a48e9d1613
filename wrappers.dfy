/** Optional values, used where the source has "maybe" results. */
module Wrappers {

  datatype Option<+T> = None | Some(value: T)
}
