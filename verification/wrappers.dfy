/** Optional values: a JavaScript `null`/absent result, or a present one. */
module Wrappers {

  datatype Option<+T> = None | Some(value: T)
}
