/** Optional values: a DOM attribute that may be missing (`undefined` in JavaScript). */
module Wrappers {

  datatype Option<+T> = None | Some(value: T)
}
