/** Optional values: `None` plays the part of JavaScript's `undefined`. */
module Wrappers {

  datatype Option<+T> = None | Some(value: T)
}
