/** Optional values: a key that local storage does not hold, or holds as the empty string. */
module Wrappers {

  datatype Option<+T> = None | Some(value: T)
}
