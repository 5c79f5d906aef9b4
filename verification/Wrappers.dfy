/** Optional values, used wherever the program works with null or undefined. */
module Wrappers {

  datatype Option<+T> = None | Some(value: T)
}
