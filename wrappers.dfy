/** Optional values, standing for Java's `null` and for operations that throw. */
module Wrappers {

  datatype Option<+T> = None | Some(value: T)
}
