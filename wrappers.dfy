/** Optional values, standing in for Java's nullable references and strings. */
module Wrappers {
  datatype Option<+T> = None | Some(value: T)
}
