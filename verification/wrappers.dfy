/** Optional values: Java's nullable references become `Option`. */
module Wrappers {

  datatype Option<+T> = None | Some(value: T)

}
