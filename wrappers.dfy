/** Optional values: a missing lookup, or a value for which JSON `null` and absence mean the same. */
module Wrappers {

  datatype Option<+T> = None | Some(value: T)
}
