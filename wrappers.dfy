/** Optional values: a parse that may fail, a sender tag that may be absent. */
module Wrappers {

  datatype Option<+T> = None | Some(value: T)
}
