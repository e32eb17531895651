/** Optional values, used for the outcome of parsing and of scanning rows. */
module Wrappers {

  datatype Option<+T> = None | Some(value: T)

}
