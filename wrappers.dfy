/** Optional values: a timestamp not yet recorded, a sink write that did not happen. */
module Wrappers {

  datatype Option<+T> = None | Some(value: T)
}
