/** Optional values, used where the pipeline returns `None` or a file may be missing. */
module Wrappers {

  datatype Option<+T> = None | Some(value: T)
}
