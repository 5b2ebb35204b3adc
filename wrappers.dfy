/** Optional values: Python's `Optional[...]` fields and `None`. */
module Wrappers {

  datatype Option<+T> = None | Some(value: T)
}
