/** Optional values: `None` stands for an output the source leaves unassigned. */
module Wrappers {
  datatype Option<T> = None | Some(value: T)
}
