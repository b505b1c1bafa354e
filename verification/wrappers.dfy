/** Optional values: `None` stands for JavaScript's `null` or `undefined` result. */
module Wrappers {
  datatype Option<T> = None | Some(value: T)
}
