/** Optional values: `None` stands for JavaScript's `false`/`undefined` "not computed" markers
    and for a property the fact base does not have. */
module Wrappers {
  datatype Option<+T> = None | Some(value: T)
}
