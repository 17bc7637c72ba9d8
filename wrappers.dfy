/** Optional values: a DOM reference that may be null, an attribute or a
    storage entry that may be absent. */
module Wrappers {

  datatype Option<+T> = None | Some(value: T)
}
