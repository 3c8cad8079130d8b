/** Optional values: the source's null references and absent entries. */
module Wrappers {

  datatype Option<+T> = None | Some(value: T)
}
