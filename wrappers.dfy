/** Optional values, for the plugin's nullable fields. */
module Wrappers {

  datatype Option<+T> = None | Some(value: T)
}
