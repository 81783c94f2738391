/** Optional values, used where the editor's source returns "not found". */
module Wrappers {
  datatype Option<+T> = None | Some(value: T)
}
