/** Optional values, used for a weak owner reference and for a command slot
    that may not have been added yet. */
module Wrappers {

  datatype Option<+T> = None | Some(value: T)
}
