/** Optional values: the model of a slot that may hold a converted value or a null pointer,
    of a lookup that may miss, and of `npos`. */
module Wrappers {

  datatype Option<+T> = None | Some(value: T)
}
