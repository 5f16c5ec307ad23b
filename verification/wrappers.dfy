/** Optional values, used where the C code signals "nothing" with a sentinel or an error path. */
module Wrappers {

  datatype Option<+T> = None | Some(value: T)

}
