/** Optional values: a point lookup in the item store either finds a title or
    finds nothing, and "nothing" is an ordinary answer, not an error. */
module Wrappers {

  datatype Option<+T> = None | Some(value: T)
}
