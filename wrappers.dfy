/** Optional values. `None` stands for the values JavaScript computes as NaN
    (an average over nothing) or for a field the source never set. */
module Wrappers {

  datatype Option<+T> = None | Some(value: T)
}
