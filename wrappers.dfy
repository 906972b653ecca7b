/** Optional values, standing in for JavaScript's `null` (an absent form field,
    a selector that matches nothing). */
module Wrappers {

  datatype Option<+T> = None | Some(value: T)
}
