/** Optional values: `null` / `undefined` in the program, and the result of a search. */
module Wrappers {

  datatype Option<+T> = None | Some(value: T)
}
