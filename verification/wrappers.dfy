/** The optional value used for partial operations (a parse that can fail, a search that can miss). */
module Wrappers {

  datatype Option<+T> = None | Some(value: T)
}
