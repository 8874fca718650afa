/** The nullable values of the panel record: JavaScript's `null` is `None`. */
module Wrappers {

  datatype Option<+T> = None | Some(value: T)
}
