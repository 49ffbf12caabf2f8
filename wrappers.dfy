/** The optional value the source writes as `None` or an object. */
module Wrappers {

  datatype Option<+T> = None | Some(value: T)
}
