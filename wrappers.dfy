/** Go's optional values: a nil error or nil claims is `None`. */
module Wrappers {

  datatype Option<+T> = None | Some(value: T)
}
