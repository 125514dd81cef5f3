/** Option type: `None` stands for Go's nil (a missing record, a nil map). */
module Wrappers {
  datatype Option<+T> = None | Some(value: T)
}
