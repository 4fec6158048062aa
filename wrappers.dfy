/** The optional value used wherever the generator returns `None`. */
module Wrappers {
  datatype Option<+T> = None | Some(value: T)
}
