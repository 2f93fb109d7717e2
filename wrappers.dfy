/** A nullable value: `None` plays the part of SQL NULL and of Ruby's nil. */
module Wrappers {
  datatype Option<+T> = None | Some(value: T)
}
