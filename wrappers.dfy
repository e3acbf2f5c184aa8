/** The optional value used wherever the bot relies on Python's `None`. */
module Wrappers {

  datatype Option<+T> = None | Some(value: T)
}
