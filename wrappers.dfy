/** The optional value used wherever the pipeline returns None or looks a key up with dict.get. */
module Wrappers {
  datatype Option<+T> = None | Some(value: T)
}
