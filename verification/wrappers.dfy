/** The optional value used wherever the pipeline returns `None` or reads a missing cell. */
module Wrappers {
  datatype Option<+T> = None | Some(value: T)
}
