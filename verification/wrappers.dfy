/** The optional value used where the client holds either a record or the empty placeholder `{}`. */
module Wrappers {

  datatype Option<+T> = None | Some(value: T)
}
