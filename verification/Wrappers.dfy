/** The optional value and the identifiers shared by the modules of this project. */
module Wrappers {

  datatype Option<+T> = None | Some(value: T)

  /** The identifier of an action, which is that of its command. */
  type ID = string
}
