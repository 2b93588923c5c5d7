/** The optional value the renderer uses where the program holds a possibly-NULL texture pointer. */
module Wrappers {

  datatype Option<+T> = None | Some(value: T)
}
