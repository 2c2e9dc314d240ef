/** The optional value the modules below share. */
module Wrappers {

  datatype Option<+T> = None | Some(value: T)

}
