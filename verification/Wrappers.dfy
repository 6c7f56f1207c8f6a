/** The optional values the other modules return for a step that is not enabled or a read that fails. */
module Wrappers {

  datatype Option<+T> = None | Some(value: T)
}
