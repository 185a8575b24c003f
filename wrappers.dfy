/** The optional value used for a message's mood and for "no user message yet". */
module Wrappers {

  datatype Option<+T> = None | Some(value: T)
}
