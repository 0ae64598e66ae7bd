/** The optional value a lookup or an absent session key produces. */
module Wrappers {

  datatype Option<+T> = None | Some(value: T)
}
