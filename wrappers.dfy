/** The optional value the model uses where Java has a nullable reference. */
module Wrappers {

  datatype Option<+T> = None | Some(value: T)
}
