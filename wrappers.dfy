/** The optional value the analyzer returns where Python returns a value or `None`. */
module Wrappers {

  datatype Option<+T> = None | Some(value: T)

}
