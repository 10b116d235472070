/** The optional value the tree code returns where Python returns `None`. */
module Wrappers {

  datatype Option<+T> = None | Some(value: T)
}
