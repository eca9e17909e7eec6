/** The conventional optional value, standing for a nullable column or query result. */
module Wrappers {
  datatype Option<+T> = None | Some(value: T)
}
