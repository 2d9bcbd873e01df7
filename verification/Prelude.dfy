/** The optional value used wherever the source has a nullable column or an absent argument. */
module Prelude {
  datatype Option<+T> = None | Some(value: T)
}
