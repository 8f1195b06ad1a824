/** The optional value used where the modelled code has a nullable reference. */
module Wrappers {

  /** `None` stands for `null`. */
  datatype Option<+T> = None | Some(value: T)
}
