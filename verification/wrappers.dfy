/** The optional value used across the model. */
module Wrappers {

  /** `None` stands for a value the source leaves `undefined`. */
  datatype Option<+T> = None | Some(value: T)
}
