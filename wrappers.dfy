/** The optional value the model uses for operations that can fail. */
module Wrappers {

  /** `None` marks a failed operation (a Rust panic in the modelled code); `Some` carries the value. */
  datatype Option<+T> = None | Some(value: T)
}
