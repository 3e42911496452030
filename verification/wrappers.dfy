/** The optional-value wrapper shared by every module of the model. */
module Wrappers {

  /** An optional value: the model's stand-in for Go's nil-able results. */
  datatype Option<+T> = None | Some(value: T)
}
