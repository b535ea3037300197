/** Small failure-carrying datatypes shared by every module of the model. */
module Wrappers {

  /** A value that may be absent; stands for a nullable pointer or a "not found" result. */
  datatype Option<+T> = None | Some(value: T)
}
