/** Failure-compatible wrappers shared by the whole model. */
module Wrappers {

  /** An optional value: the program's `None` or a present value. */
  datatype Option<+T> = None | Some(value: T)

  /** The outcome of an operation that may raise. Every Python exception of the
      modelled code collapses into the single `Fail` variant. */
  datatype Result<+T> = Ok(value: T) | Fail
}
