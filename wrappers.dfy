/** Failure-compatible wrappers shared by the model.
    `Option<real>` also plays the part of a floating-point cell that may be NaN:
    `None` is the NaN (missing) marker. */
module Wrappers {

  datatype Option<+T> = None | Some(value: T)

  datatype Result<+R, +E> = Ok(value: R) | Err(error: E)
}
