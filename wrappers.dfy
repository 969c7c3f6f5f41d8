/** Wrappers shared by the frontend and backend models. */
module Wrappers {

  /** An optionally present value: JavaScript's `undefined`/`null` and
      Python's `None` are both `None` here. */
  datatype Option<+T> = None | Some(value: T)

  /** The outcome of a call that may raise: `Err` carries the text the
      exception would show. */
  datatype Result<+R, +E> = Ok(value: R) | Err(error: E)
}
