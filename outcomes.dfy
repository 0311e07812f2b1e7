/** Option and Result shapes shared by the model. A Rust panic (an `unwrap` on
    `None`, an unsigned subtraction below zero, `todo!()`) becomes `Panic`. */
module Outcomes {

  datatype Option<+T> = None | Some(value: T) {
    /** `Option::unwrap_or_else` with a constant fallback. */
    function GetOr(default: T): T {
      match this
      case Some(v) => v
      case None => default
    }
  }

  /** Why an operation would panic in the source. */
  datatype PanicReason =
    | NotImplemented     // `todo!()`
    | UnwrapNone         // `.unwrap()` on `None` (missing index, missing separator)
    | SubtractOverflow   // `usize` subtraction below zero

  datatype Result<+T> = Ok(value: T) | Panic(reason: PanicReason)
}
