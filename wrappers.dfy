/** Option and Result values shared by every module, and the exceptions the
    Python code raises, as plain values. */
module Wrappers {

  datatype Option<+T> = None | Some(value: T) {
    function GetOr(default: T): T {
      match this
      case Some(v) => v
      case None => default
    }
  }

  /** The exception classes the modelled code raises. `RecursionLimit` stands for
      running out of the fuel that bounds the reconciliation recursion. */
  datatype Error =
    | ValueError
    | RuntimeError
    | AssertionError
    | IndexError
    | OperationalError
    | OverflowError
    | RecursionLimit

  datatype Result<+T> = Ok(value: T) | Err(error: Error)
}
