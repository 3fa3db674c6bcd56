/** Option and Result types standing in for Python's None and raised exceptions. */
module Wrappers {

  datatype Option<+T> = None | Some(value: T)

  /** The exception classes the modelled Python code raises. */
  datatype Fault =
    | ValueError       // raise ValueError(...), or int() on a malformed literal
    | IndexError       // indexing past the end of a list or tuple
    | AssertionFailure // a failing `assert` statement
    | ZeroDivision     // `%` or `/` by a zero length
    | RuntimeError     // raised by `do_cmd` when the device flags an error

  datatype Result<+T> = Ok(value: T) | Err(fault: Fault)
}
