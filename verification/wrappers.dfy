/** Failure-carrying datatypes shared by the model. */
module Wrappers {

  /** An optional value: what `strptime` denotes, if anything. */
  datatype Option<+T> = None | Some(value: T)

  /** The outcome of evaluating a Python expression: it either returns a
      value or raises an exception.  The handler catches every exception
      the same way, so which exception was raised is not recorded. */
  datatype Eval<+T> = Returned(value: T) | Raised
}
