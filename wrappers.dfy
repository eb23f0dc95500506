/** Plain option and outcome datatypes shared by the locale model. */
module Wrappers {

  /** A value that may be absent (a C# nullable reference). */
  datatype Option<+T> = None | Some(value: T)

  /** The outcome of an operation that returns nothing but may fail. */
  datatype Outcome<+E> = Pass | Fail(error: E)
}
