/** Small failure-carrying datatypes shared by the contact-book modules. */
module Outcomes {

  /** A value that may be absent: Python's `None` or a present value. */
  datatype Option<+T> = None | Some(value: T)

  /** The outcome of an operation that can fail with an error of type E
      (a raised exception in the program being modelled). */
  datatype Result<+T, +E> = Ok(value: T) | Err(error: E)

  /** A new state together with the status line the operation returns. */
  datatype Updated<+S> = Updated(state: S, message: string)
}
