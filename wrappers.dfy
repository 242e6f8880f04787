/** Small failure-carrying datatypes shared by the model. */
module Wrappers {

  datatype Option<+T> = None | Some(value: T)

  /** The exceptions the core raises and propagates to its caller. */
  datatype Error =
    | LengthMismatch        // a value whose length differs from the number of elements
    | InvalidConfiguration  // a number of elements below 2 requested for a change
    | NoMap                 // a per-pixel map used before it was created
    | BadIndex              // a pixel index or mask that does not fit the map
    | TypeError             // a twin function left at its class default, called as a method

  /** Outcome of a setter: it returned normally, or it raised. */
  datatype Outcome = Pass | Fail(error: Error)
}
