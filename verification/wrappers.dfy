/** The optional row a lookup returns, shared by the rest of the model. */
module Wrappers {

  /** A row that a query may or may not find (a `.get()` that returns `undefined`). */
  datatype Option<+T> = None | Some(value: T)
}
