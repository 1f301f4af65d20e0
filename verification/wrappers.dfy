/** Failure-carrying datatypes shared by the whole model. */
module Wrappers {

  /** A Java reference that may be `null`: `None` is `null`. */
  datatype Option<+T> = None | Some(value: T)

  /** The result of a Java call that either returns normally or throws an unchecked
      exception (NullPointerException, NoSuchElementException). The server never
      catches these, so a `Threw` ends the connection's thread on the spot. */
  datatype Call<+T> = Returned(value: T) | Threw
}
