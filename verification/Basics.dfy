/** Small things that several models use. */
module Basics {

  /** A value that may be missing: a NULL pointer, a failing call, a state that has to be rebuilt. */
  datatype Option<+T> = None | Some(value: T)

  function One(b: bool): nat { if b then 1 else 0 }
}
