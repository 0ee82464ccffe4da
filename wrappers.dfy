/** Small helper datatypes shared by the other modules. */
module Wrappers {

  /** An optional value: `None` where the source would find nothing (or fail). */
  datatype Option<+T> = None | Some(value: T)
}
