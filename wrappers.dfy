/** The optional-value datatype used for values the kernel may or may not produce. */
module Wrappers {

  datatype Option<+T> = None | Some(value: T)
}
