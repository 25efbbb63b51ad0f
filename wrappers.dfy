/** Python's `None`-or-value returns, as an explicit datatype. */
module Wrappers {

  datatype Option<+T> = None | Some(value: T)
}
