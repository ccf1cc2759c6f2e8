/** Python's optional values. */
module Wrappers {

  /** `None` or a present value. */
  datatype Option<T> = None | Some(value: T)
}
