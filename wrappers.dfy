/** Option: an empty slot (a null `shared_ptr`) or a present value. */
module Wrappers {
  datatype Option<+T> = None | Some(value: T)
}
