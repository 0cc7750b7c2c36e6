// Types that several of the programs use.
module Basics {
  datatype Option<T> = None | Some(value: T)

  type byte = b: int | 0 <= b < 256
}
