module Basics {

  datatype Option<+T> = None | Some(value: T)

  type Byte = n: int | 0 <= n < 256
}
