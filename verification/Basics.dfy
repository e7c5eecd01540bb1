/** Types that several parts of the model share. */
module Basics {

  type Byte = n: nat | n < 256

  /** A 32-bit unsigned integer. */
  type Word = n: nat | n < 0x1_0000_0000

  datatype Option<+T> = None | Some(value: T)
}
