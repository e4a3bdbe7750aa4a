/** Shared by all modules. */
module Basics {

  datatype Option<+T> = None | Some(value: T)

  /** The number of 64-bit words. */
  const U64: nat := 0x1_0000_0000_0000_0000
}
