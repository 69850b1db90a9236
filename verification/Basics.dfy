/** What every part of the model shares. */
module Basics {
  datatype Option<+T> = None | Some(value: T)

  /** One past the largest value of a 64-bit word. */
  const WORD: nat := 0x1_0000_0000_0000_0000
}
