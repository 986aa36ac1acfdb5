/** Values that may be missing. */
module Wrappers {
  datatype Option<+T> = None | Some(value: T)
}

/** Bytes as numbers, and the wrap-around of the source's 32-bit unsigned arithmetic. */
module Bytes {
  type byte = b: int | 0 <= b < 256

  const TWO_TO_32 := 0x1_0000_0000

  function Word32(x: int): nat { x % TWO_TO_32 }
}
