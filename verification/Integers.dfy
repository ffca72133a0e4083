/** The unsigned integers of the code: their sizes, and subtraction that wraps around. */
module Integers {
  const U32: int := 0x1_0000_0000
  const U64: int := 0x1_0000_0000_0000_0000

  function SubU64(a: nat, b: nat): nat { (a - b) % U64 }
}
