/** The machine's integers. */
module Bytes {

  /** uint8_t. */
  newtype byte = x: int | 0 <= x < 0x100

  /** int32_t. */
  newtype s32 = x: int | -0x8000_0000 <= x < 0x8000_0000

  const U32_LIMIT := 0x1_0000_0000

  /** uint32_t, as a range of the integers. */
  type u32 = x: nat | x < U32_LIMIT

  /** (uint32_t) x: unsigned arithmetic wraps around. */
  function U32(x: int): u32 {
    x % 0x1_0000_0000
  }

  function Min(a: int, b: int): int {
    if a < b then a else b
  }
}
