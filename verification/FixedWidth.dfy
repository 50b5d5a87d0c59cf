// The unsigned integer widths the sources use.
module FixedWidth {
  const U32: int := 0x1_0000_0000

  type u32 = x: int | 0 <= x < U32

  type byte = x: int | 0 <= x < 256
}
