/** The widths of the unsigned integers whose arithmetic can wrap around. */
module Integers {
  const UINT16_COUNT: nat := 0x1_0000
  const UINT64_COUNT: nat := 0x1_0000_0000_0000_0000
}
