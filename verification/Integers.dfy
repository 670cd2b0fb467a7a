/** The machine integers of the solver and of the words it exchanges. */
module Integers {
  const TWO32: nat := 0x1_00000000
  const TWO64: nat := 0x1_00000000_00000000
  const TWO128: nat := 0x1_00000000_00000000_00000000_00000000
  const TWO256: nat := 0x1_00000000_00000000_00000000_00000000_00000000_00000000_00000000_00000000

  const MAX_UINT64: nat := 0xFFFF_FFFF_FFFF_FFFF

  type uint32 = n: nat | n < TWO32
  type uint64 = n: nat | n < TWO64
  type int64 = n: int | -0x8000_0000_0000_0000 <= n <= 0x7FFF_FFFF_FFFF_FFFF
  type u128 = w: nat | w < TWO128
  type uint256 = n: nat | n < TWO256
}
