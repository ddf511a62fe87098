/** The fixed-width integer types of the Go code, as ranges of integers; wrap-around is written out where it matters. */
module Integers {
  type Uint8 = n: int | 0 <= n < 0x100
  type Uint16 = n: int | 0 <= n < 0x1_0000
  type Uint32 = n: int | 0 <= n < 0x1_0000_0000
  type Uint64 = n: int | 0 <= n < 0x1_0000_0000_0000_0000
  type Int32 = n: int | -0x8000_0000 <= n < 0x8000_0000

  const MAX_INT64: int := 0x7FFF_FFFF_FFFF_FFFF
}
