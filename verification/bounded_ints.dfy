/** The fixed-width integer ranges of Swift that the model relies on.
    Dafny integers are unbounded, so each width is a subset type and every
    operation that could overflow is checked explicitly where it happens. */
module BoundedInts {

  const UINT16_MAX: int := 0xFFFF
  const UINT32_MAX: int := 0xFFFF_FFFF
  const UINT32_MODULUS: int := 0x1_0000_0000
  const UINT64_MAX: int := 0xFFFF_FFFF_FFFF_FFFF
  const INT64_MAX: int := 0x7FFF_FFFF_FFFF_FFFF
  const INT64_MIN: int := -0x8000_0000_0000_0000

  type UInt32 = x: int | 0 <= x <= UINT32_MAX
  type UInt64 = x: int | 0 <= x <= UINT64_MAX
  type Int64 = x: int | INT64_MIN <= x <= INT64_MAX
}
