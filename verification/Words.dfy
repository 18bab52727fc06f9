/** Machine integers of the source. */
module Words {
  const U32_MAX: nat := 0xFFFF_FFFF
  const U64_MAX: nat := 0xFFFF_FFFF_FFFF_FFFF
  const TWO64: nat := U64_MAX + 1

  type Byte = x: int | 0 <= x < 256
  type U32 = x: int | 0 <= x <= U32_MAX
  type U64 = x: int | 0 <= x <= U64_MAX
}
