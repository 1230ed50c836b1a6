/** Optional values, and the number types of the wire. */
module Basics {

  datatype Option<+T> = None | Some(value: T)

  const I32_MIN := -0x8000_0000
  const I32_MAX := 0x7fff_ffff
  const U32_MAX := 0xffff_ffff
  const U64_MAX := 0xffff_ffff_ffff_ffff
  const TWO_32 := 0x1_0000_0000
  const TWO_63 := 0x8000_0000_0000_0000
  const TWO_64 := 0x1_0000_0000_0000_0000

  type Byte = n: int | 0 <= n < 0x100
  type Int32 = n: int | I32_MIN <= n <= I32_MAX
  type UInt32 = n: int | 0 <= n <= U32_MAX
  type Int64 = n: int | -TWO_63 <= n < TWO_63
  type UInt64 = n: int | 0 <= n < TWO_64
}
