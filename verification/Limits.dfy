/** The widths and sizes that the C code relies on. */
module Limits {
  const INT_MIN: int := -0x8000_0000
  const INT_MAX: nat := 0x7fff_ffff
  const ULONG_RANGE: nat := 0x1_0000_0000_0000_0000
  const BUFFER_SIZE: nat := 1024
}
