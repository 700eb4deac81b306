/** What the modules share: an optional value, and C's 32-bit integers. */
module Wrappers {
  datatype Option<+T> = None | Some(value: T)

  const UINT: nat := 0x1_0000_0000

  /** What becomes of x in an int. */
  function AsInt(x: nat): int {
    if x % UINT < UINT / 2 then x % UINT else x % UINT - UINT
  }
}
