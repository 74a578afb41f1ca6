/** The width of the machine's words. */
module Numbers {
  const UINT32: nat := 0x1_0000_0000

  type Uint32 = x: int | 0 <= x < UINT32
}
