/** How many values a machine word of each width has. */
module Words {
  const UINT16: nat := 0x1_0000
  const UINT32: nat := 0x1_0000_0000
  const UINT64: nat := 0x1_0000_0000_0000_0000
}
