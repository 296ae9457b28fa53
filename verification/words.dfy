/** The machine words of the drivers. */
module Words {

  const U32: nat := 0x1_0000_0000

  type Byte = bv8
}
