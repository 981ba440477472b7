/** The widths of the firmware's bytes, words and longs. */
module Machine {
  type byte = x: int | 0 <= x < 256

  type u16 = x: int | 0 <= x < 0x1_0000

  type u32 = x: int | 0 <= x < 0x1_0000_0000

  /** A big-endian 16-bit word. */
  function Word16(hi: byte, lo: byte): (w: u16) { hi as int * 256 + lo as int }
}
