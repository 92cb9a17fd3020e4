// The unsigned machine types the codecs work on.

module Machine {
  type Byte = b: int | 0 <= b < 256

  // 32 bits
  type Word = w: int | 0 <= w < 0x1_0000_0000
}
