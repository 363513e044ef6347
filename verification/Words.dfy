/** Machine words of 32 bits. */
module Words {
  type Addr = a: int | 0 <= a < 0x1_0000_0000

  /** int32_t, and a C long. */
  type Long = x: int | -0x8000_0000 <= x < 0x8000_0000

  /** Signed arithmetic wraps around. */
  function Wrap32(x: int): Long { (x + 0x8000_0000) % 0x1_0000_0000 - 0x8000_0000 }
}
