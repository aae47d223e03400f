/** Machine-level vocabulary: bytes, 32-bit words and truncation. */
module Machine {
  const WORD: int := 0x1_0000_0000

  type byte = x: int | 0 <= x < 256
  type uint32 = x: int | 0 <= x < 0x1_0000_0000
  type bytes = seq<byte>

  /** What C keeps when a `size_t` is stored in a `uint32_t`. */
  function Trunc32(n: nat): uint32 {
    n % WORD
  }

  datatype Option<+T> = None | Some(value: T)
}
