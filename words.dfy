/** Fixed-width machine integers of the codec glue, with their arithmetic written out. */
module Words {

  /** 2^32: one past the largest value of a Rust `u32` / C `uint32_t`. */
  const U32_LIMIT: int := 0x1_0000_0000

  newtype u32 = x: int | 0 <= x < 0x1_0000_0000
  newtype u8 = x: int | 0 <= x < 0x100

  /** 32-bit addition that wraps around, as a SIMD lane add (or a release-mode `+`) does. */
  function WrappingAdd(a: u32, b: u32): (r: u32)
    ensures r as int == (a as int + b as int) % U32_LIMIT
    ensures a as int + b as int < U32_LIMIT ==> r as int == a as int + b as int
  {
    if a as int + b as int < U32_LIMIT then a + b
    else (a as int + b as int - U32_LIMIT) as u32
  }

  /** 32-bit subtraction that wraps around, as a release-mode `-` on `u32` does.
      It is undone by adding the subtrahend back. */
  function WrappingSub(a: u32, b: u32): (r: u32)
    ensures WrappingAdd(b, r) == a
    ensures b <= a ==> r as int == a as int - b as int
  {
    if b <= a then a - b else (a as int - b as int + U32_LIMIT) as u32
  }
}
