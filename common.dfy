/** Types shared by the board-support model. */
module Common {

  /** The conventional optional value. */
  datatype Option<T> = None | Some(value: T)

  const U32_LIMIT: int := 0x1_0000_0000
  const U32_MAX: int := 0xFFFF_FFFF

  /** A C `uint8_t` as an integer (used where the source does arithmetic on bytes). */
  type Byte = x: int | 0 <= x < 256

  /** A C `uint16_t` as an integer. */
  type U16 = x: int | 0 <= x < 0x1_0000

  /** A C `uint32_t` as an integer. */
  type U32 = x: int | 0 <= x < 0x1_0000_0000

  /** A C `int32_t` as an integer. */
  type I32 = x: int | -0x8000_0000 <= x < 0x8000_0000

  /**
   * An IEEE-754 single-precision value, carried as its bit pattern. The model
   * never computes with it: it only stores, copies and compares readings.
   */
  type Float32 = bv32

  /** The value of `x` after conversion to `uint32_t` (wraps modulo 2^32). */
  function ToU32(x: int): (r: U32)
    ensures (r - x) % U32_LIMIT == 0
    ensures 0 <= x < U32_LIMIT ==> r == x
  {
    x % U32_LIMIT
  }

  /** The value of `x` after conversion to `int32_t` (two's complement, modulo 2^32). */
  function ToI32(x: int): (r: I32)
    ensures (r - x) % U32_LIMIT == 0
    ensures -0x8000_0000 <= x < 0x8000_0000 ==> r == x
  {
    var u := x % U32_LIMIT;
    if u < 0x8000_0000 then u else u - U32_LIMIT
  }
}
