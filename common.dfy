/** Shared vocabulary: optional values, bytes and the 32-bit unsigned integers the readers use. */
module Common {

  /** A value that may be missing: a failed library lookup, a null pointer, an absent attribute. */
  datatype Option<T> = None | Some(value: T)

  /** One byte of a sample buffer (`uint8_t`). */
  type byte = b: int | 0 <= b < 256

  const TWO32: int := 0x1_0000_0000

  /** `uint32_t`. */
  type u32 = x: int | 0 <= x < 0x1_0000_0000

  /** Conversion of a (signed) integer to `uint32_t`: reduction modulo 2^32, as on a two's-complement machine. */
  function ToU32(x: int): (r: u32)
    ensures 0 <= x < TWO32 ==> r == x
    ensures -TWO32 <= x < 0 ==> r == x + TWO32
  {
    x % TWO32
  }

  /** `int32_t`. */
  type i32 = x: int | -0x8000_0000 <= x < 0x8000_0000

  /** Conversion to `int32_t`: reduction modulo 2^32 into the signed range. */
  function ToI32(x: int): (r: i32)
    ensures -0x8000_0000 <= x < 0x8000_0000 ==> r == x
    ensures 0x8000_0000 <= x < TWO32 ==> r == x - TWO32
  {
    var m := x % TWO32;
    if m < 0x8000_0000 then m else m - TWO32
  }
}
