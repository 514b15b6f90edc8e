/** Fixed-width integer types of the C++ source, the optional-value wrapper,
    and the conversions the source performs implicitly when it narrows a
    wider value into a smaller unsigned or signed type (modulo 2^N, two's
    complement). */
module Types {

  datatype Option<+T> = None | Some(value: T)

  const TWO_8: int := 0x100
  const TWO_16: int := 0x1_0000
  const TWO_31: int := 0x8000_0000
  const TWO_32: int := 0x1_0000_0000
  const TWO_63: int := 0x8000_0000_0000_0000
  const TWO_64: int := 0x1_0000_0000_0000_0000

  type uint8 = x: int | 0 <= x < 0x100
  type uint16 = x: int | 0 <= x < 0x1_0000
  type uint32 = x: int | 0 <= x < 0x1_0000_0000
  type uint64 = x: int | 0 <= x < 0x1_0000_0000_0000_0000
  type int32 = x: int | -0x8000_0000 <= x < 0x8000_0000
  type int64 = x: int | -0x8000_0000_0000_0000 <= x < 0x8000_0000_0000_0000

  /** Conversion of any integer to uint8, as `uint8(x)` does in C++. */
  function ToUint8(x: int): (r: uint8)
    ensures (r - x) % TWO_8 == 0
    ensures 0 <= x < TWO_8 ==> r == x
  {
    x % TWO_8
  }

  /** Conversion of any integer to uint16. */
  function ToUint16(x: int): (r: uint16)
    ensures (r - x) % TWO_16 == 0
    ensures 0 <= x < TWO_16 ==> r == x
  {
    x % TWO_16
  }

  /** Conversion of any integer to uint32 (also unsigned 32-bit arithmetic). */
  function ToUint32(x: int): (r: uint32)
    ensures (r - x) % TWO_32 == 0
    ensures 0 <= x < TWO_32 ==> r == x
  {
    x % TWO_32
  }

  /** Conversion of any integer to int32: two's complement wrap-around. */
  function ToInt32(x: int): (r: int32)
    ensures (r - x) % TWO_32 == 0
    ensures -TWO_31 <= x < TWO_31 ==> r == x
  {
    var u := x % TWO_32;
    if u < TWO_31 then u else u - TWO_32
  }

  /** A negative int32 read as a uint32: 2^32 is added. */
  lemma ToUint32OfNegative(x: int)
    requires -TWO_31 <= x < 0
    ensures ToUint32(x) == x + TWO_32
  {
  }

  /** A value that fits is kept unchanged. */
  lemma ToUint32OfInRange(x: int)
    requires 0 <= x < TWO_32
    ensures ToUint32(x) == x
  {
  }

  lemma ToUint16OfInRange(x: int)
    requires 0 <= x < TWO_16
    ensures ToUint16(x) == x
  {
  }
}
