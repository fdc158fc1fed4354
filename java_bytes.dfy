/** Java's signed 8-bit `byte` and the narrowing `(byte)` cast. */
module JavaBytes {

  const BYTE_MIN: int := -128
  const BYTE_MAX: int := 127

  /** A Java `byte`: two's-complement, 8 bits, signed. */
  newtype int8 = x: int | -128 <= x < 128

  /**
   * The Java narrowing cast `(byte) x` from `int`: keep the low eight bits and
   * read them as a two's-complement number.
   */
  function ByteCast(x: int): (b: int8)
    ensures (b as int - x) % 256 == 0
    ensures BYTE_MIN <= x <= BYTE_MAX ==> b as int == x
  {
    ((x + 128) % 256 - 128) as int8
  }
}
