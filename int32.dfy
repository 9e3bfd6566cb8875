/** Java's 32-bit two's-complement `int`. */
module Int32 {

  const MinInt32: int := -0x8000_0000
  const MaxInt32: int := 0x7fff_ffff
  const Modulus: int := 0x1_0000_0000

  type int32 = x: int | -0x8000_0000 <= x <= 0x7fff_ffff

  /** Narrows a mathematical result to 32 bits, as Java's `int` arithmetic does. */
  function Wrap(x: int): (r: int32)
    ensures (r - x) % Modulus == 0
    ensures MinInt32 <= x <= MaxInt32 ==> r == x
  {
    (x - MinInt32) % Modulus + MinInt32
  }

  /** `x + 1` on a Java `int`: wraps from `Integer.MAX_VALUE` to `Integer.MIN_VALUE`. */
  function Inc(x: int32): (r: int32)
    ensures x < MaxInt32 ==> r == x + 1
    ensures x == MaxInt32 ==> r == MinInt32
  {
    Wrap(x + 1)
  }
}
