/** Go's 64-bit signed integers (`int64`, and `int` on a 64-bit platform). */
module GoInt {

  const MaxInt64: int := 0x7FFF_FFFF_FFFF_FFFF
  const MinInt64: int := -0x8000_0000_0000_0000
  const TwoTo64: int := 0x1_0000_0000_0000_0000

  type Int64 = x: int | MinInt64 <= x <= MaxInt64

  /** The value Go's `+` on two `int64` operands yields: the mathematical
      result reduced into the two's-complement range. */
  function Wrap64(x: int): (r: Int64)
    ensures (x - r) % TwoTo64 == 0
    ensures MinInt64 <= x <= MaxInt64 ==> r == x
  {
    var m := x % TwoTo64;
    if m <= MaxInt64 then m else m - TwoTo64
  }
}
