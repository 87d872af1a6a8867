/** Go's fixed-width integer conversions, written out over unbounded integers. */
module Integers {
  const TWO_31: int := 0x8000_0000
  const TWO_32: int := 0x1_0000_0000
  const TWO_63: int := 0x8000_0000_0000_0000
  const TWO_64: int := 0x1_0000_0000_0000_0000

  predicate IsUint32(x: int) { 0 <= x < TWO_32 }
  predicate IsInt32(x: int) { -TWO_31 <= x < TWO_31 }
  predicate IsUint64(x: int) { 0 <= x < TWO_64 }
  predicate IsInt64(x: int) { -TWO_63 <= x < TWO_63 }

  /** `uint32(x)`: keep the low 32 bits. */
  function ToUint32(x: int): (r: int)
    ensures IsUint32(r)
    ensures IsUint32(x) <==> r == x
    ensures (r - x) % TWO_32 == 0
  {
    x % TWO_32
  }

  /** `int32(x)`: keep the low 32 bits and read them as two's complement. */
  function ToInt32(x: int): (r: int)
    ensures IsInt32(r)
    ensures IsInt32(x) <==> r == x
    ensures (r - x) % TWO_32 == 0
  {
    var low := x % TWO_32;
    if low < TWO_31 then low else low - TWO_32
  }
}
