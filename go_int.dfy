/** Go's fixed-width integer ranges, as they matter to the receiver:
    `int` is 64 bits wide, a file size is a `uint64`. */
module GoInt {

  const MaxUint64: int := 0xFFFF_FFFF_FFFF_FFFF
  const MinInt64: int := -0x8000_0000_0000_0000
  const MaxInt64: int := 0x7FFF_FFFF_FFFF_FFFF

  type Uint64 = x: int | 0 <= x <= MaxUint64

  predicate IsInt64(x: int) {
    MinInt64 <= x <= MaxInt64
  }

  /** The conversion `uint64(x)` of an `int64`: the same bits, read as unsigned. */
  function Int64ToUint64(x: int): (u: Uint64)
    requires IsInt64(x)
    ensures x >= 0 ==> u == x
    ensures x < 0 ==> u == x + MaxUint64 + 1
  {
    x % (MaxUint64 + 1)
  }
}
