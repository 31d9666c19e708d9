/** Shared vocabulary: optional values, bytes and the 64-bit integer range of
    Go's `int64`/`time.Duration`. */
module Common {

  /** Go's `nil`-or-value, and an error string where Go returns `error`. */
  datatype Option<+T> = None | Some(value: T)

  /** A Go byte. */
  type byte = x: int | 0 <= x < 256

  const MinInt64: int := -0x8000_0000_0000_0000
  const MaxInt64: int := 0x7FFF_FFFF_FFFF_FFFF

  predicate IsInt64(n: int) {
    MinInt64 <= n <= MaxInt64
  }

  /** Go's `int64`, and `time.Duration` (a count of nanoseconds). */
  type Int64 = x: int | -0x8000_0000_0000_0000 <= x <= 0x7FFF_FFFF_FFFF_FFFF

  /** Two's-complement wrap-around of an arbitrary integer into the int64 range. */
  function Wrap64(n: int): (r: int)
    ensures IsInt64(r)
    ensures (r - n) % 0x1_0000_0000_0000_0000 == 0
    ensures IsInt64(n) ==> r == n
  {
    var m := (n - MinInt64) % 0x1_0000_0000_0000_0000;
    m + MinInt64
  }

  /** One second of `time.Duration`, in nanoseconds. */
  const Second: int := 1_000_000_000
}
