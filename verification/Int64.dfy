/** Go's fixed-width integers, as far as the modelled code depends on them:
    bytes, the int64 range, and the 128-bit primitives of math/bits. */
module Int64 {

  type byte = x: int | 0 <= x < 256

  const MAX_INT64: int := 0x7FFF_FFFF_FFFF_FFFF
  const MIN_INT64: int := -0x8000_0000_0000_0000
  const TWO_64: int := 0x1_0000_0000_0000_0000

  predicate IsInt64(x: int) {
    MIN_INT64 <= x <= MAX_INT64
  }

  predicate IsUint64(x: int) {
    0 <= x < TWO_64
  }

  function Max(a: int, b: int): int {
    if a >= b then a else b
  }

  lemma MulNonneg(x: int, y: int)
    requires 0 <= x && 0 <= y
    ensures 0 <= x * y
  {
  }

  lemma MulMonotone(x: int, y: int, z: int)
    requires x <= y && 0 <= z
    ensures x * z <= y * z
  {
  }

  /** bits.Mul64: the 128-bit product as high and low words. */
  function Mul64(x: int, y: int): (r: (int, int))
    requires IsUint64(x) && IsUint64(y)
    ensures IsUint64(r.0) && IsUint64(r.1)
    ensures r.0 * TWO_64 + r.1 == x * y
  {
    MulNonneg(x, y);
    MulMonotone(x, TWO_64, y);
    (x * y / TWO_64, x * y % TWO_64)
  }

  /** bits.Div64: divides a 128-bit number; panics unless hi < y. */
  function Div64(hi: int, lo: int, y: int): (r: (int, int))
    requires IsUint64(hi) && IsUint64(lo) && IsUint64(y)
    requires hi < y
    ensures IsUint64(r.0) && 0 <= r.1 < y
    ensures r.0 * y + r.1 == hi * TWO_64 + lo
  {
    var n := hi * TWO_64 + lo;
    DivModBasics(n, y);
    assert n < y * TWO_64;
    QuotientBound(n, y, TWO_64);
    (n / y, n % y)
  }

  lemma DivModBasics(n: int, d: int)
    requires d > 0
    ensures n / d * d + n % d == n && 0 <= n % d < d
  {
  }

  lemma QuotientBound(n: int, d: int, k: int)
    requires d > 0 && 0 <= n < d * k
    ensures 0 <= n / d < k
  {
    DivModBasics(n, d);
    var q := n / d;
    if q >= k {
      MulMonotone(k, q, d);
      assert false;
    }
    if q < 0 {
      MulMonotone(q, -1, d);
      assert false;
    }
  }
}
