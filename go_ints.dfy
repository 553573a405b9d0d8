/** Go's fixed-width integers as Dafny subset types of `int`, with the
    two's-complement wrap-around of Go's `+` and `-` on them, and Go's
    quotient `/`, which truncates toward zero. */
module GoInts {

  const TwoTo63: int := 0x8000_0000_0000_0000
  const TwoTo64: int := 0x1_0000_0000_0000_0000

  /** Go `uint64`. */
  type Uint64 = x: int | 0 <= x < TwoTo64

  /** Go `int64`; also `int` on a 64-bit platform and `time.Duration`
      (a count of nanoseconds). */
  type Int64 = x: int | -TwoTo63 <= x < TwoTo63

  /** Reduces a mathematical integer to the `uint64` with the same low 64 bits. */
  function WrapU64(x: int): (r: Uint64)
    ensures (x - r) % TwoTo64 == 0
    ensures 0 <= x < TwoTo64 ==> r == x
  {
    x % TwoTo64
  }

  /** Reduces a mathematical integer to the `int64` with the same low 64 bits. */
  function WrapI64(x: int): (r: Int64)
    ensures (x - r) % TwoTo64 == 0
    ensures -TwoTo63 <= x < TwoTo63 ==> r == x
  {
    var m := x % TwoTo64;
    if m < TwoTo63 then m else m - TwoTo64
  }

  /** Go `a + b` on `uint64`. */
  function AddU64(a: Uint64, b: Uint64): (r: Uint64)
    ensures r == a + b || r == a + b - TwoTo64
    ensures a + b < TwoTo64 ==> r == a + b
  {
    WrapU64(a + b)
  }

  /** Go `a - b` on `uint64`: the difference wraps when `b > a`. */
  function SubU64(a: Uint64, b: Uint64): (r: Uint64)
    ensures AddU64(b, r) == a
    ensures b <= a ==> r == a - b
    ensures a < b ==> r == a - b + TwoTo64
  {
    WrapU64(a - b)
  }

  /** Go `a + b` on `int64`. */
  function AddI64(a: Int64, b: Int64): (r: Int64)
    ensures r == a + b || r == a + b - TwoTo64 || r == a + b + TwoTo64
    ensures -TwoTo63 <= a + b < TwoTo63 ==> r == a + b
  {
    WrapI64(a + b)
  }

  /** Go `a / b` on `int64` for a positive divisor: the quotient is rounded
      toward zero, so the remainder takes the sign of `a` (Dafny's own `/` is
      Euclidean and differs for negative `a`). */
  function QuoI64(a: Int64, b: Int64): (q: Int64)
    requires b > 0
    ensures 0 <= a ==> 0 <= a - q * b < b
    ensures a < 0 ==> -b < a - q * b <= 0
  {
    if a >= 0 then
      assert a == (a / b) * b + a % b;
      a / b
    else
      var m: int := 0 - (a as int);
      assert m == (m / b) * b + m % b;
      -(m / b)
  }

  /** Go `a / b` on `uint64` for a positive divisor: the floor of the quotient. */
  function QuoU64(a: Uint64, b: Uint64): (q: Uint64)
    requires b > 0
    ensures q * b <= a < q * b + b
  {
    assert a == (a / b) * b + a % b;
    a / b
  }

  /** Wrapping depends only on the value modulo 2^64. */
  lemma WrapU64Congruent(x: int, y: int)
    requires (x - y) % TwoTo64 == 0
    ensures WrapU64(x) == WrapU64(y)
  {
  }

  /** Wrapping depends only on the value modulo 2^64. */
  lemma WrapI64Congruent(x: int, y: int)
    requires (x - y) % TwoTo64 == 0
    ensures WrapI64(x) == WrapI64(y)
  {
  }

  /** The sum of two multiples of 2^64 is one. */
  lemma MultiplesAdd(x: int, y: int)
    requires x % TwoTo64 == 0 && y % TwoTo64 == 0
    ensures (x + y) % TwoTo64 == 0
  {
    assert x == (x / TwoTo64) * TwoTo64;
    assert y == (y / TwoTo64) * TwoTo64;
    assert x + y == (x / TwoTo64 + y / TwoTo64) * TwoTo64;
  }

  /** Adding to an already wrapped `uint64` wraps like adding to the unwrapped value. */
  lemma WrapU64AddRight(x: int, y: int)
    ensures WrapU64(WrapU64(x) + y) == WrapU64(x + y)
  {
    var w := WrapU64(x);
    assert x == (x / TwoTo64) * TwoTo64 + w;
    assert (w + y) - (x + y) == -(x / TwoTo64) * TwoTo64;
    WrapU64Congruent(w + y, x + y);
  }

  /** Adding to an already wrapped `int64` wraps like adding to the unwrapped value. */
  lemma WrapI64AddRight(x: int, y: int)
    ensures WrapI64(WrapI64(x) + y) == WrapI64(x + y)
  {
    var w := WrapI64(x);
    assert w == x % TwoTo64 || w == x % TwoTo64 - TwoTo64;
    assert x == (x / TwoTo64) * TwoTo64 + x % TwoTo64;
    WrapI64Congruent(w + y, x + y);
  }
}
