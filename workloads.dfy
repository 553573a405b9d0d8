/** The two sample workloads of bench/bench.go: the naive recursive
    Fibonacci function and the sieve of Eratosthenes. */
module Workloads {

  // ---------------------------------------------------------------------
  // Fibonacci
  // ---------------------------------------------------------------------

  /** Go's `Fibonacci`, over unbounded integers: `n` itself for `n <= 1`
      (negative arguments included), otherwise the sum of the two
      preceding values. */
  function Fibonacci(n: int): (f: int)
    decreases n
  {
    if n <= 1 then n else Fibonacci(n - 1) + Fibonacci(n - 2)
  }

  /** An independent, linear-time definition: the pair of consecutive
      Fibonacci numbers reached after `n` steps from `(0, 1)`. */
  function FibonacciPair(n: nat): (pair: (int, int))
  {
    if n == 0 then (0, 1)
    else
      var (a, b) := FibonacciPair(n - 1);
      (b, a + b)
  }

  /** The recursive definition and the iterated pair agree everywhere. */
  lemma {:induction false} FibonacciMatchesPair(n: nat)
    ensures FibonacciPair(n) == (Fibonacci(n), Fibonacci(n + 1))
  {
    if n > 0 {
      FibonacciMatchesPair(n - 1);
    }
  }

  /** On natural numbers the sequence is non-negative. */
  lemma {:induction false} FibonacciNonNegative(n: int)
    requires n >= 0
    ensures Fibonacci(n) >= 0
    decreases n
  {
    if n >= 2 {
      FibonacciNonNegative(n - 1);
      FibonacciNonNegative(n - 2);
    }
  }

  /** On natural numbers the sequence is non-decreasing. */
  lemma {:induction false} FibonacciMonotone(m: int, n: int)
    requires 0 <= m <= n
    ensures Fibonacci(m) <= Fibonacci(n)
    decreases n
  {
    if m < n {
      FibonacciMonotone(m, n - 1);
      if n >= 2 {
        FibonacciNonNegative(n - 2);
      }
    }
  }

  /** `Fibonacci(10)` is 55. */
  lemma FibonacciOfTen()
    ensures Fibonacci(10) == 55
  {
  }

  // ---------------------------------------------------------------------
  // Sieve of Eratosthenes
  // ---------------------------------------------------------------------

  /** `k` is prime: at least 2 and divisible by no number from 2 to `k - 1`. */
  predicate IsPrime(k: int)
  {
    k >= 2 && forall d :: 2 <= d < k ==> k % d != 0
  }

  predicate StrictlyIncreasing(s: seq<int>)
  {
    forall a, b :: 0 <= a < b < |s| ==> s[a] < s[b]
  }

  /** `k` has a divisor `d` with `2 <= d < i` and `d * d <= k`: `k` is
      crossed out once the sieve has processed every `d` below `i`. */
  ghost predicate HasFactorBelow(k: int, i: int)
  {
    exists d :: 2 <= d < i && d * d <= k && k % d == 0
  }

  /** No `e` with `d <= e` and `e * e <= k` divides `k`; computable. */
  function NoDivisorFrom(k: int, d: int): bool
    requires d >= 2
    decreases k - d
  {
    d * d > k || (k % d != 0 && NoDivisorFrom(k, d + 1))
  }

  /** A reference list of the primes up to `n`, by trial division. */
  function PrimesUpTo(n: int): (primes: seq<int>)
    decreases n
  {
    if n < 2 then []
    else PrimesUpTo(n - 1) + (if NoDivisorFrom(n, 2) then [n] else [])
  }

  // Arithmetic facts about `*` and `%` that the solver does not find alone.

  lemma MulSign(a: int, x: int)
    requires a > 0
    ensures x >= 1 ==> a * x >= a
    ensures x <= -1 ==> a * x <= -a
    ensures x >= 0 ==> a * x >= 0
    ensures x <= 0 ==> a * x <= 0
  {
  }

  lemma SquareMono(x: int, y: int)
    requires 0 <= x
    ensures x <= y ==> x * x <= y * y
  {
    if x <= y {
      assert y * y - x * x == (y - x) * (y + x);
      if x > 0 { MulSign(y + x, y - x); }
    }
  }

  lemma AtMostSquare(x: int)
    requires x >= 1
    ensures x <= x * x
  {
    MulSign(x, x - 1);
    assert x * x - x == x * (x - 1);
  }

  lemma MultipleMod(a: int, b: int)
    requires a > 0
    ensures (a * b) % a == 0
  {
    var q, r := (a * b) / a, (a * b) % a;
    assert a * b == a * q + r;
    assert a * (b - q) == a * b - a * q;
    MulSign(a, b - q);
  }

  lemma DividesTransitive(d: int, i: int, k: int)
    requires d > 0 && i > 0 && i % d == 0 && k % i == 0
    ensures k % d == 0
  {
    var a, b := i / d, k / i;
    assert i == d * a;
    assert k == i * b;
    assert k == d * (a * b);
    MultipleMod(d, a * b);
  }

  lemma NextMultiple(j: int, i: int)
    requires i > 0 && j % i == 0
    ensures (j + i) % i == 0
    ensures forall k :: j < k < j + i ==> k % i != 0
  {
    var q := j / i;
    assert j == i * q;
    assert j + i == i * (q + 1);
    MultipleMod(i, q + 1);
    forall k | j < k < j + i
      ensures k % i != 0
    {
      var q' := k / i;
      assert k == i * q' + k % i;
      assert k - j == i * (q' - q) + k % i;
      MulSign(i, q' - q);
    }
  }

  /** A composite number has a factor no larger than its square root. */
  lemma SmallFactor(k: int, d: int)
    requires 2 <= d < k && k % d == 0
    ensures exists e :: 2 <= e && e * e <= k && k % e == 0
  {
    var q := k / d;
    assert k == d * q + k % d;
    MulMonotone(q, 1, d);
    assert q >= 2;
    if d <= q {
      MulMonotone(d, q, d);
      assert 2 <= d && d * d <= k && k % d == 0;
    } else {
      MulMonotone(q, d, q);
      MultipleMod(q, d);
      assert 2 <= q && q * q <= k && k % q == 0;
    }
  }

  lemma MulMonotone(a: int, b: int, c: int)
    requires c >= 0
    ensures a <= b ==> a * c <= b * c
  {
    if a <= b {
      assert b * c - a * c == c * (b - a);
      if c > 0 { MulSign(c, b - a); }
    }
  }

  /** A factor no larger than the square root makes a number composite. */
  lemma FactorMeansComposite(k: int, d: int)
    requires 2 <= d && d * d <= k && k % d == 0
    ensures !IsPrime(k)
  {
    assert d * d == d * (d - 2) + 2 * d;
    MulSign(d, d - 2);
    assert 2 <= d < k;
  }

  /** Below `i * i`, a composite number has a factor below `i`. */
  lemma CompositeHasFactorBelow(k: int, i: int)
    requires 2 <= k < i * i && i >= 2 && !IsPrime(k)
    ensures HasFactorBelow(k, i)
  {
    var d :| 2 <= d < k && k % d == 0;
    SmallFactor(k, d);
    var e :| 2 <= e && e * e <= k && k % e == 0;
    SquareMono(i, e);
    assert e < i;
  }

  /** Below `i * i`, being prime is having no factor below `i`. */
  lemma PrimeIffNoFactorBelow(k: int, i: int)
    requires 2 <= k < i * i && i >= 2
    ensures IsPrime(k) <==> !HasFactorBelow(k, i)
  {
    if HasFactorBelow(k, i) {
      var d :| 2 <= d < i && d * d <= k && k % d == 0;
      FactorMeansComposite(k, d);
    }
    if !IsPrime(k) {
      CompositeHasFactorBelow(k, i);
    }
  }

  lemma {:induction false} NoDivisorFromMeans(k: int, d: int)
    requires d >= 2
    ensures NoDivisorFrom(k, d) <==> forall e :: d <= e && e * e <= k ==> k % e != 0
    decreases k - d
  {
    if d * d <= k {
      MulSign(d, d - 1);
      NoDivisorFromMeans(k, d + 1);
    } else {
      forall e | d <= e
        ensures e * e > k
      {
        SquareMono(d, e);
      }
    }
  }

  /** The trial division of `PrimesUpTo` decides `IsPrime`. */
  lemma NoDivisorFromDecidesPrime(k: int)
    requires k >= 2
    ensures NoDivisorFrom(k, 2) <==> IsPrime(k)
  {
    NoDivisorFromMeans(k, 2);
    SquareMono(k, k + 1);
    MulSign(k, k);
    PrimeIffNoFactorBelow(k, k + 1);
    forall e | 2 <= e
      ensures e <= e * e
    {
      MulSign(e, e - 1);
    }
  }

  /** The reference list is strictly increasing and holds exactly the
      primes from 2 to `n`. */
  lemma {:induction false} PrimesUpToMeans(n: int)
    ensures StrictlyIncreasing(PrimesUpTo(n))
    ensures forall p :: p in PrimesUpTo(n) <==> 2 <= p <= n && IsPrime(p)
    decreases n
  {
    if n >= 2 {
      var pre := PrimesUpTo(n - 1);
      PrimesUpToMeans(n - 1);
      NoDivisorFromDecidesPrime(n);
      var last := if NoDivisorFrom(n, 2) then [n] else [];
      assert PrimesUpTo(n) == pre + last;
      forall p
        ensures p in PrimesUpTo(n) <==> 2 <= p <= n && IsPrime(p)
      {
        assert p in PrimesUpTo(n) <==> p in pre || p in last;
      }
      forall a | 0 <= a < |pre|
        ensures pre[a] < n
      {
        assert pre[a] in pre;
      }
    }
  }

  /** The primes up to 30. */
  lemma PrimesUpToThirty()
    ensures PrimesUpTo(30) == [2, 3, 5, 7, 11, 13, 17, 19, 23, 29]
  {
    assert PrimesUpTo(3) == [2, 3];
    assert PrimesUpTo(5) == [2, 3, 5];
    assert PrimesUpTo(7) == [2, 3, 5, 7];
    assert PrimesUpTo(9) == [2, 3, 5, 7];
    assert PrimesUpTo(11) == [2, 3, 5, 7, 11];
    assert PrimesUpTo(13) == [2, 3, 5, 7, 11, 13];
    assert PrimesUpTo(15) == [2, 3, 5, 7, 11, 13];
    assert PrimesUpTo(17) == [2, 3, 5, 7, 11, 13, 17];
    assert PrimesUpTo(19) == [2, 3, 5, 7, 11, 13, 17, 19];
    assert PrimesUpTo(21) == [2, 3, 5, 7, 11, 13, 17, 19];
    assert PrimesUpTo(23) == [2, 3, 5, 7, 11, 13, 17, 19, 23];
    assert PrimesUpTo(25) == [2, 3, 5, 7, 11, 13, 17, 19, 23];
    assert PrimesUpTo(27) == [2, 3, 5, 7, 11, 13, 17, 19, 23];
    assert PrimesUpTo(29) == [2, 3, 5, 7, 11, 13, 17, 19, 23, 29];
  }

  /** Processing `i` adds the multiples of `i` from `i * i` on. */
  lemma FactorBelowStep(k: int, i: int)
    requires i >= 2
    ensures HasFactorBelow(k, i + 1) <==> HasFactorBelow(k, i) || (i * i <= k && k % i == 0)
  {
    if HasFactorBelow(k, i + 1) && !HasFactorBelow(k, i) {
      var d :| 2 <= d < i + 1 && d * d <= k && k % d == 0;
      assert d == i;
    }
  }

  /** When `i` is itself crossed out, its multiples from `i * i` on already
      are: the sieve may skip `i`. */
  lemma CrossedOutByFactor(i: int, k: int)
    requires i >= 2 && HasFactorBelow(i, i)
    ensures i * i <= k && k % i == 0 ==> HasFactorBelow(k, i)
  {
    if i * i <= k && k % i == 0 {
      var d :| 2 <= d < i && d * d <= i && i % d == 0;
      DividesTransitive(d, i, k);
      AtMostSquare(i);
      assert 2 <= d < i && d * d <= k && k % d == 0;
    }
  }

  /** The marking part of `SieveOfEratosthenes`: fills `isPrime` with true,
      then for each `i` with `i * i <= n` still marked, crosses out
      `i * i, i * i + i, ...` up to `n`. Afterwards an entry from 2 on is
      true exactly when its index is prime; entries 0 and 1 stay true.
      Go's `make` panics on a negative length, hence `n >= -1`. */
  method Sieve(n: int) returns (isPrime: array<bool>)
    requires n >= -1
    ensures fresh(isPrime) && isPrime.Length == n + 1
    ensures forall k :: 0 <= k <= n ==> isPrime[k] == (k < 2 || IsPrime(k))
  {
    isPrime := new bool[n + 1];
    for i := 0 to n + 1
      invariant forall k :: 0 <= k < i ==> isPrime[k]
    {
      isPrime[i] := true;
    }

    var i := 2;
    while i * i <= n
      invariant 2 <= i
      invariant forall k :: 0 <= k <= n ==> isPrime[k] == (k < 2 || !HasFactorBelow(k, i))
    {
      AtMostSquare(i);
      if isPrime[i] {
        CrossOutMultiples(isPrime, i, n);
        forall k | 0 <= k <= n
          ensures isPrime[k] == (k < 2 || !HasFactorBelow(k, i + 1))
        {
          FactorBelowStep(k, i);
        }
      } else {
        forall k | 0 <= k <= n
          ensures isPrime[k] == (k < 2 || !HasFactorBelow(k, i + 1))
        {
          FactorBelowStep(k, i);
          CrossedOutByFactor(i, k);
        }
      }
      i := i + 1;
    }
    forall k | 2 <= k <= n
      ensures isPrime[k] == IsPrime(k)
    {
      PrimeIffNoFactorBelow(k, i);
    }
  }

  /** The inner loop of the sieve: crosses out `i * i, i * i + i, ...` up to
      `n` and leaves every other entry as it was. */
  method CrossOutMultiples(isPrime: array<bool>, i: int, n: int)
    requires isPrime.Length == n + 1 && i >= 2
    modifies isPrime
    ensures forall k :: 0 <= k <= n ==>
      isPrime[k] == (old(isPrime[k]) && !(i * i <= k && k % i == 0))
  {
    var j := i * i;
    MultipleMod(i, i);
    while j <= n
      invariant i * i <= j && j % i == 0
      invariant forall k :: 0 <= k <= n ==>
        isPrime[k] == (old(isPrime[k]) && !(i * i <= k < j && k % i == 0))
    {
      isPrime[j] := false;
      NextMultiple(j, i);
      j := j + i;
    }
  }

  /** Go's `SieveOfEratosthenes`: the indices from 2 to `n` still marked,
      collected in ascending order, are exactly the primes up to `n`. */
  method SieveOfEratosthenes(n: int) returns (primes: seq<int>)
    requires n >= -1
    ensures StrictlyIncreasing(primes)
    ensures forall p :: p in primes <==> 2 <= p <= n && IsPrime(p)
    ensures primes == PrimesUpTo(n)
  {
    var isPrime := Sieve(n);
    primes := [];
    var i := 2;
    while i <= n
      invariant 2 <= i <= if n < 2 then 2 else n + 1
      invariant primes == PrimesUpTo(i - 1)
      modifies {}
    {
      NoDivisorFromDecidesPrime(i);
      if isPrime[i] {
        primes := primes + [i];
      }
      i := i + 1;
    }
    PrimesUpToMeans(n);
  }
}
