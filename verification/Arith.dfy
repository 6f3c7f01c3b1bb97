/** Products, quotients and remainders by a variable divisor, one small fact at a time. */
module Arith {

  lemma ProductNonNegative(a: int, b: int)
    requires a >= 0 && b >= 0
    ensures a * b >= 0
  {
  }

  lemma Distribute(a: int, b: int, d: int)
    ensures (a - b) * d == a * d - b * d
    ensures (a + b) * d == a * d + b * d
  {
  }

  lemma ZeroMultiple(k: int, d: int)
    requires 0 - d < k * d < d
    ensures k == 0
  {
    if k >= 1 {
      ProductNonNegative(k - 1, d);
    } else if k <= -1 {
      ProductNonNegative(-1 - k, d);
    }
  }

  lemma DivMod(n: int, d: int)
    requires 1 <= d
    ensures n == (n / d) * d + n % d && 0 <= n % d < d
  {
  }

  lemma DivModUnique(q: int, r: int, d: int)
    requires 0 <= r < d
    ensures (q * d + r) / d == q && (q * d + r) % d == r
  {
    var n := q * d + r;
    DivMod(n, d);
    Distribute(n / d, q, d);
    ZeroMultiple(n / d - q, d);
  }

  /** Moving by whole multiples of the divisor does not change the remainder. */
  lemma ModShift(n: int, k: int, d: int)
    requires 1 <= d
    ensures (n + k * d) % d == n % d
  {
    DivMod(n, d);
    Distribute(n / d, k, d);
    DivModUnique(n / d + k, n % d, d);
  }

  lemma ModSmall(n: int, d: int)
    requires 0 <= n < d
    ensures n % d == n
  {
    DivModUnique(0, n, d);
  }

  /** A remainder may be taken before adding. */
  lemma ModSum(a: int, k: int, d: int)
    requires 1 <= d
    ensures (a % d + k) % d == (a + k) % d
  {
    DivMod(a, d);
    ModShift(a % d + k, a / d, d);
  }

  /** Two numbers with one remainder differ by a multiple of the divisor. */
  lemma SameModDistance(a: int, b: int, d: int)
    requires 1 <= d
    requires a % d == b % d
    requires 0 - d < a - b < d
    ensures a == b
  {
    DivMod(a, d);
    DivMod(b, d);
    Distribute(a / d, b / d, d);
    ZeroMultiple(a / d - b / d, d);
  }
}
