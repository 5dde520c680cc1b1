/** Python's number conversions, on reals and integers.

    `Round` is Python's built-in round to a whole number (ties go to the even neighbour) and
    `Trunc` is int(). They are written out because the source turns coordinates into pixels
    with both, and a bound that ignored the half-pixel would not be honest. */
module Numeric {

  function Max(a: real, b: real): real {
    if a >= b then a else b
  }

  function Min(a: real, b: real): real {
    if a <= b then a else b
  }

  function MaxInt(a: int, b: int): int {
    if a >= b then a else b
  }

  function MinInt(a: int, b: int): int {
    if a <= b then a else b
  }

  /** round(x): the nearest integer, the even one of the two when x is half-way. */
  function Round(x: real): (r: int)
    ensures -0.5 <= r as real - x <= 0.5
    ensures (r as real - x == 0.5 || r as real - x == -0.5) ==> r % 2 == 0
  {
    var f := x.Floor;
    var d := x - f as real;
    if d < 0.5 || (d == 0.5 && f % 2 == 0) then f else f + 1
  }

  /** The two facts in Round's contract determine it. */
  lemma RoundUnique(x: real, n: int)
    requires -0.5 <= n as real - x <= 0.5
    requires (n as real - x == 0.5 || n as real - x == -0.5) ==> n % 2 == 0
    ensures Round(x) == n
  {
  }

  lemma RoundMonotone(x: real, y: real)
    requires x <= y
    ensures Round(x) <= Round(y)
  {
  }

  lemma RoundOfWhole(n: int)
    ensures Round(n as real) == n
  {
  }

  /** int(x) on a non-negative number. */
  function Trunc(x: real): (r: int)
    requires x >= 0.0
    ensures r >= 0 && r as real <= x < r as real + 1.0
  {
    x.Floor
  }

  // Whole-number division, spelt out so that no other proof has to search for it.

  lemma MulAtLeast(k: int, m: int)
    requires k >= 1 && m > 0
    ensures k * m >= m
  {
  }

  lemma MulInOrder(x: nat, y: nat, each: nat)
    requires x <= y
    ensures x * each <= y * each
  {
  }

  lemma SameQuotient(e: int, s: int, d: int, r: int, m: int)
    requires 0 <= r < m && 0 <= s < m && e * m + s == d * m + r
    ensures e == d
  {
    if e > d { MulAtLeast(e - d, m); }
    if e < d { MulAtLeast(d - e, m); }
  }

  lemma DivUnique(x: int, d: int, r: int, m: int)
    requires 0 <= r < m && x == d * m + r
    ensures x / m == d && x % m == r
  {
    SameQuotient(x / m, x % m, d, r, m);
  }

  lemma Divided(x: nat, m: nat)
    requires m > 0
    ensures 0 <= x / m && 0 <= x % m < m && x == x / m * m + x % m
  {
  }

  lemma DivPlus(q: int, m: int)
    requires m > 0
    ensures (q + m) / m == q / m + 1
  {
    DivUnique(q + m, q / m + 1, q % m, m);
  }

  /** k wholes of p fit in b exactly when k is at most b / p. */
  lemma FitsTimes(k: int, p: int, b: int)
    requires p > 0
    ensures k * p <= b <==> k <= b / p
  {
    if k <= b / p {
      assert (b / p - k) * p >= 0;
    } else {
      MulAtLeast(k - b / p, p);
    }
  }

  // Products and quotients of reals, for the same reason.

  lemma TimesInOrder(x: real, y: real, z: real)
    requires x <= y && z >= 0.0
    ensures x * z <= y * z
  {
  }

  lemma QuotientUnique(x: real, y: real, b: real, r: real)
    requires b > 0.0 && x * b == r && y == r / b
    ensures x == y
  {
  }

  /** n times c, by addition: the product, without a multiplication for other proofs to meet. */
  function Times(n: nat, c: real): real {
    if n == 0 then 0.0 else Times(n - 1, c) + c
  }

  lemma {:induction false} TimesIsProduct(n: nat, c: real)
    ensures Times(n, c) == c * n as real
  {
    if n > 0 {
      TimesIsProduct(n - 1, c);
      OneMore(c, (n - 1) as real);
    }
  }

  lemma OneMore(c: real, x: real)
    ensures c * (x + 1.0) == c * x + c
  {
  }

  /** The same for a whole amount. */
  lemma {:induction false} TimesIsWhole(n: nat, each: nat)
    ensures Times(n, each as real) == (each * n) as real
  {
    if n > 0 {
      TimesIsWhole(n - 1, each);
      assert each * n == each * (n - 1) + each;
    }
  }
}
