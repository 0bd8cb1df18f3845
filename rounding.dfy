/**
  Python's built-in `round(x)` for a single argument: the nearest integer,
  with an exact half rounded to the even neighbour (`round(1.5) == 2`,
  `round(2.5) == 2`, `round(-1.5) == -2`). The quotient `n / d` is taken as an
  exact rational, so this is the rounding of the true value.
 */
module Rounding {

  function Abs(x: int): (a: int)
    ensures a >= 0 && (a == x || a == -x)
  {
    if x < 0 then -x else x
  }

  /** `r` is a nearest integer to `n / d`, and the even one on a tie. */
  ghost predicate IsRoundHalfEven(n: int, d: int, r: int)
    requires d > 0
  {
    && 2 * Abs(n - r * d) <= d
    && (2 * Abs(n - r * d) == d ==> r % 2 == 0)
  }

  /** `round(n / d)` with ties to even, on the exact quotient. */
  function RoundHalfEven(n: int, d: int): (r: int)
    requires d > 0
    ensures 2 * Abs(n - r * d) <= d
    ensures 2 * Abs(n - r * d) == d ==> r % 2 == 0
  {
    var q, rem := n / d, n % d;
    assert n - q * d == rem;
    assert n - (q + 1) * d == rem - d;
    if 2 * rem < d then q
    else if 2 * rem > d then q + 1
    else if q % 2 == 0 then q
    else q + 1
  }

  /** The multiples of a positive `d` that lie within `d` of zero. */
  lemma SmallMultiple(k: int, d: int)
    requires d > 0
    ensures k >= 2 ==> k * d >= 2 * d
    ensures k <= -2 ==> k * d <= -2 * d
    ensures k == 1 ==> k * d == d
    ensures k == -1 ==> k * d == -d
  {
    if k >= 2 {
      assert k * d == 2 * d + (k - 2) * d;
    } else if k <= -2 {
      assert k * d == -2 * d + (k + 2) * d;
    }
  }

  /** Two nearest integers of the same quotient, `r` and `r + k`, lie within
      half a divisor of it, so they are a divisor or less apart; a divisor
      apart only on a tie, where both would have to be even. Here `a` and `b`
      stand for `n - r * d` and `n - (r + k) * d`, and `m` for `k * d`. */
  lemma NeighbourUnique(a: int, b: int, k: int, d: int, m: int, r: int)
    requires d > 0 && a - b == m
    requires 2 * Abs(a) <= d && (2 * Abs(a) == d ==> r % 2 == 0)
    requires 2 * Abs(b) <= d && (2 * Abs(b) == d ==> (r + k) % 2 == 0)
    requires k >= 2 ==> m >= 2 * d
    requires k <= -2 ==> m <= -2 * d
    requires k == 1 ==> m == d
    requires k == -1 ==> m == -d
    ensures k == 0
  {
  }

  /** The two conditions pin the result down: no other integer meets them. */
  lemma RoundHalfEvenUnique(n: int, d: int, r: int)
    requires d > 0
    requires IsRoundHalfEven(n, d, r)
    ensures r == RoundHalfEven(n, d)
  {
    var s := RoundHalfEven(n, d);
    var k := s - r;
    Distribute(r, k, d);
    SmallMultiple(k, d);
    NeighbourUnique(n - r * d, n - s * d, k, d, k * d, r);
  }

  lemma Distribute(r: int, k: int, d: int)
    ensures (r + k) * d == r * d + k * d
  {
  }

  /** Ties to even is symmetric: rounding commutes with negation. */
  lemma RoundHalfEvenNegate(n: int, d: int)
    requires d > 0
    ensures RoundHalfEven(-n, d) == -RoundHalfEven(n, d)
  {
    var r := RoundHalfEven(n, d);
    var a := n - r * d;
    Distribute(-r, r, d);
    assert -n - (-r) * d == -a;
    assert Abs(-a) == Abs(a);
    assert r % 2 == 0 ==> (-r) % 2 == 0;
    assert IsRoundHalfEven(-n, d, -r);
    RoundHalfEvenUnique(-n, d, -r);
  }

  /** An exact multiple rounds to its quotient. */
  lemma RoundHalfEvenExact(k: int, d: int)
    requires d > 0
    ensures RoundHalfEven(k * d, d) == k
  {
    assert k * d - k * d == 0;
    RoundHalfEvenUnique(k * d, d, k);
  }
}
