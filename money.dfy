/** Fixed-point money. Every amount in the backend is a `Decimal` with two
    decimal places, so the model counts money in integer cents and percentages
    in integer hundredths of a percent. */
module Money {

  function Min(a: int, b: int): (r: int)
    ensures r <= a && r <= b && (r == a || r == b)
  {
    if a <= b then a else b
  }

  /** `Decimal(n / d).quantize(1)` under the default decimal context, whose
      rounding mode is ROUND_HALF_EVEN: the nearest integer to n / d, ties
      going to the even neighbour. */
  function RoundHalfEven(n: int, d: int): (r: int)
    requires d > 0
    ensures -d <= 2 * (n - r * d) <= d
    ensures (2 * (n - r * d) == d || 2 * (n - r * d) == -d) ==> r % 2 == 0
  {
    var q := n / d;
    var m := n % d;
    assert n == q * d + m;
    if 2 * m < d then q
    else if 2 * m > d then q + 1
    else if q % 2 == 0 then q
    else q + 1
  }

  /** Lower bounds on a multiple of a positive number. */
  lemma {:induction false} MulLowerBound(t: int, d: int)
    requires d > 0
    ensures t >= 1 ==> t * d >= d
    ensures t >= 2 ==> t * d >= 2 * d
  {
    if t >= 2 {
      MulLowerBound(t - 1, d);
      assert t * d == (t - 1) * d + d;
    }
  }

  /** Two integers one unit apart cannot both be even. */
  lemma NeighboursParity(r: int)
    ensures !(r % 2 == 0 && (r + 1) % 2 == 0)
  {
  }

  /** If two integers x < y both lie within half a unit of n / d, they are
      neighbours sitting on a tie, one above and one below. */
  lemma TwoNearest(n: int, d: int, x: int, y: int)
    requires d > 0 && x < y
    requires -d <= 2 * (n - x * d) <= d
    requires -d <= 2 * (n - y * d) <= d
    ensures y == x + 1 && 2 * (n - x * d) == d && 2 * (n - y * d) == -d
  {
    var t := y - x;
    assert t * d == y * d - x * d;
    MulLowerBound(t, d);
    assert t == 1;
  }

  /** The two postconditions of RoundHalfEven pin the result down: any integer
      within half a unit of n / d, with ties broken to even, is that result. */
  lemma RoundHalfEvenUnique(n: int, d: int, r: int)
    requires d > 0
    requires -d <= 2 * (n - r * d) <= d
    requires (2 * (n - r * d) == d || 2 * (n - r * d) == -d) ==> r % 2 == 0
    ensures r == RoundHalfEven(n, d)
  {
    var s := RoundHalfEven(n, d);
    if r < s {
      TwoNearest(n, d, r, s);
      NeighboursParity(r);
    } else if s < r {
      TwoNearest(n, d, s, r);
      NeighboursParity(s);
    }
  }

  /** An exact multiple of d rounds to its quotient. */
  lemma RoundHalfEvenExact(k: int, d: int)
    requires d > 0
    ensures RoundHalfEven(k * d, d) == k
  {
    RoundHalfEvenUnique(k * d, d, k);
  }

  /** Two distinct multiples of d lie at least d apart, two that differ by two
      or more at least 2d. */
  lemma GapBound(x: int, y: int, d: int)
    requires d > 0
    ensures x > y ==> x * d - y * d >= d
    ensures x >= y + 2 ==> x * d - y * d >= 2 * d
  {
    var t := x - y;
    assert t * d == x * d - y * d;
    MulLowerBound(t, d);
  }

  /** The linear heart of monotonicity: ra and rb round a <= b (their
      multiples being pa and pb), so ra cannot exceed rb. */
  lemma MonotoneCore(a: int, b: int, d: int, ra: int, rb: int, pa: int, pb: int)
    requires d > 0 && a <= b
    requires -d <= 2 * (a - pa) <= d && -d <= 2 * (b - pb) <= d
    requires (2 * (a - pa) == d || 2 * (a - pa) == -d) ==> ra % 2 == 0
    requires (2 * (b - pb) == d || 2 * (b - pb) == -d) ==> rb % 2 == 0
    requires ra > rb ==> pa - pb >= d
    requires ra >= rb + 2 ==> pa - pb >= 2 * d
    ensures ra <= rb
  {
    if ra > rb {
      assert ra == rb + 1;
      NeighboursParity(rb);
    }
  }

  /** Rounding is monotone. */
  lemma RoundHalfEvenMonotone(a: int, b: int, d: int)
    requires d > 0 && a <= b
    ensures RoundHalfEven(a, d) <= RoundHalfEven(b, d)
  {
    var ra, rb := RoundHalfEven(a, d), RoundHalfEven(b, d);
    GapBound(ra, rb, d);
    MonotoneCore(a, b, d, ra, rb, ra * d, rb * d);
  }
}
