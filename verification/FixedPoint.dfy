/**
 `FixedU128`, the 18-decimal fixed point behind `Ratio` and `Price`.

 Both of its operations come down to one library routine that divides a product.
 The routine is not part of this model, and its rounding depends on the operands, so it is
 a parameter: every result holds for all routines that stay between floor and ceiling.
 */
module FixedPoint {
  import opened Primitives

  /** `mulDiv(a, b, c)` stands for a rounded `a * b / c`. */
  type MulDiv = (nat, nat, nat) -> nat

  /** One in fixed point: ten to the 18th. */
  const ONE: nat := 1_000_000_000_000_000_000

  /** `r` is the floor or the ceiling of `a * b / c`. */
  predicate IsRounded(a: nat, b: nat, c: nat, r: nat) {
    a * b - c < r * c < a * b + c
  }

  ghost predicate Rounds(mulDiv: MulDiv) {
    forall a: nat, b: nat, c: nat :: c > 0 ==> IsRounded(a, b, c, mulDiv(a, b, c))
  }

  ghost predicate Truncates(mulDiv: MulDiv) {
    forall a: nat, b: nat, c: nat :: c > 0 ==> mulDiv(a, b, c) == a * b / c
  }

  /** `checked_from_rational(n, d)`, as the number of 10^-18 units. */
  function CheckedFromRational(mulDiv: MulDiv, n: nat, d: nat): Option<nat> {
    if d == 0 || mulDiv(n, ONE, d) > U128_MAX then None else Some(mulDiv(n, ONE, d))
  }

  /** `checked_mul_int`. */
  function CheckedMulInt(mulDiv: MulDiv, x: nat, n: nat): Option<nat> {
    if mulDiv(x, n, ONE) > U128_MAX then None else Some(mulDiv(x, n, ONE))
  }

  /** `checked_from_rational(n, d).and_then(|r| r.checked_mul_int(x))`. */
  function CheckedScale(mulDiv: MulDiv, n: nat, d: nat, x: nat): Option<nat> {
    match CheckedFromRational(mulDiv, n, d)
    case None => None
    case Some(ratio) => CheckedMulInt(mulDiv, ratio, x)
  }

  /** The value `CheckedScale` returns when nothing overflows. */
  function Scale(mulDiv: MulDiv, n: nat, d: nat, x: nat): nat {
    mulDiv(mulDiv(n, ONE, d), x, ONE)
  }

  lemma TruncatingRounds(mulDiv: MulDiv)
    requires Truncates(mulDiv)
    ensures Rounds(mulDiv)
  {
    forall a: nat, b: nat, c: nat | c > 0
      ensures IsRounded(a, b, c, mulDiv(a, b, c))
    {
      QuotientBounds(a * b, c);
    }
  }

  lemma QuotientBounds(x: nat, c: nat)
    requires c > 0
    ensures x - c < (x / c) * c <= x
  {
  }

  lemma MulMonotone(x: int, y: int, k: int)
    requires x <= y && 0 <= k
    ensures x * k <= y * k
  {
  }

  lemma MulStrictlyMonotone(x: int, y: int, k: int)
    requires x < y && 0 < k
    ensures x * k < y * k
  {
  }

  /** A rounded quotient of a value at most `m * c` is at most `m`. */
  lemma RoundedAtMost(a: nat, b: nat, c: nat, r: nat, m: nat)
    requires c > 0 && IsRounded(a, b, c, r) && a * b <= m * c
    ensures r <= m
  {
    if r > m {
      MulMonotone(m + 1, r, c);
    }
  }

  /** An exact quotient is not rounded. */
  lemma RoundedExact(a: nat, b: nat, c: nat, r: nat, m: nat)
    requires c > 0 && IsRounded(a, b, c, r) && a * b == m * c
    ensures r == m
  {
    RoundedAtMost(a, b, c, r, m);
    if r < m {
      MulMonotone(r + 1, m, c);
    }
  }

  /** Scaling by a proper fraction never overflows and never exceeds what is scaled. */
  lemma ScaleByFraction(mulDiv: MulDiv, n: nat, d: nat, x: nat)
    requires Rounds(mulDiv) && n <= d && 0 < d && x <= U128_MAX
    ensures mulDiv(n, ONE, d) <= ONE
    ensures Scale(mulDiv, n, d, x) <= x
    ensures CheckedScale(mulDiv, n, d, x) == Some(Scale(mulDiv, n, d, x))
  {
    var ratio := mulDiv(n, ONE, d);
    MulMonotone(n, d, ONE);
    RoundedAtMost(n, ONE, d, ratio, ONE);
    MulMonotone(ratio, ONE, x);
    RoundedAtMost(ratio, x, ONE, mulDiv(ratio, x, ONE), x);
  }

  /** Scaling by one is exact. */
  lemma ScaleByOne(mulDiv: MulDiv, d: nat, x: nat)
    requires Rounds(mulDiv) && 0 < d
    ensures Scale(mulDiv, d, d, x) == x
  {
    RoundedExact(d, ONE, d, mulDiv(d, ONE, d), ONE);
    RoundedExact(ONE, x, ONE, mulDiv(ONE, x, ONE), x);
  }

  /** How far two roundings can move `n / d * x`, with denominators cleared. */
  lemma ScaleError(mulDiv: MulDiv, n: nat, d: nat, x: nat)
    requires Rounds(mulDiv) && 0 < d
    ensures (n * x - Scale(mulDiv, n, d, x) * d) * ONE < d * (ONE + x)
    ensures (Scale(mulDiv, n, d, x) * d - n * x) * ONE < d * (ONE + x)
  {
    var q := mulDiv(n, ONE, d);
    var r := mulDiv(q, x, ONE);
    assert IsRounded(n, ONE, d, q) && IsRounded(q, x, ONE, r);
    ScaleErrorFrom(ONE, n, d, x, q, r);
  }

  lemma SplitError(one: int, n: int, d: int, x: int, q: int, r: int)
    ensures (r * d - n * x) * one == (q * d - n * one) * x + (r * one - q * x) * d
  {
  }

  lemma ScaleErrorFrom(one: nat, n: nat, d: nat, x: nat, q: nat, r: nat)
    requires 0 < d && 0 < one
    requires IsRounded(n, one, d, q) && IsRounded(q, x, one, r)
    ensures (n * x - r * d) * one < d * (one + x)
    ensures (r * d - n * x) * one < d * (one + x)
  {
    var e1 := q * d - n * one;
    var e2 := r * one - q * x;
    assert 0 - d < e1 < d && 0 - one < e2 < one;
    SplitError(one, n, d, x, q, r);
    assert 0 - d * x <= e1 * x <= d * x by {
      MulMonotone(e1, d, x);
      MulMonotone(0 - d, e1, x);
    }
    assert 0 - one * d < e2 * d < one * d by {
      MulStrictlyMonotone(e2, one, d);
      MulStrictlyMonotone(0 - one, e2, d);
    }
  }
}
