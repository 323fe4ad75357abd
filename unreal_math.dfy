/**
 * The few engine maths helpers the model needs, with the engine's own
 * semantics: FMath::Clamp, FMath::Min/Max, PI and the float-to-int roundings.
 * Floats are modelled as Dafny reals (exact arithmetic, no NaN, no overflow).
 */
module UnrealMath {
  /** UE's PI constant, written out as a decimal. */
  const Pi: real := 3.1415926535897932
  const TwoPi: real := 2.0 * Pi

  /** FMath::Clamp(X, Min, Max) = X < Min ? Min : (X < Max ? X : Max). */
  function Clamp(x: real, lo: real, hi: real): (r: real)
    ensures lo <= hi ==> lo <= r <= hi
    ensures lo <= x <= hi ==> r == x
    ensures x < lo ==> r == lo
  {
    if x < lo then lo else if x < hi then x else hi
  }

  /** FMath::Clamp on integers. */
  function ClampInt(x: int, lo: int, hi: int): (r: int)
    ensures lo <= hi ==> lo <= r <= hi
    ensures lo <= x <= hi ==> r == x
    ensures x < lo ==> r == lo
  {
    if x < lo then lo else if x < hi then x else hi
  }

  /** C++ integer remainder: truncating, so it takes the sign of the dividend. */
  function CRem(a: int, b: int): (r: int)
    requires b != 0
    ensures a >= 0 && b > 0 ==> r == a % b
    ensures a < 0 ==> -AbsInt(b) < r <= 0
  {
    if a >= 0 then a % AbsInt(b) else -((-a) % AbsInt(b))
  }

  function AbsInt(a: int): int { if a < 0 then -a else a }

  function Min(a: real, b: real): real { if a < b then a else b }
  function Max(a: real, b: real): real { if a < b then b else a }
  function MinInt(a: int, b: int): int { if a < b then a else b }
  function Abs(a: real): real { if a < 0.0 then -a else a }

  /** FMath::FloorToInt. */
  function FloorToInt(x: real): (r: int)
    ensures r as real <= x < r as real + 1.0
  {
    x.Floor
  }

  /** FMath::CeilToInt, as the negation of the floor of the negation. */
  function CeilToInt(x: real): (r: int)
    ensures r as real - 1.0 < x <= r as real
  {
    -((-x).Floor)
  }

  /** FMath::Frac: the fractional part x - floor(x). */
  function Frac(x: real): (r: real)
    ensures 0.0 <= r < 1.0
  {
    x - x.Floor as real
  }

  /** sqrt(d2) < r, for a squared distance d2 >= 0, without a square root. */
  predicate DistLess(d2: real, r: real) { r > 0.0 && d2 < r * r }
  /** sqrt(d2) <= r, for a squared distance d2 >= 0. */
  predicate DistAtMost(d2: real, r: real) { r >= 0.0 && d2 <= r * r }
  /** sqrt(d2) > r, for a squared distance d2 >= 0. */
  predicate DistMore(d2: real, r: real) { r < 0.0 || d2 > r * r }

  /** The squared-distance predicates agree with comparing the distance itself. */
  lemma DistPredicates(d: real, r: real)
    requires d >= 0.0
    ensures DistLess(d * d, r) <==> d < r
    ensures DistAtMost(d * d, r) <==> d <= r
    ensures DistMore(d * d, r) <==> d > r
  {
    if r >= 0.0 {
      if d < r { MulStrict(d, r); }
      if r < d { MulStrict(r, d); }
    }
  }

  lemma MulStrict(a: real, b: real)
    requires 0.0 <= a < b
    ensures a * a < b * b
  {
    calc {
      a * a;
    <= a * b;
    < b * b;
    }
  }

  /** A fraction t in [0, 1] of d lies between 0 and d. */
  lemma ScaleWithin(t: real, d: real)
    requires 0.0 <= t <= 1.0
    ensures d >= 0.0 ==> 0.0 <= t * d <= d
    ensures d < 0.0 ==> d <= t * d <= 0.0
  {
    if d >= 0.0 {
      MulNonNegative(t, d);
      MulNonNegative(1.0 - t, d);
    } else {
      MulNonNegative(t, -d);
      MulNonNegative(1.0 - t, -d);
    }
  }

  /** The product of two non-negative numbers is non-negative. */
  lemma MulNonNegative(x: real, y: real)
    requires x >= 0.0 && y >= 0.0
    ensures x * y >= 0.0
  {
  }

  /** A blend a + t (b - a) with t in [0, 1] lies between a and b. */
  lemma BlendWithin(t: real, a: real, b: real)
    requires 0.0 <= t <= 1.0
    ensures Min(a, b) <= a + t * (b - a) <= Max(a, b)
  {
    if a <= b {
      MulNonNegative(t, b - a);
      MulNonNegative(1.0 - t, b - a);
    } else {
      MulNonNegative(t, a - b);
      MulNonNegative(1.0 - t, a - b);
    }
  }

  /** The floor never goes down as its argument grows. */
  lemma FloorMonotone(u: real, v: real)
    requires u <= v
    ensures FloorToInt(u) <= FloorToInt(v)
  {
  }

  /** Multiplying by a non-negative factor keeps the order. */
  lemma MulMonotone(a: real, b: real, w: real)
    requires a <= b && w >= 0.0
    ensures a * w <= b * w
  {
    MulNonNegative(b - a, w);
  }

  /** Dividing by a positive m bounds of the form lo m <= s <= hi m gives lo <= s / m <= hi. */
  lemma DivBetween(s: real, m: real, lo: real, hi: real)
    requires m > 0.0 && lo * m <= s <= hi * m
    ensures lo <= s / m <= hi
  {
    assert (s / m) * m == s;
    if s / m < lo {
      MulMonotone(s / m, lo, m);
      assert false;
    }
    if s / m > hi {
      MulMonotone(hi, s / m, m);
      assert false;
    }
  }
}
