/** Exact versions of the UnityEngine.Mathf routines the combat rules use:
    integers and reals instead of 32-bit ints and floats. */
module Mathf {

  /** Mathf.Clamp on ints. The lower bound is tested first, so for an empty
      range (hi < lo) a value below lo gives lo and any other value gives hi. */
  function Clamp(x: int, lo: int, hi: int): (r: int)
    ensures lo <= hi ==> lo <= r <= hi
    ensures lo <= x <= hi ==> r == x
    ensures x < lo ==> r == lo
    ensures lo <= x && hi < x ==> r == hi
  {
    if x < lo then lo else if x > hi then hi else x
  }

  /** Mathf.Clamp on floats, with the same test order as the int version. */
  function ClampReal(x: real, lo: real, hi: real): (r: real)
    ensures lo <= hi ==> lo <= r <= hi
    ensures lo <= x <= hi ==> r == x
    ensures x < lo ==> r == lo
    ensures lo <= x && hi < x ==> r == hi
  {
    if x < lo then lo else if x > hi then hi else x
  }

  /** Mathf.Lerp, a + (b - a) * Clamp01(t): interpolates from a to b, with t
      first clamped to [0, 1]. The two clamped ends are written out, where the
      product is exactly a and exactly b. */
  function Lerp(a: real, b: real, t: real): (r: real)
    ensures t <= 0.0 ==> r == a
    ensures t >= 1.0 ==> r == b
    ensures a <= b ==> a <= r <= b
    ensures b <= a ==> b <= r <= a
  {
    if t <= 0.0 then a
    else if t >= 1.0 then b
    else
      LerpStaysBetween(a, b, t);
      a + (b - a) * t
  }

  /** Mathf.RoundToInt: nearest integer, ties going to the even neighbour. */
  function RoundToInt(x: real): (r: int)
    ensures -0.5 <= x - r as real <= 0.5
    ensures x - r as real == 0.5 ==> r % 2 == 0
    ensures r as real - x == 0.5 ==> r % 2 == 0
  {
    var f := x.Floor;
    var d := x - f as real;
    if d < 0.5 then f
    else if d > 0.5 then f + 1
    else if f % 2 == 0 then f
    else f + 1
  }

  /** Mathf.Pow restricted to a natural exponent, as repeated multiplication. */
  function Pow(b: real, n: nat): (r: real)
    ensures b >= 0.0 ==> r >= 0.0
    ensures b >= 1.0 ==> r >= 1.0
  {
    if n == 0 then 1.0
    else
      var p := Pow(b, n - 1);
      if b >= 0.0 then MulNonNeg(b, p); MulAtLeast(b, p); b * p
      else b * p
  }

  /** Rounding picks the unique integer within one half of x, the even one on a tie. */
  lemma RoundToIntUnique(x: real, n: int)
    requires -0.5 < x - n as real < 0.5 || ((x - n as real == 0.5 || n as real - x == 0.5) && n % 2 == 0)
    ensures RoundToInt(x) == n
  {
  }

  /** An integer-valued real rounds to itself. */
  lemma RoundToIntOfInt(n: int)
    ensures RoundToInt(n as real) == n
  {
    RoundToIntUnique(n as real, n);
  }

  /** Rounding is monotone. */
  lemma RoundToIntMonotone(x: real, y: real)
    requires x <= y
    ensures RoundToInt(x) <= RoundToInt(y)
  {
  }

  /** Lerp moves monotonically from a toward b as t grows. */
  lemma LerpMonotone(a: real, b: real, t1: real, t2: real)
    requires a <= b && t1 <= t2
    ensures Lerp(a, b, t1) <= Lerp(a, b, t2)
  {
    var u1, u2 := ClampReal(t1, 0.0, 1.0), ClampReal(t2, 0.0, 1.0);
    MulNonNeg(b - a, u2 - u1);
    assert (b - a) * u2 - (b - a) * u1 == (b - a) * (u2 - u1);
    LerpIsAffine(a, b, t1);
    LerpIsAffine(a, b, t2);
  }

  /** Lerp in its closed form, whichever side of [0, 1] t lies. */
  lemma LerpIsAffine(a: real, b: real, t: real)
    ensures Lerp(a, b, t) == a + (b - a) * ClampReal(t, 0.0, 1.0)
  {
  }

  /** For a base of at least one, a larger exponent gives a larger power. */
  lemma {:induction false} PowMonotone(b: real, m: nat, n: nat)
    requires b >= 1.0 && m <= n
    ensures Pow(b, m) <= Pow(b, n)
  {
    if m < n {
      PowMonotone(b, m, n - 1);
      MulAtLeast(b, Pow(b, n - 1));
    }
  }

  /** The product of two non-negative reals is non-negative. */
  lemma MulNonNeg(x: real, y: real)
    requires x >= 0.0 && y >= 0.0
    ensures x * y >= 0.0
  {
  }

  /** Scaling by a non-negative factor keeps the order. */
  lemma MulMonotone(b: real, p1: real, p2: real)
    requires b >= 0.0 && p1 <= p2
    ensures b * p1 <= b * p2
  {
    MulNonNeg(b, p2 - p1);
    assert b * (p2 - p1) == b * p2 - b * p1;
  }

  /** Multiplying a non-negative value by a factor of at least one does not shrink it. */
  lemma MulAtLeast(b: real, p: real)
    ensures b >= 1.0 && p >= 0.0 ==> b * p >= p
  {
    if b >= 1.0 && p >= 0.0 {
      MulNonNeg(b - 1.0, p);
    }
  }

  /** a + (b - a) * u lies between a and b for every u in [0, 1]. */
  lemma LerpStaysBetween(a: real, b: real, u: real)
    requires 0.0 <= u <= 1.0
    ensures a <= b ==> a <= a + (b - a) * u <= b
    ensures b <= a ==> b <= a + (b - a) * u <= a
  {
    assert (b - a) * (1.0 - u) == (b - a) - (b - a) * u;
    if a <= b {
      MulNonNeg(b - a, u);
      MulNonNeg(b - a, 1.0 - u);
    } else {
      assert (b - a) * u == -((a - b) * u);
      assert (b - a) * (1.0 - u) == -((a - b) * (1.0 - u));
      MulNonNeg(a - b, u);
      MulNonNeg(a - b, 1.0 - u);
    }
  }

  /** Dividing by a positive real keeps the order. */
  lemma DivMonotone(x: real, y: real, d: real)
    requires d > 0.0 && x <= y
    ensures x / d <= y / d
  {
    var q := y / d - x / d;
    assert q * d == y - x;
  }

  /** A positive real divided by itself is one. */
  lemma DivSelf(d: real)
    requires d > 0.0
    ensures d / d == 1.0
  {
  }

  /** Dividing by a non-zero real and multiplying back gives the value again. */
  lemma DivMulCancel(x: real, d: real)
    requires d != 0.0
    ensures x / d * d == x
  {
  }
}
