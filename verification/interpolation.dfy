/** Linear interpolation, used to back-fill brush dots along a fast stroke. */
module Interpolation {
  import opened Vectors

  /** The point `mix` of the way from `a` to `b`. */
  function Lerp(mix: real, a: real, b: real): (r: real)
    ensures mix == 0.0 ==> r == a
    ensures mix == 1.0 ==> r == b
  {
    (b - a) * mix + a
  }

  /** Interpolation of both coordinates between two window positions. */
  function LerpPoint(mix: real, a: Pixel, b: Pixel): (r: Vec2)
    ensures mix == 0.0 ==> r == ToVec2(a)
    ensures mix == 1.0 ==> r == ToVec2(b)
  {
    Vec2(Lerp(mix, a.x as real, b.x as real), Lerp(mix, a.y as real, b.y as real))
  }

  function Min(a: real, b: real): real {
    if a <= b then a else b
  }

  function Max(a: real, b: real): real {
    if a <= b then b else a
  }

  /** A fraction of a non-negative real is between zero and that real. */
  lemma FractionWithin(p: real, q: real)
    requires p >= 0.0 && 0.0 <= q <= 1.0
    ensures 0.0 <= Mul(p, q) <= p
  {
    assert Mul(p, q) + Mul(p, 1.0 - q) == p;
    if p > 0.0 && q > 0.0 {
      PositiveProduct(p, q);
    }
    if p > 0.0 && q < 1.0 {
      PositiveProduct(p, 1.0 - q);
    }
  }

  /** For a mix in [0, 1] the interpolated value lies between the endpoints. */
  lemma LerpBetween(mix: real, a: real, b: real)
    requires 0.0 <= mix <= 1.0
    ensures Min(a, b) <= Lerp(mix, a, b) <= Max(a, b)
  {
    if a <= b {
      FractionWithin(b - a, mix);
    } else {
      FractionWithin(a - b, mix);
      assert Mul(a - b, mix) == -((b - a) * mix);
    }
  }

  /** Equal steps of the mix give equal steps of the result: the distance
      between two interpolated values is the mix difference times the span. */
  lemma LerpDifference(m1: real, m2: real, a: real, b: real)
    ensures Lerp(m1, a, b) - Lerp(m2, a, b) == Mul(b - a, m1 - m2)
  {
    assert (b - a) * m1 - (b - a) * m2 == (b - a) * (m1 - m2);
  }
}
