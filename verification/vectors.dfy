/** Points and vectors of the painter: whole-pixel window positions as the
    host reports them with each input event, and real-valued 2-D and 3-D
    vectors for UV, object-space and world-space geometry. */
module Vectors {

  /** A window position in whole pixels (`event.mouse_x`, `event.mouse_y`). */
  datatype Pixel = Pixel(x: int, y: int)

  datatype Vec2 = Vec2(x: real, y: real)

  datatype Vec3 = Vec3(x: real, y: real, z: real)

  const Zero3 := Vec3(0.0, 0.0, 0.0)

  function PixelSub(a: Pixel, b: Pixel): Pixel {
    Pixel(a.x - b.x, a.y - b.y)
  }

  function ToVec2(p: Pixel): Vec2 {
    Vec2(p.x as real, p.y as real)
  }

  function Sub2(a: Vec2, b: Vec2): Vec2 {
    Vec2(a.x - b.x, a.y - b.y)
  }

  function Sub3(a: Vec3, b: Vec3): Vec3 {
    Vec3(a.x - b.x, a.y - b.y, a.z - b.z)
  }

  /** A plane vector seen as a 3-D vector with no depth; its length is unchanged. */
  function Lift(v: Vec2): Vec3 {
    Vec3(v.x, v.y, 0.0)
  }

  /** A product of reals. Products and squares are kept behind functions so
      that the facts proved about them below are the ones the solver uses. */
  function Mul(p: real, q: real): real {
    p * q
  }

  function Sq(a: real): real {
    Mul(a, a)
  }

  /** A quotient; division by zero is excluded, as every caller checks first. */
  function Quot(a: real, n: real): real
    requires n != 0.0
  {
    a / n
  }

  lemma QuotTimes(a: real, n: real)
    requires n != 0.0
    ensures Mul(Quot(a, n), n) == a
  {
  }

  function Scale(v: Vec3, k: real): Vec3 {
    Vec3(Mul(v.x, k), Mul(v.y, k), Mul(v.z, k))
  }

  /** The squared Euclidean length. */
  function SqLen(v: Vec3): real {
    Sq(v.x) + Sq(v.y) + Sq(v.z)
  }

  /** The squared distance between two window positions. */
  function SqPixelDist(a: Pixel, b: Pixel): real {
    SqLen(Lift(ToVec2(PixelSub(a, b))))
  }

  /** The length `norm` assigns to `v`. Facts about lengths are stated on
      this term, so that they are brought in only where a proof asks. */
  function Length(norm: Vec3 -> real, v: Vec3): real {
    norm(v)
  }

  /** `norm` is the Euclidean length (what `numpy.linalg.norm` computes on
      finite input). Dafny's reals have no square root, so every member that
      measures a length takes the norm as a parameter constrained by this. */
  ghost predicate IsEuclidean(norm: Vec3 -> real) {
    forall v :: Length(norm, v) >= 0.0 && Sq(Length(norm, v)) == SqLen(v)
  }

  lemma PositiveProduct(p: real, q: real)
    requires p > 0.0 && q > 0.0
    ensures Mul(p, q) > 0.0
  {
  }

  lemma SquareOfNegation(a: real)
    ensures Sq(-a) == Sq(a)
  {
  }

  lemma SquarePositive(a: real)
    requires a != 0.0
    ensures Sq(a) > 0.0
  {
    if a > 0.0 {
      PositiveProduct(a, a);
    } else {
      PositiveProduct(-a, -a);
      SquareOfNegation(a);
    }
  }

  lemma SquareSign(a: real)
    ensures Sq(a) >= 0.0
    ensures Sq(a) == 0.0 <==> a == 0.0
  {
    if a != 0.0 {
      SquarePositive(a);
    }
  }

  lemma SqLenSign(v: Vec3)
    ensures SqLen(v) >= 0.0
    ensures SqLen(v) == 0.0 <==> v == Zero3
  {
    SquareSign(v.x);
    SquareSign(v.y);
    SquareSign(v.z);
  }

  /** The square of a product is the product of the squares. */
  lemma SquareOfProduct(a: real, k: real)
    ensures Sq(Mul(a, k)) == Mul(Sq(a), Sq(k))
  {
    assert (a * k) * (a * k) == (a * a) * (k * k);
  }

  /** Scaling a vector by k scales its squared length by k*k. */
  lemma SqLenScale(v: Vec3, k: real)
    ensures SqLen(Scale(v, k)) == Mul(Sq(k), SqLen(v))
  {
    SquareOfProduct(v.x, k);
    SquareOfProduct(v.y, k);
    SquareOfProduct(v.z, k);
  }

  /** Squaring is strictly monotone on non-negative reals. */
  lemma SquareStrictlyMonotone(a: real, b: real)
    requires 0.0 <= a < b
    ensures Sq(a) < Sq(b)
  {
    PositiveProduct(b - a, b + a);
    assert Mul(b - a, b + a) == Sq(b) - Sq(a);
  }

  /** Squaring is monotone on non-negative reals, in both directions. */
  lemma SquareMonotone(a: real, b: real)
    requires a >= 0.0 && b >= 0.0
    ensures a <= b <==> Sq(a) <= Sq(b)
  {
    if a < b {
      SquareStrictlyMonotone(a, b);
    } else if b < a {
      SquareStrictlyMonotone(b, a);
    }
  }

  /** A non-negative square root is unique. */
  lemma RootUnique(a: real, b: real)
    requires a >= 0.0 && b >= 0.0
    requires Sq(a) == Sq(b)
    ensures a == b
  {
    SquareMonotone(a, b);
    SquareMonotone(b, a);
  }

  /** A real whose square is at most one lies in [-1, 1]. */
  lemma SquareAtMostOne(a: real)
    requires Sq(a) <= 1.0
    ensures -1.0 <= a <= 1.0
  {
    if a > 1.0 {
      SquareStrictlyMonotone(1.0, a);
    } else if a < -1.0 {
      SquareStrictlyMonotone(1.0, -a);
      SquareOfNegation(a);
    }
  }

  /** Each component of a unit vector lies in [-1, 1]. */
  lemma ComponentsWithinUnit(u: Vec3)
    ensures SqLen(u) == 1.0 ==> -1.0 <= u.x <= 1.0 && -1.0 <= u.y <= 1.0 && -1.0 <= u.z <= 1.0
  {
    if SqLen(u) == 1.0 {
      SquareSign(u.x);
      SquareSign(u.y);
      SquareSign(u.z);
      SquareAtMostOne(u.x);
      SquareAtMostOne(u.y);
      SquareAtMostOne(u.z);
    }
  }
}
