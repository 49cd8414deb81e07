/** The direction-to-colour encoding shared by every painting space: the
    difference of two positions is normalised and each signed component
    u in [-1, 1] is mapped to the colour channel (u + 1) * 0.5, so that 0.5
    means "no movement along this axis". Planar spaces (the image editor's
    screen space and UV space) fill the third channel with 0; object and
    world space use all three. */
module DirectionEncoder {
  import opened Wrappers
  import opened Vectors

  /** An RGB brush colour. */
  datatype Color = Color(r: real, g: real, b: real)

  /** Maps a signed direction component onto a colour channel. */
  function ToChannel(u: real): real {
    (u + 1.0) * 0.5
  }

  /** Reads a signed direction component back from a colour channel. */
  function FromChannel(c: real): real {
    c * 2.0 - 1.0
  }

  /** The direction a three-channel colour stands for. */
  function SpatialDirection(c: Color): Vec3 {
    Vec3(FromChannel(c.r), FromChannel(c.g), FromChannel(c.b))
  }

  /** The direction a planar colour stands for (its third channel is unused). */
  function PlanarDirection(c: Color): Vec2 {
    Vec2(FromChannel(c.r), FromChannel(c.g))
  }

  ghost predicate InUnitRange(c: Color) {
    && 0.0 <= c.r <= 1.0
    && 0.0 <= c.g <= 1.0
    && 0.0 <= c.b <= 1.0
  }

  /** `u` is the unit vector pointing the way `d` points. */
  ghost predicate IsUnitDirection(u: Vec3, d: Vec3) {
    && SqLen(u) == 1.0
    && exists k: real :: k > 0.0 && Scale(u, k) == d
  }

  /** `d` divided component-wise by `n`. */
  function Divide(d: Vec3, n: real): Vec3
    requires n != 0.0
  {
    Vec3(Quot(d.x, n), Quot(d.y, n), Quot(d.z, n))
  }

  /** Dividing a non-zero vector by its length gives a unit vector that,
      scaled back by that length, is the vector again. */
  lemma DivideByLength(d: Vec3, n: real)
    requires n > 0.0 && Sq(n) == SqLen(d)
    ensures IsUnitDirection(Divide(d, n), d)
  {
    var u := Divide(d, n);
    QuotTimes(d.x, n);
    QuotTimes(d.y, n);
    QuotTimes(d.z, n);
    assert Scale(u, n) == d;
    SqLenScale(u, n);
    SquarePositive(n);
    CancelPositive(SqLen(u), Sq(n));
  }

  /** x * c == c with c positive forces x to be one. */
  lemma CancelPositive(x: real, c: real)
    requires c > 0.0 && Mul(c, x) == c
    ensures x == 1.0
  {
  }

  /** A factor that is not zero can be cancelled. */
  lemma CancelFactor(a: real, b: real, k: real)
    requires k != 0.0 && Mul(a, k) == Mul(b, k)
    ensures a == b
  {
  }

  /** A length is zero exactly for the zero vector, and otherwise dividing
      by it yields the vector's unit direction. */
  lemma LengthFacts(d: Vec3, n: real)
    requires n >= 0.0 && Sq(n) == SqLen(d)
    ensures n == 0.0 <==> d == Zero3
    ensures n != 0.0 ==> IsUnitDirection(Divide(d, n), d)
  {
    SqLenSign(d);
    SquareSign(n);
    if n != 0.0 {
      DivideByLength(d, n);
    }
  }

  /** There is only one unit vector pointing the way a vector points. */
  lemma {:induction false} UnitDirectionUnique(u1: Vec3, u2: Vec3, d: Vec3)
    requires IsUnitDirection(u1, d) && IsUnitDirection(u2, d)
    ensures u1 == u2
  {
    var k1: real :| k1 > 0.0 && Scale(u1, k1) == d;
    var k2: real :| k2 > 0.0 && Scale(u2, k2) == d;
    SqLenScale(u1, k1);
    SqLenScale(u2, k2);
    RootUnique(k1, k2);
    CancelFactor(u1.x, u2.x, k1);
    CancelFactor(u1.y, u2.y, k1);
    CancelFactor(u1.z, u2.z, k1);
  }

  /** What a Euclidean norm says about one vector: it is zero exactly for
      the zero vector, and dividing by it otherwise gives the vector's unit
      direction. */
  lemma NormFacts(d: Vec3, norm: Vec3 -> real)
    requires IsEuclidean(norm)
    ensures norm(d) == 0.0 <==> d == Zero3
    ensures norm(d) != 0.0 ==> IsUnitDirection(Divide(d, norm(d)), d)
  {
    LengthFacts(d, Length(norm, d));
  }

  /** The unit vector in the direction of `d`, or None when `d` has length
      zero: the shared "normalise, give up on a zero norm" step. */
  function Normalize(d: Vec3, norm: Vec3 -> real): (r: Option<Vec3>)
    requires IsEuclidean(norm)
    ensures r.None? <==> d == Zero3
    ensures r.Some? ==> IsUnitDirection(r.value, d)
  {
    var n := norm(d);
    NormFacts(d, norm);
    if n == 0.0 then None else Some(Divide(d, n))
  }

  /** The colour of a 3-D unit direction. */
  function SpatialColor(u: Vec3): (c: Color)
    ensures SpatialDirection(c) == u
    ensures SqLen(u) == 1.0 ==> InUnitRange(c)
  {
    ComponentsWithinUnit(u);
    Color(ToChannel(u.x), ToChannel(u.y), ToChannel(u.z))
  }

  /** The colour of a planar unit direction; the third channel is 0. */
  function PlanarColor(u: Vec3): (c: Color)
    ensures Lift(PlanarDirection(c)) == Vec3(u.x, u.y, 0.0)
    ensures c.b == 0.0
    ensures SqLen(u) == 1.0 ==> InUnitRange(c)
  {
    ComponentsWithinUnit(u);
    Color(ToChannel(u.x), ToChannel(u.y), 0.0)
  }

  /** Object- and world-space encoding of the movement from `prev` to `cur`. */
  function EncodeSpatial(cur: Vec3, prev: Vec3, norm: Vec3 -> real): (r: Option<Color>)
    requires IsEuclidean(norm)
    ensures r.None? <==> cur == prev
    ensures r.Some? ==> InUnitRange(r.value)
    ensures r.Some? ==> IsUnitDirection(SpatialDirection(r.value), Sub3(cur, prev))
  {
    match Normalize(Sub3(cur, prev), norm)
    case None => None
    case Some(u) => Some(SpatialColor(u))
  }

  /** UV-space encoding of the movement from `prev` to `cur`. */
  function EncodePlanar(cur: Vec2, prev: Vec2, norm: Vec3 -> real): (r: Option<Color>)
    requires IsEuclidean(norm)
    ensures r.None? <==> cur == prev
    ensures r.Some? ==> InUnitRange(r.value) && r.value.b == 0.0
    ensures r.Some? ==> IsUnitDirection(Lift(PlanarDirection(r.value)), Lift(Sub2(cur, prev)))
  {
    match Normalize(Lift(Sub2(cur, prev)), norm)
    case None => None
    case Some(u) =>
      assert u.z == 0.0 by {
        var k: real :| k > 0.0 && Scale(u, k) == Lift(Sub2(cur, prev));
      }
      Some(PlanarColor(u))
  }

  /** The image editor's screen-space encoding. Unlike the other spaces it
      always yields a colour: a zero movement normalises to the zero vector,
      which maps to the neutral (0.5, 0.5, 0). */
  function EncodeScreen(cur: Vec2, prev: Vec2, norm: Vec3 -> real): (r: Color)
    requires IsEuclidean(norm)
    ensures cur == prev ==> r == Color(0.5, 0.5, 0.0)
    ensures cur != prev ==> EncodePlanar(cur, prev, norm) == Some(r)
    ensures InUnitRange(r) && r.b == 0.0
  {
    match Normalize(Lift(Sub2(cur, prev)), norm)
    case None => PlanarColor(Zero3)
    case Some(u) => PlanarColor(u)
  }

  /** The zero vector has no direction. */
  lemma ZeroHasNoDirection(u: Vec3)
    ensures !IsUnitDirection(u, Zero3)
  {
    if IsUnitDirection(u, Zero3) {
      var k: real :| k > 0.0 && Scale(u, k) == Zero3;
      CancelFactor(u.x, 0.0, k);
      CancelFactor(u.y, 0.0, k);
      CancelFactor(u.z, 0.0, k);
      assert u == Zero3;
      SqLenSign(u);
    }
  }

  /** Object- and world-space encoding is exactly "the colour whose decoding
      is the unit direction of the movement": any colour with that property
      is the one the encoder returns. */
  lemma {:induction false} SpatialEncodingExact(cur: Vec3, prev: Vec3, c: Color, norm: Vec3 -> real)
    requires IsEuclidean(norm)
    requires IsUnitDirection(SpatialDirection(c), Sub3(cur, prev))
    ensures EncodeSpatial(cur, prev, norm) == Some(c)
  {
    if cur == prev {
      assert Sub3(cur, prev) == Zero3;
      ZeroHasNoDirection(SpatialDirection(c));
    } else {
      var c0 := EncodeSpatial(cur, prev, norm).value;
      UnitDirectionUnique(SpatialDirection(c0), SpatialDirection(c), Sub3(cur, prev));
    }
  }

  /** The same characterisation for UV space, whose colours have a zero
      third channel. */
  lemma {:induction false} PlanarEncodingExact(cur: Vec2, prev: Vec2, c: Color, norm: Vec3 -> real)
    requires IsEuclidean(norm)
    requires c.b == 0.0
    requires IsUnitDirection(Lift(PlanarDirection(c)), Lift(Sub2(cur, prev)))
    ensures EncodePlanar(cur, prev, norm) == Some(c)
  {
    if cur == prev {
      assert Lift(Sub2(cur, prev)) == Zero3;
      ZeroHasNoDirection(Lift(PlanarDirection(c)));
    } else {
      var c0 := EncodePlanar(cur, prev, norm).value;
      UnitDirectionUnique(Lift(PlanarDirection(c0)), Lift(PlanarDirection(c)), Lift(Sub2(cur, prev)));
    }
  }

  /** A Euclidean norm of a vector whose length is known is that length. */
  lemma NormIs(norm: Vec3 -> real, v: Vec3, len: real)
    requires IsEuclidean(norm)
    requires len >= 0.0 && Sq(len) == SqLen(v)
    ensures norm(v) == len
  {
    RootUnique(Length(norm, v), len);
  }

  /** A horizontal stroke in the image editor is painted (1, 0.5, 0) when it
      goes towards +x and (0, 0.5, 0) when it goes towards -x. */
  lemma ScreenHorizontal(a: real, b: real, norm: Vec3 -> real)
    requires IsEuclidean(norm)
    requires a != b
    ensures EncodeScreen(Vec2(a, 0.0), Vec2(b, 0.0), norm) == Color(if a > b then 1.0 else 0.0, 0.5, 0.0)
  {
    var v := Vec3(a - b, 0.0, 0.0);
    var len := if a > b then a - b else b - a;
    assert Sq(0.0) == 0.0;
    SquareOfNegation(a - b);
    assert Sq(len) == SqLen(v);
    NormIs(norm, v, len);
    assert Lift(Sub2(Vec2(a, 0.0), Vec2(b, 0.0))) == v;
    assert Quot(a - b, len) == (if a > b then 1.0 else -1.0) by {
      QuotTimes(a - b, len);
      CancelFactor(Quot(a - b, len), if a > b then 1.0 else -1.0, len);
    }
    assert Quot(0.0, len) == 0.0 by {
      QuotTimes(0.0, len);
      CancelFactor(Quot(0.0, len), 0.0, len);
    }
    assert Divide(v, len) == Vec3(if a > b then 1.0 else -1.0, 0.0, 0.0);
  }
}
