/** utils.py: distance, the collision test, clamping and vector
    normalization. `math.hypot` is a parameter of type `Hypot`; the members
    that need its properties require `IsHypot`. */
module Utils {
  import opened Planets

  /** The type of `math.hypot`. */
  type Hypot = (real, real) -> real

  /** What the model assumes of `math.hypot`: it is the Euclidean norm, a
      non-negative square root of a*a + b*b that is zero only at the origin. */
  ghost predicate IsHypot(hypot: Hypot)
  {
    forall a: real, b: real ::
      0.0 <= hypot(a, b) &&
      hypot(a, b) * hypot(a, b) == a * a + b * b &&
      (hypot(a, b) == 0.0 <==> a == 0.0 && b == 0.0)
  }

  /** Two non-negative reals with the same square are equal. */
  lemma SquareRootUnique(r: real, s: real)
    requires 0.0 <= r && 0.0 <= s && r * r == s * s
    ensures r == s
  {
    assert (r - s) * (r + s) == r * r - s * s;
    if r + s != 0.0 {
      assert r - s == 0.0;
    }
  }

  /** The Euclidean distance between the positions of two planets. */
  function Distance(hypot: Hypot, p1: Body, p2: Body): (d: real)
    ensures IsHypot(hypot) ==>
      0.0 <= d && d * d == (p2.x - p1.x) * (p2.x - p1.x) + (p2.y - p1.y) * (p2.y - p1.y)
    ensures IsHypot(hypot) ==> (d == 0.0 <==> p1.x == p2.x && p1.y == p2.y)
  {
    hypot(p2.x - p1.x, p2.y - p1.y)
  }

  lemma DistanceSymmetric(hypot: Hypot, p1: Body, p2: Body)
    requires IsHypot(hypot)
    ensures Distance(hypot, p1, p2) == Distance(hypot, p2, p1)
  {
    var d, e := Distance(hypot, p1, p2), Distance(hypot, p2, p1);
    assert d * d == e * e;
    SquareRootUnique(d, e);
  }

  /** True if two planets touch. Two planets, or two black holes, touch when
      their distance is at most the sum of the radii; a planet and a black
      hole touch when the distance is at most the planet's radius plus a
      third of the black hole's. */
  function CheckCollision(hypot: Hypot, p1: Body, p2: Body): (c: bool)
    ensures p1.blackHole == p2.blackHole ==>
      (c <==> Distance(hypot, p1, p2) <= p1.radius + p2.radius)
  {
    if p1.blackHole && !p2.blackHole then
      var distanceToBlackHole := Distance(hypot, p1, p2);
      distanceToBlackHole <= p2.radius + p1.radius / 3.0
    else if p2.blackHole && !p1.blackHole then
      var distanceToBlackHole := Distance(hypot, p1, p2);
      distanceToBlackHole <= p1.radius + p2.radius / 3.0
    else
      Distance(hypot, p1, p2) <= p1.radius + p2.radius
  }

  lemma CheckCollisionSymmetric(hypot: Hypot, p1: Body, p2: Body)
    requires IsHypot(hypot)
    ensures CheckCollision(hypot, p1, p2) == CheckCollision(hypot, p2, p1)
  {
    DistanceSymmetric(hypot, p1, p2);
  }

  /** A planet and a black hole collide exactly when the planet comes within
      its own radius plus a third of the black hole's radius, whichever of
      the two is passed first. */
  lemma BlackHoleCollision(hypot: Hypot, planet: Body, hole: Body)
    requires IsHypot(hypot)
    requires hole.blackHole && !planet.blackHole
    ensures CheckCollision(hypot, planet, hole) <==>
      Distance(hypot, planet, hole) <= planet.radius + hole.radius / 3.0
    ensures CheckCollision(hypot, hole, planet) <==>
      Distance(hypot, planet, hole) <= planet.radius + hole.radius / 3.0
  {
    DistanceSymmetric(hypot, planet, hole);
  }

  /** With non-negative radii, the black-hole rule is the stricter one: every
      collision it reports is also reported by the plain radius-sum test. */
  lemma CollisionWithinRadiusSum(hypot: Hypot, p1: Body, p2: Body)
    requires 0.0 <= p1.radius && 0.0 <= p2.radius
    requires CheckCollision(hypot, p1, p2)
    ensures Distance(hypot, p1, p2) <= p1.radius + p2.radius
  {
    if p1.blackHole && !p2.blackHole {
      assert p1.radius / 3.0 <= p1.radius;
    } else if p2.blackHole && !p1.blackHole {
      assert p2.radius / 3.0 <= p2.radius;
    }
  }

  /** `max(minValue, min(value, maxValue))`. */
  function Clamp(value: real, minValue: real, maxValue: real): (r: real)
    ensures minValue <= maxValue ==> minValue <= r <= maxValue
    ensures minValue <= value <= maxValue ==> r == value
    ensures r == value || r == minValue || r == maxValue
  {
    var upper := if value <= maxValue then value else maxValue;
    if minValue >= upper then minValue else upper
  }

  lemma ClampIdempotent(value: real, minValue: real, maxValue: real)
    requires minValue <= maxValue
    ensures Clamp(Clamp(value, minValue, maxValue), minValue, maxValue) == Clamp(value, minValue, maxValue)
  {
  }

  /** The unit vector in the direction (dx, dy), or (0, 0) for the zero
      vector. */
  function NormalizeVector(hypot: Hypot, dx: real, dy: real): (n: (real, real))
  {
    var magnitude := hypot(dx, dy);
    if magnitude == 0.0 then (0.0, 0.0)
    else (dx / magnitude, dy / magnitude)
  }

  /** The result is (0, 0) exactly for the zero vector. */
  lemma NormalizeVectorZero(hypot: Hypot, dx: real, dy: real)
    requires IsHypot(hypot)
    ensures NormalizeVector(hypot, dx, dy) == (0.0, 0.0) <==> dx == 0.0 && dy == 0.0
  {
  }

  /** If p and q scale the positive square m2 to its two parts, they add up
      to one. */
  lemma UnitFromScaledParts(p: real, q: real, m2: real, u: real, v: real)
    requires p * m2 == u && q * m2 == v && m2 == u + v && m2 != 0.0
    ensures p + q == 1.0
  {
    assert (p + q) * m2 == p * m2 + q * m2;
    assert (p + q - 1.0) * m2 == (p + q) * m2 - m2;
  }

  /** For a non-zero vector the result has unit length and is the vector
      scaled by the positive factor 1 / hypot(dx, dy). */
  lemma NormalizeVectorUnit(hypot: Hypot, dx: real, dy: real)
    requires IsHypot(hypot)
    requires dx != 0.0 || dy != 0.0
    ensures var n := NormalizeVector(hypot, dx, dy);
      n.0 * n.0 + n.1 * n.1 == 1.0 &&
      n.0 * hypot(dx, dy) == dx && n.1 * hypot(dx, dy) == dy &&
      0.0 < hypot(dx, dy)
  {
    var m := hypot(dx, dy);
    var n := NormalizeVector(hypot, dx, dy);
    var a, b := dx / m, dy / m;
    assert n == (a, b);
    assert a * m == dx && b * m == dy;
    assert (a * a) * (m * m) == dx * dx by {
      assert (a * a) * (m * m) == (a * m) * (a * m);
    }
    assert (b * b) * (m * m) == dy * dy by {
      assert (b * b) * (m * m) == (b * m) * (b * m);
    }
    assert m * m == dx * dx + dy * dy;
    UnitFromScaledParts(a * a, b * b, m * m, dx * dx, dy * dy);
  }

  /** (-a) / m == -(a / m). */
  lemma NegatedQuotient(a: real, m: real)
    requires m != 0.0
    ensures (-a) / m == -(a / m)
  {
    assert ((-a) / m + a / m) * m == ((-a) / m) * m + (a / m) * m;
  }

  /** hypot is even in both arguments taken together. */
  lemma HypotNegated(hypot: Hypot, dx: real, dy: real)
    requires IsHypot(hypot)
    ensures hypot(-dx, -dy) == hypot(dx, dy)
  {
    assert (-dx) * (-dx) == dx * dx && (-dy) * (-dy) == dy * dy;
    SquareRootUnique(hypot(-dx, -dy), hypot(dx, dy));
  }

  /** Reversing a vector reverses its unit vector. */
  lemma NormalizeVectorNegated(hypot: Hypot, dx: real, dy: real)
    requires IsHypot(hypot)
    ensures NormalizeVector(hypot, -dx, -dy) ==
      (-NormalizeVector(hypot, dx, dy).0, -NormalizeVector(hypot, dx, dy).1)
  {
    HypotNegated(hypot, dx, dy);
    if hypot(dx, dy) != 0.0 {
      NegatedQuotient(dx, hypot(dx, dy));
      NegatedQuotient(dy, hypot(dx, dy));
    }
  }
}
