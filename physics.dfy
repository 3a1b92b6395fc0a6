/** physics.py: the gravitational force between two planets, the velocity
    kick it gives them, and the collision response (separation followed by an
    impulse with restitution 1). The two updates work on Planet objects in
    place; each is specified by a function on their Body values. The
    functions take the intermediate quantities (force, normal, overlap) as
    arguments, so that the laws about them hold for any such value and are
    stated once. */
module Physics {
  import opened Planets
  import opened Utils

  /** The coefficient of restitution, hard-wired in resolve_collision. */
  const Restitution: real := 1.0

  /** The factor by which the overlap is widened "to prevent sticking". */
  const OverlapScale: real := 1.1

  // ---------------------------------------------------------------------
  // calculate_gravity
  // ---------------------------------------------------------------------

  /** The magnitude of the gravitational force between masses m1 and m2 at
      distance d: G * (m1 * m2) / d^2. */
  function ForceMagnitude(g: real, m1: real, m2: real, d: real): real
    requires d != 0.0
  {
    g * (m1 * m2) / (d * d)
  }

  /** The unit vector from p1 to p2, or (0, 0) when they are at the same
      place. */
  function CollisionNormal(hypot: Hypot, p1: Body, p2: Body): (real, real)
  {
    NormalizeVector(hypot, p2.x - p1.x, p2.y - p1.y)
  }

  /** The vector v scaled by k. */
  function Scale(k: real, v: (real, real)): (real, real)
  {
    (k * v.0, k * v.1)
  }

  /** The force on p1 from p2 by Newton's law, G * m1 * m2 / d^2 along the
      unit vector from p1 to p2, or no force when the two are at the same
      place. */
  function CalculateGravity(hypot: Hypot, g: real, p1: Body, p2: Body): (f: (real, real))
    ensures IsHypot(hypot) && p1.x == p2.x && p1.y == p2.y ==> f == (0.0, 0.0)
  {
    var distanceVal := Distance(hypot, p1, p2);
    if distanceVal == 0.0 then (0.0, 0.0)
    else
      var forceMagnitude := ForceMagnitude(g, p1.mass, p2.mass, distanceVal);
      var n := CollisionNormal(hypot, p1, p2);
      Scale(forceMagnitude, n)
  }

  /** For distinct positions the force has length G * m1 * m2 / d^2 and is
      that length times the unit vector from p1 to p2: it is parallel to
      (dx, dy), and it points towards p2 when G * m1 * m2 is positive. */
  lemma GravityLaw(hypot: Hypot, g: real, p1: Body, p2: Body)
    requires IsHypot(hypot)
    requires p1.x != p2.x || p1.y != p2.y
    ensures var f := CalculateGravity(hypot, g, p1, p2);
      var mag := ForceMagnitude(g, p1.mass, p2.mass, Distance(hypot, p1, p2));
      f.0 * f.0 + f.1 * f.1 == mag * mag &&
      f.0 * Distance(hypot, p1, p2) == mag * (p2.x - p1.x) &&
      f.1 * Distance(hypot, p1, p2) == mag * (p2.y - p1.y) &&
      (0.0 < mag ==> 0.0 < f.0 * (p2.x - p1.x) + f.1 * (p2.y - p1.y))
  {
    var d := Distance(hypot, p1, p2);
    var mag := ForceMagnitude(g, p1.mass, p2.mass, d);
    var n := CollisionNormal(hypot, p1, p2);
    NormalizeVectorUnit(hypot, p2.x - p1.x, p2.y - p1.y);
    assert CalculateGravity(hypot, g, p1, p2) == Scale(mag, n);
    ScaledUnitVector(Scale(mag, n), mag, d, n, p2.x - p1.x, p2.y - p1.y);
  }

  /** The vector f == mag * n, for a unit vector n == (dx, dy) / d with
      d > 0, has length |mag|, is parallel to (dx, dy), and makes a positive
      inner product with it when mag > 0. */
  lemma ScaledUnitVector(f: (real, real), mag: real, d: real, n: (real, real), dx: real, dy: real)
    requires f == Scale(mag, n)
    requires n.0 * n.0 + n.1 * n.1 == 1.0 && n.0 * d == dx && n.1 * d == dy && 0.0 < d
    ensures f.0 * f.0 + f.1 * f.1 == mag * mag
    ensures f.0 * d == mag * dx && f.1 * d == mag * dy
    ensures 0.0 < mag ==> 0.0 < f.0 * dx + f.1 * dy
  {
    ScaledUnitLength(mag, n.0, n.1, f.0, f.1);
    assert f.0 * d == mag * (n.0 * d);
    assert f.1 * d == mag * (n.1 * d);
    assert f.0 * dx == (mag * d) * (n.0 * n.0) by {
      assert f.0 * dx == (mag * n.0) * (n.0 * d);
    }
    assert f.1 * dy == (mag * d) * (n.1 * n.1) by {
      assert f.1 * dy == (mag * n.1) * (n.1 * d);
    }
    assert (mag * d) * (n.0 * n.0) + (mag * d) * (n.1 * n.1) == (mag * d) * (n.0 * n.0 + n.1 * n.1);
    if 0.0 < mag {
      assert 0.0 < mag * d;
    }
  }

  /** A unit vector scaled by k has squared length k * k. */
  lemma ScaledUnitLength(k: real, nx: real, ny: real, a: real, b: real)
    requires nx * nx + ny * ny == 1.0
    requires a == k * nx && b == k * ny
    ensures a * a + b * b == k * k
  {
    assert (k * nx) * (k * nx) == (k * k) * (nx * nx);
    assert (k * ny) * (k * ny) == (k * k) * (ny * ny);
    assert (k * k) * (nx * nx) + (k * k) * (ny * ny) == (k * k) * (nx * nx + ny * ny);
  }

  /** a * (-b) == -(a * b). */
  lemma NegatedProduct(a: real, b: real)
    ensures a * (-b) == -(a * b)
  {
    assert a * (-b) + a * b == a * (-b + b);
  }

  /** The magnitude does not depend on the order of the two masses. */
  lemma ForceMagnitudeSymmetric(g: real, m1: real, m2: real, d: real)
    requires d != 0.0
    ensures ForceMagnitude(g, m2, m1, d) == ForceMagnitude(g, m1, m2, d)
  {
    assert m2 * m1 == m1 * m2;
  }

  /** The unit vector from p2 to p1 is the reverse of the one from p1 to p2. */
  lemma CollisionNormalSymmetric(hypot: Hypot, p1: Body, p2: Body)
    requires IsHypot(hypot)
    ensures CollisionNormal(hypot, p2, p1) ==
      (-CollisionNormal(hypot, p1, p2).0, -CollisionNormal(hypot, p1, p2).1)
  {
    assert p1.x - p2.x == -(p2.x - p1.x) && p1.y - p2.y == -(p2.y - p1.y);
    NormalizeVectorNegated(hypot, p2.x - p1.x, p2.y - p1.y);
  }

  /** Scaling the reversed vector reverses the scaled vector. */
  lemma ScaleNegated(k: real, v: (real, real), w: (real, real))
    requires w.0 == -v.0 && w.1 == -v.1
    ensures Scale(k, w).0 == -Scale(k, v).0 && Scale(k, w).1 == -Scale(k, v).1
  {
    NegatedProduct(k, v.0);
    NegatedProduct(k, v.1);
  }

  /** Newton's third law: swapping the two planets negates the force. */
  lemma GravityAntisymmetric(hypot: Hypot, g: real, p1: Body, p2: Body)
    requires IsHypot(hypot)
    ensures CalculateGravity(hypot, g, p2, p1) ==
      (-CalculateGravity(hypot, g, p1, p2).0, -CalculateGravity(hypot, g, p1, p2).1)
  {
    DistanceSymmetric(hypot, p1, p2);
    if Distance(hypot, p1, p2) != 0.0 {
      ForceMagnitudeSymmetric(g, p1.mass, p2.mass, Distance(hypot, p1, p2));
      CollisionNormalSymmetric(hypot, p1, p2);
      ScaleNegated(ForceMagnitude(g, p1.mass, p2.mass, Distance(hypot, p1, p2)),
        CollisionNormal(hypot, p1, p2), CollisionNormal(hypot, p2, p1));
    }
  }

  /** The force depends only on positions and masses. */
  lemma GravityDependsOnPositions(hypot: Hypot, g: real, a: Body, b: Body, a': Body, b': Body)
    requires a.x == a'.x && a.y == a'.y && a.mass == a'.mass
    requires b.x == b'.x && b.y == b'.y && b.mass == b'.mass
    ensures CalculateGravity(hypot, g, a, b) == CalculateGravity(hypot, g, a', b')
  {
    assert Distance(hypot, a, b) == Distance(hypot, a', b');
    assert CollisionNormal(hypot, a, b) == CollisionNormal(hypot, a', b');
  }

  /** The momentum m * v of a body, in simulation mass units. */
  function Momentum(b: Body): (real, real)
  {
    (b.mass * b.vx, b.mass * b.vy)
  }

  /** The sum of two vectors. */
  function Add(u: (real, real), v: (real, real)): (real, real)
  {
    (u.0 + v.0, u.1 + v.1)
  }

  // ---------------------------------------------------------------------
  // apply_gravity
  // ---------------------------------------------------------------------

  /** The masses apply_gravity divides by are non-zero. */
  predicate GravityDefined(p1: Body, p2: Body)
  {
    p1.mass != 0.0 && p2.mass != 0.0
  }

  /** The velocity change F / m * t that a force component F gives a mass m
      over a time step t. */
  function Kick(f: real, m: real, t: real): real
    requires m != 0.0
  {
    (f / m) * t
  }

  /** The kick changes the momentum m * v by the impulse F * t. */
  lemma KickMomentum(f: real, m: real, t: real)
    requires m != 0.0
    ensures m * Kick(f, m, t) == f * t
  {
    assert m * ((f / m) * t) == (m * (f / m)) * t;
  }

  /** A zero force gives no kick. */
  lemma KickOfZero(m: real, t: real)
    requires m != 0.0
    ensures Kick(0.0, m, t) == 0.0
  {
  }

  /** Reversing the force reverses the kick. */
  lemma KickNegated(f: real, m: real, t: real)
    requires m != 0.0
    ensures Kick(-f, m, t) == -Kick(f, m, t)
  {
    NegatedQuotient(f, m);
    assert ((-f) / m) * t == -(f / m) * t;
  }

  /** The two planets after p1 receives the kick of force f and p2 the kick
      of -f over a time step: nothing but the velocities changes. */
  function Kicked(p1: Body, p2: Body, f: (real, real), timeStep: real): (r: (Body, Body))
    requires GravityDefined(p1, p2)
    ensures r.0 == p1.(vx := r.0.vx, vy := r.0.vy)
    ensures r.1 == p2.(vx := r.1.vx, vy := r.1.vy)
  {
    (p1.(vx := p1.vx + Kick(f.0, p1.mass, timeStep), vy := p1.vy + Kick(f.1, p1.mass, timeStep)),
     p2.(vx := p2.vx - Kick(f.0, p2.mass, timeStep), vy := p2.vy - Kick(f.1, p2.mass, timeStep)))
  }

  /** The two planets after apply_gravity: kicked by the force on p1 from
      p2. */
  function Gravitated(hypot: Hypot, g: real, timeStep: real, p1: Body, p2: Body): (r: (Body, Body))
    requires GravityDefined(p1, p2)
    ensures r.0 == p1.(vx := r.0.vx, vy := r.0.vy) && r.1 == p2.(vx := r.1.vx, vy := r.1.vy)
  {
    Kicked(p1, p2, CalculateGravity(hypot, g, p1, p2), timeStep)
  }

  /** Equal and opposite kicks conserve momentum, whatever the force: in
      particular apply_gravity does, for the force calculate_gravity
      returns. */
  lemma KickedConservesMomentum(p1: Body, p2: Body, f: (real, real), timeStep: real)
    requires GravityDefined(p1, p2)
    ensures var r := Kicked(p1, p2, f, timeStep);
      Add(Momentum(r.0), Momentum(r.1)) == Add(Momentum(p1), Momentum(p2))
  {
    var r := Kicked(p1, p2, f, timeStep);
    KickPairMomentum(p1.mass, p2.mass, p1.vx, p2.vx, f.0, timeStep);
    KickPairMomentum(p1.mass, p2.mass, p1.vy, p2.vy, f.1, timeStep);
    assert r.0.mass * r.0.vx + r.1.mass * r.1.vx == p1.mass * p1.vx + p2.mass * p2.vx;
    assert r.0.mass * r.0.vy + r.1.mass * r.1.vy == p1.mass * p1.vy + p2.mass * p2.vy;
    PairMomentum(r.0, r.1, p1, p2);
  }

  /** Two pairs of bodies with the same total momentum in each component. */
  lemma PairMomentum(a1: Body, a2: Body, b1: Body, b2: Body)
    requires a1.mass * a1.vx + a2.mass * a2.vx == b1.mass * b1.vx + b2.mass * b2.vx
    requires a1.mass * a1.vy + a2.mass * a2.vy == b1.mass * b1.vy + b2.mass * b2.vy
    ensures Add(Momentum(a1), Momentum(a2)) == Add(Momentum(b1), Momentum(b2))
  {
    assert Add(Momentum(a1), Momentum(a2)).0 == Add(Momentum(b1), Momentum(b2)).0;
    assert Add(Momentum(a1), Momentum(a2)).1 == Add(Momentum(b1), Momentum(b2)).1;
  }

  /** Opposite kicks from one force component conserve momentum. */
  lemma KickPairMomentum(m1: real, m2: real, v1: real, v2: real, f: real, t: real)
    requires m1 != 0.0 && m2 != 0.0
    ensures m1 * (v1 + Kick(f, m1, t)) + m2 * (v2 - Kick(f, m2, t)) == m1 * v1 + m2 * v2
  {
    KickMomentum(f, m1, t);
    KickMomentum(f, m2, t);
    assert m1 * (v1 + Kick(f, m1, t)) == m1 * v1 + m1 * Kick(f, m1, t);
    assert m2 * (v2 - Kick(f, m2, t)) == m2 * v2 - m2 * Kick(f, m2, t);
  }

  /** Applying gravity in both orders, as the simulation loop does for every
      ordered pair, gives each planet twice the kick of one call: the second
      call sees the same positions, so the same force, with its sign
      reversed. */
  lemma GravityBothWays(hypot: Hypot, g: real, timeStep: real, p1: Body, p2: Body)
    requires IsHypot(hypot)
    requires GravityDefined(p1, p2)
    ensures var r := Gravitated(hypot, g, timeStep, p1, p2);
      var s := Gravitated(hypot, g, timeStep, r.1, r.0);
      var f := CalculateGravity(hypot, g, p1, p2);
      s.1 == p1.(vx := p1.vx + 2.0 * Kick(f.0, p1.mass, timeStep), vy := p1.vy + 2.0 * Kick(f.1, p1.mass, timeStep)) &&
      s.0 == p2.(vx := p2.vx - 2.0 * Kick(f.0, p2.mass, timeStep), vy := p2.vy - 2.0 * Kick(f.1, p2.mass, timeStep))
  {
    var r := Gravitated(hypot, g, timeStep, p1, p2);
    GravityDependsOnPositions(hypot, g, r.1, r.0, p2, p1);
    GravityAntisymmetric(hypot, g, p1, p2);
    var f := CalculateGravity(hypot, g, p1, p2);
    KickNegated(f.0, p1.mass, timeStep);
    KickNegated(f.1, p1.mass, timeStep);
    KickNegated(f.0, p2.mass, timeStep);
    KickNegated(f.1, p2.mass, timeStep);
  }

  /** apply_gravity on two Planet objects (which may be the same object, in
      which case the force is zero and nothing changes). */
  method ApplyGravity(hypot: Hypot, g: real, p1: Planet, p2: Planet, timeStep: real)
    requires IsHypot(hypot)
    requires GravityDefined(p1.State(), p2.State())
    modifies p1, p2
    ensures p1.State() == Gravitated(hypot, g, timeStep, old(p1.State()), old(p2.State())).0
    ensures p2.State() == Gravitated(hypot, g, timeStep, old(p1.State()), old(p2.State())).1
  {
    var f := CalculateGravity(hypot, g, p1.State(), p2.State());
    ApplyForce(p1, p2, f, timeStep);
  }

  /** The velocity updates of apply_gravity for the force f: p1 gains
      f / m1 * t and p2 loses f / m2 * t. */
  method ApplyForce(p1: Planet, p2: Planet, f: (real, real), timeStep: real)
    requires GravityDefined(p1.State(), p2.State())
    requires p1 == p2 ==> f == (0.0, 0.0)
    modifies p1, p2
    ensures p1.State() == Kicked(old(p1.State()), old(p2.State()), f, timeStep).0
    ensures p2.State() == Kicked(old(p1.State()), old(p2.State()), f, timeStep).1
  {
    var fx, fy := f.0, f.1;
    if p1 == p2 {
      KickOfZero(p1.mass, timeStep);
    }
    p1.vx := p1.vx + (fx / p1.mass) * timeStep;
    p1.vy := p1.vy + (fy / p1.mass) * timeStep;
    p2.vx := p2.vx - (fx / p2.mass) * timeStep;
    p2.vy := p2.vy - (fy / p2.mass) * timeStep;
  }

  // ---------------------------------------------------------------------
  // resolve_collision
  // ---------------------------------------------------------------------

  /** The masses resolve_collision divides by are non-zero, and so is the sum
      of their reciprocals that the impulse is divided by. */
  predicate ImpulseDefined(p1: Body, p2: Body)
  {
    p1.mass != 0.0 && p2.mass != 0.0 && 1.0 / p1.mass + 1.0 / p2.mass != 0.0
  }

  /** How far the separation pushes each planet: the overlap of the two discs,
      widened by 10%. */
  function Overlap(hypot: Hypot, p1: Body, p2: Body): real
  {
    (p1.radius + p2.radius - Distance(hypot, p1, p2)) * OverlapScale
  }

  /** The two planets after the separation step: p1 moves back and p2
      forward along n, each by twice the overlap. Only the positions change,
      and their sum is kept. */
  function Separated(p1: Body, p2: Body, n: (real, real), overlap: real): (r: (Body, Body))
    ensures r.0 == p1.(x := r.0.x, y := r.0.y) && r.1 == p2.(x := r.1.x, y := r.1.y)
    ensures r.0.x + r.1.x == p1.x + p2.x && r.0.y + r.1.y == p1.y + p2.y
  {
    (p1.(x := p1.x - n.0 * (overlap * 2.0), y := p1.y - n.1 * (overlap * 2.0)),
     p2.(x := p2.x + n.0 * (overlap * 2.0), y := p2.y + n.1 * (overlap * 2.0)))
  }

  /** The relative velocity of b1 with respect to b2 along n. */
  function NormalSpeed(b1: Body, b2: Body, n: (real, real)): real
  {
    (b1.vx - b2.vx) * n.0 + (b1.vy - b2.vy) * n.1
  }

  /** The relative velocity of p1 with respect to p2 along the collision
      normal. It is positive when the two approach each other. */
  function ImpactSpeed(hypot: Hypot, p1: Body, p2: Body): real
  {
    NormalSpeed(p1, p2, CollisionNormal(hypot, p1, p2))
  }

  /** The kinetic energy of a body, in simulation mass units. */
  function KineticEnergy(b: Body): real
  {
    0.5 * b.mass * (b.vx * b.vx + b.vy * b.vy)
  }

  /** The impulse exchanged along the normal, with restitution 1, for masses
      m1, m2 and impact speed s. */
  function Impulse(m1: real, m2: real, s: real): real
    requires m1 != 0.0 && m2 != 0.0 && 1.0 / m1 + 1.0 / m2 != 0.0
  {
    -(1.0 + Restitution) * s / (1.0 / m1 + 1.0 / m2)
  }

  /** A body whose velocity gains the impulse j along n, divided by its mass. */
  function Pushed(b: Body, j: real, n: (real, real)): Body
    requires b.mass != 0.0
  {
    b.(vx := b.vx + (j * n.0) / b.mass, vy := b.vy + (j * n.1) / b.mass)
  }

  /** A body whose velocity loses the impulse j along n, divided by its mass. */
  function PushedBack(b: Body, j: real, n: (real, real)): Body
    requires b.mass != 0.0
  {
    b.(vx := b.vx - (j * n.0) / b.mass, vy := b.vy - (j * n.1) / b.mass)
  }

  /** The two planets after the impulse step along n: the restitution-1
      impulse for their normal speed, applied whatever its sign. Only the
      velocities change. */
  function Bounced(b1: Body, b2: Body, n: (real, real)): (r: (Body, Body))
    requires ImpulseDefined(b1, b2)
    ensures r.0 == b1.(vx := r.0.vx, vy := r.0.vy) && r.1 == b2.(vx := r.1.vx, vy := r.1.vy)
  {
    var impulse := Impulse(b1.mass, b2.mass, NormalSpeed(b1, b2, n));
    (Pushed(b1, impulse, n), PushedBack(b2, impulse, n))
  }

  /** The two planets after resolve_collision. Nothing happens for coincident
      planets. Otherwise they are separated along the collision normal, and
      then bounced along it. Only positions and velocities change, and the
      sum of the two positions is kept. */
  function Resolved(hypot: Hypot, p1: Body, p2: Body): (r: (Body, Body))
    requires Distance(hypot, p1, p2) != 0.0 ==> ImpulseDefined(p1, p2)
    ensures Distance(hypot, p1, p2) == 0.0 ==> r == (p1, p2)
    ensures r.0 == p1.(x := r.0.x, y := r.0.y, vx := r.0.vx, vy := r.0.vy)
    ensures r.1 == p2.(x := r.1.x, y := r.1.y, vx := r.1.vx, vy := r.1.vy)
    ensures r.0.x + r.1.x == p1.x + p2.x && r.0.y + r.1.y == p1.y + p2.y
  {
    if Distance(hypot, p1, p2) == 0.0 then (p1, p2)
    else
      var s := Separated(p1, p2, CollisionNormal(hypot, p1, p2), Overlap(hypot, p1, p2));
      Bounced(s.0, s.1, CollisionNormal(hypot, p1, p2))
  }

  /** The separation moves p2 by 2 * overlap * n and p1 by the opposite
      amount; for a unit n the displacement has length 2 * |overlap|. */
  lemma SeparatedDisplacement(p1: Body, p2: Body, n: (real, real), overlap: real)
    requires n.0 * n.0 + n.1 * n.1 == 1.0
    ensures var r := Separated(p1, p2, n, overlap);
      r.1.x - p2.x == (overlap * 2.0) * n.0 && r.1.y - p2.y == (overlap * 2.0) * n.1 &&
      r.0.x - p1.x == -(r.1.x - p2.x) && r.0.y - p1.y == -(r.1.y - p2.y) &&
      (r.1.x - p2.x) * (r.1.x - p2.x) + (r.1.y - p2.y) * (r.1.y - p2.y) == (overlap * 2.0) * (overlap * 2.0)
  {
    var r := Separated(p1, p2, n, overlap);
    assert r.1.x - p2.x == (overlap * 2.0) * n.0;
    assert r.1.y - p2.y == (overlap * 2.0) * n.1;
    ScaledUnitLength(overlap * 2.0, n.0, n.1, r.1.x - p2.x, r.1.y - p2.y);
  }

  /** Pushing the ends of the segment (d * n) apart by k * n each gives the
      segment ((d + 2k) * n). */
  lemma SeparatedSegment(d: real, k: real, n: real, a: real, b: real)
    requires b - a == n * d
    ensures (b + n * k) - (a - n * k) == (d + 2.0 * k) * n
  {
    assert (d + 2.0 * k) * n == n * d + n * (2.0 * k);
  }

  /** Separating two planets whose offset is d * n, for a unit vector n, by
      overlap o each way makes their offset (d + 4 o) * n, of squared length
      (d + 4 o)^2. */
  lemma SeparatedOffset(p1: Body, p2: Body, n: (real, real), overlap: real, d: real)
    requires n.0 * n.0 + n.1 * n.1 == 1.0
    requires n.0 * d == p2.x - p1.x && n.1 * d == p2.y - p1.y
    ensures var r := Separated(p1, p2, n, overlap);
      (r.1.x - r.0.x) * (r.1.x - r.0.x) + (r.1.y - r.0.y) * (r.1.y - r.0.y) ==
      (d + 4.0 * overlap) * (d + 4.0 * overlap)
  {
    var r := Separated(p1, p2, n, overlap);
    var e := d + 2.0 * (overlap * 2.0);
    assert r.1.x - r.0.x == e * n.0 by {
      SeparatedSegment(d, overlap * 2.0, n.0, p1.x, p2.x);
    }
    assert r.1.y - r.0.y == e * n.1 by {
      SeparatedSegment(d, overlap * 2.0, n.1, p1.y, p2.y);
    }
    ScaledUnitLength(e, n.0, n.1, r.1.x - r.0.x, r.1.y - r.0.y);
  }

  /** Separating two planets at distance d along their unit normal n by
      overlap o each way puts them at distance d + 4 o, provided that is not
      negative. */
  lemma SeparatedGap(hypot: Hypot, p1: Body, p2: Body, n: (real, real), overlap: real)
    requires IsHypot(hypot)
    requires n.0 * n.0 + n.1 * n.1 == 1.0
    requires n.0 * Distance(hypot, p1, p2) == p2.x - p1.x && n.1 * Distance(hypot, p1, p2) == p2.y - p1.y
    requires 0.0 <= Distance(hypot, p1, p2) + 4.0 * overlap
    ensures Distance(hypot, Separated(p1, p2, n, overlap).0, Separated(p1, p2, n, overlap).1) ==
      Distance(hypot, p1, p2) + 4.0 * overlap
  {
    var r := Separated(p1, p2, n, overlap);
    SeparatedOffset(p1, p2, n, overlap, Distance(hypot, p1, p2));
    SquareRootUnique(Distance(hypot, r.0, r.1), Distance(hypot, p1, p2) + 4.0 * overlap);
  }

  /** For two planets that overlap by the radius-sum rule (which includes
      every pair check_collision reports, see CollisionWithinRadiusSum), the
      separation widens their distance from d to d + 4 * overlap, so the gap
      never shrinks and strictly grows while the discs overlap. */
  lemma ResolvedWidensGap(hypot: Hypot, p1: Body, p2: Body)
    requires IsHypot(hypot)
    requires ImpulseDefined(p1, p2)
    requires p1.x != p2.x || p1.y != p2.y
    requires Distance(hypot, p1, p2) <= p1.radius + p2.radius
    ensures Distance(hypot, Resolved(hypot, p1, p2).0, Resolved(hypot, p1, p2).1) ==
      Distance(hypot, p1, p2) + 4.0 * Overlap(hypot, p1, p2)
    ensures Distance(hypot, p1, p2) <= Distance(hypot, Resolved(hypot, p1, p2).0, Resolved(hypot, p1, p2).1)
    ensures Distance(hypot, p1, p2) < p1.radius + p2.radius ==>
      Distance(hypot, p1, p2) < Distance(hypot, Resolved(hypot, p1, p2).0, Resolved(hypot, p1, p2).1)
  {
    var n := CollisionNormal(hypot, p1, p2);
    var s := Separated(p1, p2, n, Overlap(hypot, p1, p2));
    NormalizeVectorUnit(hypot, p2.x - p1.x, p2.y - p1.y);
    SeparatedGap(hypot, p1, p2, n, Overlap(hypot, p1, p2));
    assert Resolved(hypot, p1, p2) == Bounced(s.0, s.1, n);
  }

  /** A push adds the impulse j * n to the momentum. */
  lemma PushedMomentum(b: Body, j: real, n: (real, real))
    requires b.mass != 0.0
    ensures Momentum(Pushed(b, j, n)) == (Momentum(b).0 + j * n.0, Momentum(b).1 + j * n.1)
  {
    PushCore(b.mass, b.vx, j * n.0);
    PushCore(b.mass, b.vy, j * n.1);
    var p := Pushed(b, j, n);
    assert Momentum(p).0 == Momentum(b).0 + j * n.0;
    assert Momentum(p).1 == Momentum(b).1 + j * n.1;
  }

  /** A push back subtracts the impulse j * n from the momentum. */
  lemma PushedBackMomentum(b: Body, j: real, n: (real, real))
    requires b.mass != 0.0
    ensures Momentum(PushedBack(b, j, n)) == (Momentum(b).0 - j * n.0, Momentum(b).1 - j * n.1)
  {
    PushCore(b.mass, b.vx, -(j * n.0));
    PushCore(b.mass, b.vy, -(j * n.1));
    NegatedQuotient(j * n.0, b.mass);
    NegatedQuotient(j * n.1, b.mass);
    var p := PushedBack(b, j, n);
    assert Momentum(p).0 == Momentum(b).0 - j * n.0;
    assert Momentum(p).1 == Momentum(b).1 - j * n.1;
  }

  /** m * (v + p / m) == m * v + p. */
  lemma PushCore(m: real, v: real, p: real)
    requires m != 0.0
    ensures m * (v + p / m) == m * v + p
  {
    assert m * (p / m) == p;
    assert m * (v + p / m) == m * v + m * (p / m);
  }

  /** The impulse step conserves momentum, whatever the normal. */
  lemma BouncedConservesMomentum(b1: Body, b2: Body, n: (real, real))
    requires ImpulseDefined(b1, b2)
    ensures var r := Bounced(b1, b2, n);
      Add(Momentum(r.0), Momentum(r.1)) == Add(Momentum(b1), Momentum(b2))
  {
    var j := Impulse(b1.mass, b2.mass, NormalSpeed(b1, b2, n));
    PushedMomentum(b1, j, n);
    PushedBackMomentum(b2, j, n);
  }

  /** (j * c) / m == (j / m) * c. */
  lemma ShareOfImpulse(j: real, c: real, m: real)
    requires m != 0.0
    ensures (j * c) / m == (j / m) * c
  {
    assert (j / m) * c * m == (j / m * m) * c;
  }

  /** The velocity changes per unit impulse add up to -2 s: j / m1 + j / m2
      == -2 s for the restitution-1 impulse j. */
  lemma ImpulseShares(m1: real, m2: real, s: real, j: real)
    requires m1 != 0.0 && m2 != 0.0 && 1.0 / m1 + 1.0 / m2 != 0.0
    requires j == Impulse(m1, m2, s)
    ensures j / m1 + j / m2 == -2.0 * s
  {
    assert j / m1 == j * (1.0 / m1);
    assert j / m2 == j * (1.0 / m2);
    assert j * (1.0 / m1 + 1.0 / m2) == -2.0 * s;
  }

  /** If (a, b) == (u, w) + k * n for a unit vector n, then
      (a, b) . n == (u, w) . n + k. */
  lemma DotAfterPush(a: real, b: real, u: real, w: real, k: real, nx: real, ny: real)
    requires a == u + k * nx && b == w + k * ny
    requires nx * nx + ny * ny == 1.0
    ensures a * nx + b * ny == u * nx + w * ny + k
  {
    assert (u + k * nx) * nx == u * nx + k * (nx * nx);
    assert (w + k * ny) * ny == w * ny + k * (ny * ny);
    assert k * (nx * nx) + k * (ny * ny) == k * (nx * nx + ny * ny);
  }

  /** The velocity of a body along n. */
  function Along(b: Body, n: (real, real)): real
  {
    b.vx * n.0 + b.vy * n.1
  }

  /** The normal speed is the difference of the two velocities along n. */
  lemma NormalSpeedAlong(b1: Body, b2: Body, n: (real, real))
    ensures NormalSpeed(b1, b2, n) == Along(b1, n) - Along(b2, n)
  {
    DotOfDifference(b1.vx, b1.vy, b2.vx, b2.vy, n.0, n.1);
  }

  /** A push of j along a unit n adds j / m to the velocity along n. */
  lemma PushedAlong(b: Body, j: real, n: (real, real))
    requires b.mass != 0.0
    requires n.0 * n.0 + n.1 * n.1 == 1.0
    ensures Along(Pushed(b, j, n), n) == Along(b, n) + j / b.mass
  {
    var p := Pushed(b, j, n);
    var a := j / b.mass;
    ShareOfImpulse(j, n.0, b.mass);
    ShareOfImpulse(j, n.1, b.mass);
    DotAfterPush(p.vx, p.vy, b.vx, b.vy, a, n.0, n.1);
  }

  /** A push back of j along a unit n takes j / m from the velocity along
      n. */
  lemma PushedBackAlong(b: Body, j: real, n: (real, real))
    requires b.mass != 0.0
    requires n.0 * n.0 + n.1 * n.1 == 1.0
    ensures Along(PushedBack(b, j, n), n) == Along(b, n) - j / b.mass
  {
    var p := PushedBack(b, j, n);
    var a := -(j / b.mass);
    ShareOfImpulse(j, n.0, b.mass);
    ShareOfImpulse(j, n.1, b.mass);
    NegatedProduct(j / b.mass, n.0);
    NegatedProduct(j / b.mass, n.1);
    DotAfterPush(p.vx, p.vy, b.vx, b.vy, a, n.0, n.1);
  }

  /** With the restitution-1 impulse along a unit normal, the relative normal
      velocity is reversed. */
  lemma BouncedReversesNormalSpeed(b1: Body, b2: Body, n: (real, real))
    requires ImpulseDefined(b1, b2)
    requires n.0 * n.0 + n.1 * n.1 == 1.0
    ensures NormalSpeed(Bounced(b1, b2, n).0, Bounced(b1, b2, n).1, n) == -NormalSpeed(b1, b2, n)
  {
    var s := NormalSpeed(b1, b2, n);
    var j := Impulse(b1.mass, b2.mass, s);
    var p1, p2 := Pushed(b1, j, n), PushedBack(b2, j, n);
    assert Bounced(b1, b2, n) == (p1, p2);
    PushedAlong(b1, j, n);
    PushedBackAlong(b2, j, n);
    NormalSpeedAlong(b1, b2, n);
    NormalSpeedAlong(p1, p2, n);
    ImpulseShares(b1.mass, b2.mass, s, j);
  }

  /** The kinetic energy after a push of (j * n) / m on a mass m, for a unit
      vector n: KE + j (v . n) + j (j / m) / 2. */
  lemma PushEnergy(m: real, vx: real, vy: real, j: real, nx: real, ny: real)
    requires m != 0.0
    requires nx * nx + ny * ny == 1.0
    ensures 0.5 * m * ((vx + (j * nx) / m) * (vx + (j * nx) / m) + (vy + (j * ny) / m) * (vy + (j * ny) / m)) ==
      0.5 * m * (vx * vx + vy * vy) + j * (vx * nx + vy * ny) + 0.5 * (j * (j / m))
  {
    ShareOfImpulse(j, nx, m);
    ShareOfImpulse(j, ny, m);
    EnergyAfterPush(m, vx, vy, j / m, nx, ny);
    assert m * (j / m) == j;
  }

  /** The kinetic energy after a push back of (j * n) / m on a mass m, for a
      unit vector n: KE - j (v . n) + j (j / m) / 2. */
  lemma PushBackEnergy(m: real, vx: real, vy: real, j: real, nx: real, ny: real)
    requires m != 0.0
    requires nx * nx + ny * ny == 1.0
    ensures 0.5 * m * ((vx - (j * nx) / m) * (vx - (j * nx) / m) + (vy - (j * ny) / m) * (vy - (j * ny) / m)) ==
      0.5 * m * (vx * vx + vy * vy) - j * (vx * nx + vy * ny) + 0.5 * (j * (j / m))
  {
    ShareOfImpulse(j, nx, m);
    ShareOfImpulse(j, ny, m);
    NegatedQuotient(j, m);
    NegatedProduct(j / m, nx);
    NegatedProduct(j / m, ny);
    EnergyAfterPush(m, vx, vy, -(j / m), nx, ny);
    assert m * -(j / m) == -j;
  }

  /** (v + a * c) squared, expanded. */
  lemma SquareAfterPush(v: real, a: real, c: real)
    ensures (v + a * c) * (v + a * c) == v * v + 2.0 * a * (v * c) + (a * a) * (c * c)
  {
  }

  /** m * |v + a * n|^2 == m * |v|^2 + 2 (m a) (v . n) + (m a) a for a unit
      vector n. */
  lemma EnergyAfterPush(m: real, vx: real, vy: real, a: real, nx: real, ny: real)
    requires nx * nx + ny * ny == 1.0
    ensures m * ((vx + a * nx) * (vx + a * nx) + (vy + a * ny) * (vy + a * ny)) ==
      m * (vx * vx + vy * vy) + 2.0 * (m * a) * (vx * nx + vy * ny) + (m * a) * a
  {
    SquareAfterPush(vx, a, nx);
    SquareAfterPush(vy, a, ny);
    assert (a * a) * (nx * nx) + (a * a) * (ny * ny) == a * a by {
      assert (a * a) * (nx * nx) + (a * a) * (ny * ny) == (a * a) * (nx * nx + ny * ny);
    }
    assert 2.0 * a * (vx * nx) + 2.0 * a * (vy * ny) == 2.0 * a * (vx * nx + vy * ny);
    assert m * ((vx * vx + vy * vy) + 2.0 * a * (vx * nx + vy * ny) + a * a) ==
      m * (vx * vx + vy * vy) + 2.0 * (m * a) * (vx * nx + vy * ny) + (m * a) * a;
  }

  /** (a - c) nx + (b - d) ny == (a nx + b ny) - (c nx + d ny). */
  lemma DotOfDifference(a: real, b: real, c: real, d: real, nx: real, ny: real)
    ensures (a - c) * nx + (b - d) * ny == (a * nx + b * ny) - (c * nx + d * ny)
  {
  }

  /** The energy terms cancel: j p1 + j a1 / 2 - j p2 + j a2 / 2 == 0 when
      p1 - p2 == s and a1 + a2 == -2 s. */
  lemma EnergyBalance(j: real, p1: real, p2: real, s: real, a1: real, a2: real)
    requires p1 - p2 == s && a1 + a2 == -2.0 * s
    ensures j * p1 + 0.5 * (j * a1) + (-(j * p2) + 0.5 * (j * a2)) == 0.0
  {
    assert j * p1 - j * p2 == j * s;
    assert j * a1 + j * a2 == j * (-2.0 * s);
  }

  /** A push of j along a unit n adds j (v . n) + j (j / m) / 2 to the
      kinetic energy. */
  lemma PushedEnergy(b: Body, j: real, n: (real, real))
    requires b.mass != 0.0
    requires n.0 * n.0 + n.1 * n.1 == 1.0
    ensures KineticEnergy(Pushed(b, j, n)) == KineticEnergy(b) + j * Along(b, n) + 0.5 * (j * (j / b.mass))
  {
    PushEnergy(b.mass, b.vx, b.vy, j, n.0, n.1);
  }

  /** A push back of j along a unit n adds -j (v . n) + j (j / m) / 2 to the
      kinetic energy. */
  lemma PushedBackEnergy(b: Body, j: real, n: (real, real))
    requires b.mass != 0.0
    requires n.0 * n.0 + n.1 * n.1 == 1.0
    ensures KineticEnergy(PushedBack(b, j, n)) == KineticEnergy(b) - j * Along(b, n) + 0.5 * (j * (j / b.mass))
  {
    PushBackEnergy(b.mass, b.vx, b.vy, j, n.0, n.1);
  }

  /** For the restitution-1 impulse the energy changes of the two bodies
      cancel. */
  lemma EnergyChangesCancel(b1: Body, b2: Body, n: (real, real), j: real)
    requires ImpulseDefined(b1, b2)
    requires j == Impulse(b1.mass, b2.mass, NormalSpeed(b1, b2, n))
    ensures j * Along(b1, n) + 0.5 * (j * (j / b1.mass)) + (-(j * Along(b2, n)) + 0.5 * (j * (j / b2.mass))) == 0.0
  {
    ImpulseShares(b1.mass, b2.mass, NormalSpeed(b1, b2, n), j);
    DotOfDifference(b1.vx, b1.vy, b2.vx, b2.vy, n.0, n.1);
    EnergyBalance(j, Along(b1, n), Along(b2, n), NormalSpeed(b1, b2, n), j / b1.mass, j / b2.mass);
  }

  /** With the restitution-1 impulse along a unit normal, kinetic energy is
      conserved. */
  lemma BouncedConservesEnergy(b1: Body, b2: Body, n: (real, real))
    requires ImpulseDefined(b1, b2)
    requires n.0 * n.0 + n.1 * n.1 == 1.0
    ensures KineticEnergy(Bounced(b1, b2, n).0) + KineticEnergy(Bounced(b1, b2, n).1) ==
      KineticEnergy(b1) + KineticEnergy(b2)
  {
    var j := Impulse(b1.mass, b2.mass, NormalSpeed(b1, b2, n));
    assert Bounced(b1, b2, n) == (Pushed(b1, j, n), PushedBack(b2, j, n));
    PushedEnergy(b1, j, n);
    PushedBackEnergy(b2, j, n);
    EnergyChangesCancel(b1, b2, n, j);
  }

  /** resolve_collision conserves momentum in each component. */
  lemma ResolvedConservesMomentum(hypot: Hypot, p1: Body, p2: Body)
    requires Distance(hypot, p1, p2) != 0.0 ==> ImpulseDefined(p1, p2)
    ensures var r := Resolved(hypot, p1, p2);
      Add(Momentum(r.0), Momentum(r.1)) == Add(Momentum(p1), Momentum(p2))
  {
    if Distance(hypot, p1, p2) != 0.0 {
      var n := CollisionNormal(hypot, p1, p2);
      var s := Separated(p1, p2, n, Overlap(hypot, p1, p2));
      SeparatedKeepsMotion(p1, p2, n, Overlap(hypot, p1, p2));
      BouncedConservesMomentum(s.0, s.1, n);
      assert Resolved(hypot, p1, p2) == Bounced(s.0, s.1, n);
    }
  }

  /** The separation moves the planets without touching their velocities
      or masses, so their normal speed along any n and their kinetic energies
      are those of the planets before it. */
  lemma SeparatedKeepsMotion(p1: Body, p2: Body, n: (real, real), overlap: real)
    ensures var s := Separated(p1, p2, n, overlap);
      NormalSpeed(s.0, s.1, n) == NormalSpeed(p1, p2, n) &&
      KineticEnergy(s.0) == KineticEnergy(p1) && KineticEnergy(s.1) == KineticEnergy(p2) &&
      Momentum(s.0) == Momentum(p1) && Momentum(s.1) == Momentum(p2)
  {
    var s := Separated(p1, p2, n, overlap);
    assert Momentum(s.0).0 == Momentum(p1).0 && Momentum(s.0).1 == Momentum(p1).1;
    assert Momentum(s.1).0 == Momentum(p2).0 && Momentum(s.1).1 == Momentum(p2).1;
  }

  /** For planets at distinct positions, resolve_collision reverses their
      relative velocity along the normal. The reversal happens for either
      sign of the impact speed: for planets already moving apart it turns
      them towards each other. */
  lemma ResolvedReversesImpactSpeed(hypot: Hypot, p1: Body, p2: Body)
    requires IsHypot(hypot)
    requires ImpulseDefined(p1, p2)
    requires p1.x != p2.x || p1.y != p2.y
    ensures NormalSpeed(Resolved(hypot, p1, p2).0, Resolved(hypot, p1, p2).1, CollisionNormal(hypot, p1, p2)) ==
      -ImpactSpeed(hypot, p1, p2)
  {
    var n := CollisionNormal(hypot, p1, p2);
    var s := Separated(p1, p2, n, Overlap(hypot, p1, p2));
    NormalizeVectorUnit(hypot, p2.x - p1.x, p2.y - p1.y);
    SeparatedKeepsMotion(p1, p2, n, Overlap(hypot, p1, p2));
    BouncedReversesNormalSpeed(s.0, s.1, n);
    assert Resolved(hypot, p1, p2) == Bounced(s.0, s.1, n);
  }

  /** For planets at distinct positions, resolve_collision conserves kinetic
      energy. */
  lemma ResolvedConservesEnergy(hypot: Hypot, p1: Body, p2: Body)
    requires IsHypot(hypot)
    requires ImpulseDefined(p1, p2)
    requires p1.x != p2.x || p1.y != p2.y
    ensures KineticEnergy(Resolved(hypot, p1, p2).0) + KineticEnergy(Resolved(hypot, p1, p2).1) ==
      KineticEnergy(p1) + KineticEnergy(p2)
  {
    var n := CollisionNormal(hypot, p1, p2);
    var s := Separated(p1, p2, n, Overlap(hypot, p1, p2));
    NormalizeVectorUnit(hypot, p2.x - p1.x, p2.y - p1.y);
    SeparatedKeepsMotion(p1, p2, n, Overlap(hypot, p1, p2));
    BouncedConservesEnergy(s.0, s.1, n);
    assert Resolved(hypot, p1, p2) == Bounced(s.0, s.1, n);
  }

  /** resolve_collision on two Planet objects. The kinetic energies it logs
      are returned as ghost values: the "after" values equal the "before"
      ones, because both are computed before the impulse. */
  method ResolveCollision(hypot: Hypot, p1: Planet, p2: Planet)
      returns (ghost keBefore: (real, real), ghost keAfter: (real, real))
    requires IsHypot(hypot)
    requires Distance(hypot, p1.State(), p2.State()) != 0.0 ==> ImpulseDefined(p1.State(), p2.State())
    modifies p1, p2
    ensures p1.State() == Resolved(hypot, old(p1.State()), old(p2.State())).0
    ensures p2.State() == Resolved(hypot, old(p1.State()), old(p2.State())).1
    ensures Distance(hypot, old(p1.State()), old(p2.State())) != 0.0 ==>
      keBefore.0 == KineticEnergy(old(p1.State())) && keBefore.1 == KineticEnergy(old(p2.State()))
    ensures keAfter.0 == keBefore.0 && keAfter.1 == keBefore.1
  {
    keBefore, keAfter := (0.0, 0.0), (0.0, 0.0);
    ghost var b1, b2 := p1.State(), p2.State();
    var dx := p2.x - p1.x;
    var dy := p2.y - p1.y;
    var distanceVal := Distance(hypot, p1.State(), p2.State());
    if distanceVal == 0.0 {
      return;
    }

    var ke1Before := KineticEnergy(p1.State());
    var ke2Before := KineticEnergy(p2.State());
    keBefore := (ke1Before, ke2Before);

    var overlap := (p1.radius + p2.radius - distanceVal) * OverlapScale;
    var n := NormalizeVector(hypot, dx, dy);
    Separate(p1, p2, n, overlap);
    SeparatedKeepsMotion(b1, b2, n, overlap);
    keAfter := Bounce(p1, p2, n);
  }

  /** The separation step of resolve_collision. */
  method Separate(p1: Planet, p2: Planet, n: (real, real), overlap: real)
    requires p1 != p2
    modifies p1, p2
    ensures p1.State() == Separated(old(p1.State()), old(p2.State()), n, overlap).0
    ensures p2.State() == Separated(old(p1.State()), old(p2.State()), n, overlap).1
  {
    var nx, ny := n.0, n.1;
    p1.x := p1.x - nx * (overlap * 2.0);
    p1.y := p1.y - ny * (overlap * 2.0);
    p2.x := p2.x + nx * (overlap * 2.0);
    p2.y := p2.y + ny * (overlap * 2.0);
  }

  /** The impulse step of resolve_collision, with the kinetic energies it
      computes before the impulse. The closing `impact_speed > 0` test comes
      after the velocity update and changes nothing. */
  method Bounce(p1: Planet, p2: Planet, n: (real, real)) returns (ghost keAfter: (real, real))
    requires p1 != p2
    requires ImpulseDefined(p1.State(), p2.State())
    modifies p1, p2
    ensures p1.State() == Bounced(old(p1.State()), old(p2.State()), n).0
    ensures p2.State() == Bounced(old(p1.State()), old(p2.State()), n).1
    ensures keAfter.0 == KineticEnergy(old(p1.State())) && keAfter.1 == KineticEnergy(old(p2.State()))
  {
    ghost var b1, b2 := p1.State(), p2.State();
    var nx, ny := n.0, n.1;
    var dvx := p1.vx - p2.vx;
    var dvy := p1.vy - p2.vy;
    var impactSpeed := dvx * nx + dvy * ny;
    assert impactSpeed == NormalSpeed(b1, b2, n);

    var ke1After := KineticEnergy(p1.State());
    var ke2After := KineticEnergy(p2.State());
    keAfter := (ke1After, ke2After);

    var restitution := Restitution;
    var impulse := -(1.0 + restitution) * impactSpeed / (1.0 / p1.mass + 1.0 / p2.mass);
    assert impulse == Impulse(b1.mass, b2.mass, NormalSpeed(b1, b2, n));
    Push(p1, p2, impulse, n);

    if impactSpeed > 0.0 {
      return;
    }
  }

  /** The velocity updates of the impulse step: p1 gains and p2 loses the
      impulse along n, each divided by its own mass. */
  method Push(p1: Planet, p2: Planet, impulse: real, n: (real, real))
    requires p1 != p2
    requires p1.mass != 0.0 && p2.mass != 0.0
    modifies p1, p2
    ensures p1.State() == Pushed(old(p1.State()), impulse, n)
    ensures p2.State() == PushedBack(old(p2.State()), impulse, n)
  {
    var nx, ny := n.0, n.1;
    var m1, m2 := p1.mass, p2.mass;
    p1.vx := p1.vx + (impulse * nx) / m1;
    p1.vy := p1.vy + (impulse * ny) / m1;
    p2.vx := p2.vx - (impulse * nx) / m2;
    p2.vy := p2.vy - (impulse * ny) / m2;
  }
}
