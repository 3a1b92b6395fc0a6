/** One tick of the main loop of main.py (lines 31-46), without drawing:
    a collision pass over the pairs i < j, a gravity pass over the ordered
    pairs i != j, and a position update of every planet. The tick works in
    place on a list of Planet objects; it is specified by functions on the
    sequence of their Body values, which follow the nested loops. */
module Simulation {
  import opened Planets
  import opened Utils
  import opened Physics

  // ---------------------------------------------------------------------
  // The planets as values
  // ---------------------------------------------------------------------

  /** Every mass is positive, so that every pair can be kicked and bounced. */
  predicate Massive(bs: seq<Body>)
  {
    forall k :: 0 <= k < |bs| ==> 0.0 < bs[k].mass
  }

  /** 1 / m is positive for a positive m. */
  lemma ReciprocalPositive(m: real)
    requires 0.0 < m
    ensures 0.0 < 1.0 / m
  {
    assert (1.0 / m) * m == 1.0;
  }

  /** Any two planets of a Massive sequence can be passed to apply_gravity
      and to resolve_collision. */
  lemma MassiveDefined(bs: seq<Body>, i: nat, j: nat)
    requires Massive(bs) && i < |bs| && j < |bs|
    ensures GravityDefined(bs[i], bs[j]) && ImpulseDefined(bs[i], bs[j])
  {
    ReciprocalPositive(bs[i].mass);
    ReciprocalPositive(bs[j].mass);
  }

  /** The sum of a quantity over all planets. */
  function Total(bs: seq<Body>, q: Body -> real): real
  {
    if |bs| == 0 then 0.0 else q(bs[0]) + Total(bs[1..], q)
  }

  /** Replacing one planet changes the sum by the difference of the two
      values. */
  lemma {:induction false} TotalUpdate(bs: seq<Body>, i: nat, b: Body, q: Body -> real)
    requires i < |bs|
    ensures Total(bs[i := b], q) == Total(bs, q) - q(bs[i]) + q(b)
    decreases |bs|
  {
    if i == 0 {
      assert bs[i := b][1..] == bs[1..];
    } else {
      assert bs[i := b][1..] == bs[1..][i - 1 := b];
      TotalUpdate(bs[1..], i - 1, b, q);
    }
  }

  /** The two components of a planet's momentum. */
  function MomentumX(b: Body): real
  {
    Momentum(b).0
  }

  function MomentumY(b: Body): real
  {
    Momentum(b).1
  }

  /** The total momentum of all planets. */
  function TotalMomentum(bs: seq<Body>): (real, real)
  {
    (Total(bs, MomentumX), Total(bs, MomentumY))
  }

  /** The total kinetic energy of all planets. */
  function TotalKineticEnergy(bs: seq<Body>): real
  {
    Total(bs, KineticEnergy)
  }

  /** Replacing two distinct planets by a pair with the same momentum sum
      keeps the total momentum. */
  lemma PairUpdateMomentum(bs: seq<Body>, i: nat, j: nat, r: (Body, Body))
    requires i < |bs| && j < |bs| && i != j
    requires Add(Momentum(r.0), Momentum(r.1)) == Add(Momentum(bs[i]), Momentum(bs[j]))
    ensures TotalMomentum(bs[i := r.0][j := r.1]) == TotalMomentum(bs)
  {
    TotalUpdate(bs, i, r.0, MomentumX);
    TotalUpdate(bs[i := r.0], j, r.1, MomentumX);
    TotalUpdate(bs, i, r.0, MomentumY);
    TotalUpdate(bs[i := r.0], j, r.1, MomentumY);
  }

  /** Replacing two distinct planets by a pair with the same kinetic energy
      sum keeps the total kinetic energy. */
  lemma PairUpdateEnergy(bs: seq<Body>, i: nat, j: nat, r: (Body, Body))
    requires i < |bs| && j < |bs| && i != j
    requires KineticEnergy(r.0) + KineticEnergy(r.1) == KineticEnergy(bs[i]) + KineticEnergy(bs[j])
    ensures TotalKineticEnergy(bs[i := r.0][j := r.1]) == TotalKineticEnergy(bs)
  {
    TotalUpdate(bs, i, r.0, KineticEnergy);
    TotalUpdate(bs[i := r.0], j, r.1, KineticEnergy);
  }

  // ---------------------------------------------------------------------
  // The collision pass (main.py:32-36)
  // ---------------------------------------------------------------------

  /** The body of the inner collision loop for (i, j): if i < j and the two
      planets collide as they are now, they are resolved; otherwise nothing
      changes. No other planet changes, and no mass. */
  function CollidePair(hypot: Hypot, bs: seq<Body>, i: nat, j: nat): (r: seq<Body>)
    requires Massive(bs) && i < |bs| && j < |bs|
    ensures |r| == |bs| && Massive(r)
  {
    if i < j && CheckCollision(hypot, bs[i], bs[j]) then
      MassiveDefined(bs, i, j);
      var res := Resolved(hypot, bs[i], bs[j]);
      bs[i := res.0][j := res.1]
    else bs
  }

  /** The first j iterations of the inner collision loop for row i. */
  function CollisionRow(hypot: Hypot, bs: seq<Body>, i: nat, j: nat): (r: seq<Body>)
    requires Massive(bs) && i < |bs| && j <= |bs|
    ensures |r| == |bs| && Massive(r)
  {
    if j == 0 then bs
    else CollidePair(hypot, CollisionRow(hypot, bs, i, j - 1), i, j - 1)
  }

  /** The first i iterations of the outer collision loop. */
  function CollisionRows(hypot: Hypot, bs: seq<Body>, i: nat): (r: seq<Body>)
    requires Massive(bs) && i <= |bs|
    ensures |r| == |bs| && Massive(r)
  {
    if i == 0 then bs
    else
      var before := CollisionRows(hypot, bs, i - 1);
      CollisionRow(hypot, before, i - 1, |before|)
  }

  /** The whole collision pass. */
  function CollisionPass(hypot: Hypot, bs: seq<Body>): (r: seq<Body>)
    requires Massive(bs)
    ensures |r| == |bs| && Massive(r)
  {
    CollisionRows(hypot, bs, |bs|)
  }

  // ---------------------------------------------------------------------
  // The gravity pass (main.py:39-42)
  // ---------------------------------------------------------------------

  /** The body of the inner gravity loop for (i, j): apply_gravity on
      planets i and j when i != j. No other planet changes, and no mass or
      position. */
  function GravitatePair(hypot: Hypot, g: real, timeStep: real, bs: seq<Body>, i: nat, j: nat): (r: seq<Body>)
    requires Massive(bs) && i < |bs| && j < |bs|
    ensures |r| == |bs| && Massive(r)
  {
    if i != j then
      MassiveDefined(bs, i, j);
      var res := Gravitated(hypot, g, timeStep, bs[i], bs[j]);
      bs[i := res.0][j := res.1]
    else bs
  }

  /** The first j iterations of the inner gravity loop for row i. */
  function GravityRow(hypot: Hypot, g: real, timeStep: real, bs: seq<Body>, i: nat, j: nat): (r: seq<Body>)
    requires Massive(bs) && i < |bs| && j <= |bs|
    ensures |r| == |bs| && Massive(r)
  {
    if j == 0 then bs
    else GravitatePair(hypot, g, timeStep, GravityRow(hypot, g, timeStep, bs, i, j - 1), i, j - 1)
  }

  /** The first i iterations of the outer gravity loop. */
  function GravityRows(hypot: Hypot, g: real, timeStep: real, bs: seq<Body>, i: nat): (r: seq<Body>)
    requires Massive(bs) && i <= |bs|
    ensures |r| == |bs| && Massive(r)
  {
    if i == 0 then bs
    else
      var before := GravityRows(hypot, g, timeStep, bs, i - 1);
      GravityRow(hypot, g, timeStep, before, i - 1, |before|)
  }

  /** The whole gravity pass. */
  function GravityPass(hypot: Hypot, g: real, timeStep: real, bs: seq<Body>): (r: seq<Body>)
    requires Massive(bs)
    ensures |r| == |bs| && Massive(r)
  {
    GravityRows(hypot, g, timeStep, bs, |bs|)
  }

  // ---------------------------------------------------------------------
  // The update pass (main.py:45-46) and the tick
  // ---------------------------------------------------------------------

  /** Every planet moved by its own velocity. */
  function UpdatePass(bs: seq<Body>): (r: seq<Body>)
    ensures |r| == |bs|
    ensures forall k :: 0 <= k < |bs| ==> r[k] == bs[k].Moved()
  {
    seq(|bs|, k requires 0 <= k < |bs| => bs[k].Moved())
  }

  /** The planets after one tick: all collisions, then all gravity, then all
      updates. */
  function Ticked(hypot: Hypot, g: real, timeStep: real, bs: seq<Body>): (r: seq<Body>)
    requires Massive(bs)
    ensures |r| == |bs|
  {
    UpdatePass(GravityPass(hypot, g, timeStep, CollisionPass(hypot, bs)))
  }

  // ---------------------------------------------------------------------
  // What the passes keep
  // ---------------------------------------------------------------------

  /** b differs from a at most in its position and velocity. */
  predicate SamePlanet(a: Body, b: Body)
  {
    b == a.(x := b.x, y := b.y, vx := b.vx, vy := b.vy)
  }

  /** b differs from a at most in its velocity. */
  predicate SamePlace(a: Body, b: Body)
  {
    b == a.(vx := b.vx, vy := b.vy)
  }

  /** A collision step keeps the total momentum. */
  lemma CollidePairMomentum(hypot: Hypot, bs: seq<Body>, i: nat, j: nat)
    requires Massive(bs) && i < |bs| && j < |bs|
    ensures TotalMomentum(CollidePair(hypot, bs, i, j)) == TotalMomentum(bs)
  {
    if i < j && CheckCollision(hypot, bs[i], bs[j]) {
      MassiveDefined(bs, i, j);
      ResolvedConservesMomentum(hypot, bs[i], bs[j]);
      PairUpdateMomentum(bs, i, j, Resolved(hypot, bs[i], bs[j]));
    }
  }

  lemma {:induction false} CollisionRowMomentum(hypot: Hypot, bs: seq<Body>, i: nat, j: nat)
    requires Massive(bs) && i < |bs| && j <= |bs|
    ensures TotalMomentum(CollisionRow(hypot, bs, i, j)) == TotalMomentum(bs)
    decreases j
  {
    if j > 0 {
      CollisionRowMomentum(hypot, bs, i, j - 1);
      CollidePairMomentum(hypot, CollisionRow(hypot, bs, i, j - 1), i, j - 1);
    }
  }

  lemma {:induction false} CollisionRowsMomentum(hypot: Hypot, bs: seq<Body>, i: nat)
    requires Massive(bs) && i <= |bs|
    ensures TotalMomentum(CollisionRows(hypot, bs, i)) == TotalMomentum(bs)
    decreases i
  {
    if i > 0 {
      CollisionRowsMomentum(hypot, bs, i - 1);
      var before := CollisionRows(hypot, bs, i - 1);
      CollisionRowMomentum(hypot, before, i - 1, |before|);
    }
  }

  /** The collision pass keeps the total momentum of the planets. */
  lemma CollisionPassConservesMomentum(hypot: Hypot, bs: seq<Body>)
    requires Massive(bs)
    ensures TotalMomentum(CollisionPass(hypot, bs)) == TotalMomentum(bs)
  {
    CollisionRowsMomentum(hypot, bs, |bs|);
  }

  /** A collision step keeps the total kinetic energy. */
  lemma CollidePairEnergy(hypot: Hypot, bs: seq<Body>, i: nat, j: nat)
    requires IsHypot(hypot)
    requires Massive(bs) && i < |bs| && j < |bs|
    ensures TotalKineticEnergy(CollidePair(hypot, bs, i, j)) == TotalKineticEnergy(bs)
  {
    if i < j && CheckCollision(hypot, bs[i], bs[j]) {
      MassiveDefined(bs, i, j);
      if bs[i].x != bs[j].x || bs[i].y != bs[j].y {
        ResolvedConservesEnergy(hypot, bs[i], bs[j]);
      }
      PairUpdateEnergy(bs, i, j, Resolved(hypot, bs[i], bs[j]));
    }
  }

  lemma {:induction false} CollisionRowEnergy(hypot: Hypot, bs: seq<Body>, i: nat, j: nat)
    requires IsHypot(hypot)
    requires Massive(bs) && i < |bs| && j <= |bs|
    ensures TotalKineticEnergy(CollisionRow(hypot, bs, i, j)) == TotalKineticEnergy(bs)
    decreases j
  {
    if j > 0 {
      CollisionRowEnergy(hypot, bs, i, j - 1);
      CollidePairEnergy(hypot, CollisionRow(hypot, bs, i, j - 1), i, j - 1);
    }
  }

  lemma {:induction false} CollisionRowsEnergy(hypot: Hypot, bs: seq<Body>, i: nat)
    requires IsHypot(hypot)
    requires Massive(bs) && i <= |bs|
    ensures TotalKineticEnergy(CollisionRows(hypot, bs, i)) == TotalKineticEnergy(bs)
    decreases i
  {
    if i > 0 {
      CollisionRowsEnergy(hypot, bs, i - 1);
      var before := CollisionRows(hypot, bs, i - 1);
      CollisionRowEnergy(hypot, before, i - 1, |before|);
    }
  }

  /** Collisions are elastic: the collision pass keeps the total kinetic
      energy of the planets. */
  lemma CollisionPassConservesEnergy(hypot: Hypot, bs: seq<Body>)
    requires IsHypot(hypot)
    requires Massive(bs)
    ensures TotalKineticEnergy(CollisionPass(hypot, bs)) == TotalKineticEnergy(bs)
  {
    CollisionRowsEnergy(hypot, bs, |bs|);
  }

  /** A collision step changes only planets i and j, and of those only the
      positions and velocities. */
  lemma CollidePairFrame(hypot: Hypot, bs: seq<Body>, i: nat, j: nat)
    requires Massive(bs) && i < |bs| && j < |bs|
    ensures var r := CollidePair(hypot, bs, i, j);
      (forall k :: 0 <= k < |bs| && k != i && k != j ==> r[k] == bs[k]) &&
      (forall k :: 0 <= k < |bs| ==> SamePlanet(bs[k], r[k]))
  {
  }

  lemma {:induction false} CollisionRowFrame(hypot: Hypot, bs: seq<Body>, i: nat, j: nat)
    requires Massive(bs) && i < |bs| && j <= |bs|
    ensures var r := CollisionRow(hypot, bs, i, j);
      forall k :: 0 <= k < |bs| ==> SamePlanet(bs[k], r[k])
    decreases j
  {
    if j > 0 {
      CollisionRowFrame(hypot, bs, i, j - 1);
      CollidePairFrame(hypot, CollisionRow(hypot, bs, i, j - 1), i, j - 1);
    }
  }

  lemma {:induction false} CollisionRowsFrame(hypot: Hypot, bs: seq<Body>, i: nat)
    requires Massive(bs) && i <= |bs|
    ensures var r := CollisionRows(hypot, bs, i);
      forall k :: 0 <= k < |bs| ==> SamePlanet(bs[k], r[k])
    decreases i
  {
    if i > 0 {
      CollisionRowsFrame(hypot, bs, i - 1);
      var before := CollisionRows(hypot, bs, i - 1);
      CollisionRowFrame(hypot, before, i - 1, |before|);
    }
  }

  /** The collision pass moves and redirects planets but keeps each one's
      mass, radius, color and black-hole flag, in list order. */
  lemma CollisionPassKeepsPlanets(hypot: Hypot, bs: seq<Body>)
    requires Massive(bs)
    ensures var r := CollisionPass(hypot, bs);
      forall k :: 0 <= k < |bs| ==> SamePlanet(bs[k], r[k])
  {
    CollisionRowsFrame(hypot, bs, |bs|);
  }

  /** No two planets touch. */
  predicate Apart(hypot: Hypot, bs: seq<Body>)
  {
    forall i, j :: 0 <= i < j < |bs| ==> !CheckCollision(hypot, bs[i], bs[j])
  }

  lemma {:induction false} CollisionRowApart(hypot: Hypot, bs: seq<Body>, i: nat, j: nat)
    requires Massive(bs) && i < |bs| && j <= |bs| && Apart(hypot, bs)
    ensures CollisionRow(hypot, bs, i, j) == bs
    decreases j
  {
    if j > 0 {
      CollisionRowApart(hypot, bs, i, j - 1);
    }
  }

  lemma {:induction false} CollisionRowsApart(hypot: Hypot, bs: seq<Body>, i: nat)
    requires Massive(bs) && i <= |bs| && Apart(hypot, bs)
    ensures CollisionRows(hypot, bs, i) == bs
    decreases i
  {
    if i > 0 {
      CollisionRowsApart(hypot, bs, i - 1);
      CollisionRowApart(hypot, bs, i - 1, |bs|);
    }
  }

  /** When no two planets touch, the collision pass changes nothing. */
  lemma CollisionPassApart(hypot: Hypot, bs: seq<Body>)
    requires Massive(bs) && Apart(hypot, bs)
    ensures CollisionPass(hypot, bs) == bs
  {
    CollisionRowsApart(hypot, bs, |bs|);
  }

  /** Two planets: the pair is tested once, as (0, 1), and resolved if it
      touches. */
  lemma CollisionPassOfTwo(hypot: Hypot, a: Body, b: Body)
    requires Massive([a, b])
    ensures ImpulseDefined(a, b) &&
      CollisionPass(hypot, [a, b]) ==
        if CheckCollision(hypot, a, b) then [Resolved(hypot, a, b).0, Resolved(hypot, a, b).1]
        else [a, b]
  {
    MassiveDefined([a, b], 0, 1);
    var bs := [a, b];
    assert CollisionRow(hypot, bs, 0, 1) == bs;
    var r := CollidePair(hypot, bs, 0, 1);
    assert CollisionRow(hypot, bs, 0, 2) == r;
    assert CollisionRows(hypot, bs, 1) == r;
    assert CollisionRow(hypot, r, 1, 1) == r;
    assert CollisionRow(hypot, r, 1, 2) == r;
    assert CollisionRows(hypot, bs, 2) == r;
  }

  /** A gravity step keeps the total momentum. */
  lemma GravitatePairMomentum(hypot: Hypot, g: real, timeStep: real, bs: seq<Body>, i: nat, j: nat)
    requires Massive(bs) && i < |bs| && j < |bs|
    ensures TotalMomentum(GravitatePair(hypot, g, timeStep, bs, i, j)) == TotalMomentum(bs)
  {
    if i != j {
      MassiveDefined(bs, i, j);
      KickedConservesMomentum(bs[i], bs[j], CalculateGravity(hypot, g, bs[i], bs[j]), timeStep);
      PairUpdateMomentum(bs, i, j, Gravitated(hypot, g, timeStep, bs[i], bs[j]));
    }
  }

  lemma {:induction false} GravityRowMomentum(hypot: Hypot, g: real, timeStep: real, bs: seq<Body>, i: nat, j: nat)
    requires Massive(bs) && i < |bs| && j <= |bs|
    ensures TotalMomentum(GravityRow(hypot, g, timeStep, bs, i, j)) == TotalMomentum(bs)
    decreases j
  {
    if j > 0 {
      GravityRowMomentum(hypot, g, timeStep, bs, i, j - 1);
      GravitatePairMomentum(hypot, g, timeStep, GravityRow(hypot, g, timeStep, bs, i, j - 1), i, j - 1);
    }
  }

  lemma {:induction false} GravityRowsMomentum(hypot: Hypot, g: real, timeStep: real, bs: seq<Body>, i: nat)
    requires Massive(bs) && i <= |bs|
    ensures TotalMomentum(GravityRows(hypot, g, timeStep, bs, i)) == TotalMomentum(bs)
    decreases i
  {
    if i > 0 {
      GravityRowsMomentum(hypot, g, timeStep, bs, i - 1);
      var before := GravityRows(hypot, g, timeStep, bs, i - 1);
      GravityRowMomentum(hypot, g, timeStep, before, i - 1, |before|);
    }
  }

  /** The gravity pass keeps the total momentum of the planets. */
  lemma GravityPassConservesMomentum(hypot: Hypot, g: real, timeStep: real, bs: seq<Body>)
    requires Massive(bs)
    ensures TotalMomentum(GravityPass(hypot, g, timeStep, bs)) == TotalMomentum(bs)
  {
    GravityRowsMomentum(hypot, g, timeStep, bs, |bs|);
  }

  /** A gravity step changes only planets i and j, and of those only the
      velocities. */
  lemma GravitatePairFrame(hypot: Hypot, g: real, timeStep: real, bs: seq<Body>, i: nat, j: nat)
    requires Massive(bs) && i < |bs| && j < |bs|
    ensures var r := GravitatePair(hypot, g, timeStep, bs, i, j);
      (forall k :: 0 <= k < |bs| && k != i && k != j ==> r[k] == bs[k]) &&
      (forall k :: 0 <= k < |bs| ==> SamePlace(bs[k], r[k]))
  {
  }

  lemma {:induction false} GravityRowFrame(hypot: Hypot, g: real, timeStep: real, bs: seq<Body>, i: nat, j: nat)
    requires Massive(bs) && i < |bs| && j <= |bs|
    ensures var r := GravityRow(hypot, g, timeStep, bs, i, j);
      forall k :: 0 <= k < |bs| ==> SamePlace(bs[k], r[k])
    decreases j
  {
    if j > 0 {
      GravityRowFrame(hypot, g, timeStep, bs, i, j - 1);
      GravitatePairFrame(hypot, g, timeStep, GravityRow(hypot, g, timeStep, bs, i, j - 1), i, j - 1);
    }
  }

  lemma {:induction false} GravityRowsFrame(hypot: Hypot, g: real, timeStep: real, bs: seq<Body>, i: nat)
    requires Massive(bs) && i <= |bs|
    ensures var r := GravityRows(hypot, g, timeStep, bs, i);
      forall k :: 0 <= k < |bs| ==> SamePlace(bs[k], r[k])
    decreases i
  {
    if i > 0 {
      GravityRowsFrame(hypot, g, timeStep, bs, i - 1);
      var before := GravityRows(hypot, g, timeStep, bs, i - 1);
      GravityRowFrame(hypot, g, timeStep, before, i - 1, |before|);
    }
  }

  /** The gravity pass changes only velocities: every planet keeps its
      position, mass, radius, color and black-hole flag. */
  lemma GravityPassKeepsPositions(hypot: Hypot, g: real, timeStep: real, bs: seq<Body>)
    requires Massive(bs)
    ensures var r := GravityPass(hypot, g, timeStep, bs);
      forall k :: 0 <= k < |bs| ==> SamePlace(bs[k], r[k])
  {
    GravityRowsFrame(hypot, g, timeStep, bs, |bs|);
  }

  /** Two planets: gravity is applied once as (0, 1) and once as (1, 0), so
      each planet receives twice the kick of a single apply_gravity call. */
  lemma GravityPassOfTwo(hypot: Hypot, g: real, timeStep: real, a: Body, b: Body)
    requires IsHypot(hypot)
    requires Massive([a, b])
    ensures GravityDefined(a, b)
    ensures var f := CalculateGravity(hypot, g, a, b);
      GravityPass(hypot, g, timeStep, [a, b]) ==
        [a.(vx := a.vx + 2.0 * Kick(f.0, a.mass, timeStep), vy := a.vy + 2.0 * Kick(f.1, a.mass, timeStep)),
         b.(vx := b.vx - 2.0 * Kick(f.0, b.mass, timeStep), vy := b.vy - 2.0 * Kick(f.1, b.mass, timeStep))]
  {
    MassiveDefined([a, b], 0, 1);
    GravityBothWays(hypot, g, timeStep, a, b);
    var bs := [a, b];
    var r := Gravitated(hypot, g, timeStep, a, b);
    assert GravityRow(hypot, g, timeStep, bs, 0, 1) == bs;
    var first := GravitatePair(hypot, g, timeStep, bs, 0, 1);
    assert first == [r.0, r.1];
    assert GravityRow(hypot, g, timeStep, bs, 0, 2) == first;
    assert GravityRows(hypot, g, timeStep, bs, 1) == first;
    var s := Gravitated(hypot, g, timeStep, r.1, r.0);
    var second := GravitatePair(hypot, g, timeStep, first, 1, 0);
    assert second == [s.1, s.0];
    assert GravityRow(hypot, g, timeStep, first, 1, 1) == second;
    assert GravityRow(hypot, g, timeStep, first, 1, 2) == second;
    assert GravityRows(hypot, g, timeStep, bs, 2) == second;
  }

  /** Replacing every planet by a value with the same quantity q keeps the
      sum of q. */
  lemma {:induction false} TotalUpdatePass(bs: seq<Body>, q: Body -> real)
    requires forall b: Body :: q(b.Moved()) == q(b)
    ensures Total(UpdatePass(bs), q) == Total(bs, q)
    decreases |bs|
  {
    if |bs| > 0 {
      assert UpdatePass(bs)[1..] == UpdatePass(bs[1..]);
      TotalUpdatePass(bs[1..], q);
    }
  }

  /** Moving planets keeps their total momentum and kinetic energy. */
  lemma UpdatePassConserves(bs: seq<Body>)
    ensures TotalMomentum(UpdatePass(bs)) == TotalMomentum(bs)
    ensures TotalKineticEnergy(UpdatePass(bs)) == TotalKineticEnergy(bs)
  {
    TotalUpdatePass(bs, MomentumX);
    TotalUpdatePass(bs, MomentumY);
    TotalUpdatePass(bs, KineticEnergy);
  }

  /** A whole tick keeps the total momentum of the planets. */
  lemma TickConservesMomentum(hypot: Hypot, g: real, timeStep: real, bs: seq<Body>)
    requires Massive(bs)
    ensures TotalMomentum(Ticked(hypot, g, timeStep, bs)) == TotalMomentum(bs)
  {
    var c := CollisionPass(hypot, bs);
    CollisionPassConservesMomentum(hypot, bs);
    GravityPassConservesMomentum(hypot, g, timeStep, c);
    UpdatePassConserves(GravityPass(hypot, g, timeStep, c));
  }

  /** A tick never adds or removes a planet, and every planet keeps its
      mass, radius, color and black-hole flag. */
  lemma TickKeepsPlanets(hypot: Hypot, g: real, timeStep: real, bs: seq<Body>)
    requires Massive(bs)
    ensures var r := Ticked(hypot, g, timeStep, bs);
      |r| == |bs| && forall k :: 0 <= k < |bs| ==> SamePlanet(bs[k], r[k])
  {
    var c := CollisionPass(hypot, bs);
    CollisionPassKeepsPlanets(hypot, bs);
    GravityPassKeepsPositions(hypot, g, timeStep, c);
  }

  // ---------------------------------------------------------------------
  // The tick on Planet objects
  // ---------------------------------------------------------------------

  /** The current values of all planets, in list order. */
  function States(planets: seq<Planet>): (bs: seq<Body>)
    reads planets
    ensures |bs| == |planets|
    ensures forall k :: 0 <= k < |planets| ==> bs[k] == planets[k].State()
  {
    seq(|planets|, k requires 0 <= k < |planets| reads planets => planets[k].State())
  }

  /** No planet object appears twice in the list. */
  predicate Distinct(planets: seq<Planet>)
  {
    forall i, j :: 0 <= i < j < |planets| ==> planets[i] != planets[j]
  }

  /** One iteration of the inner collision loop. */
  method CollidePlanets(hypot: Hypot, planets: seq<Planet>, i: nat, j: nat)
    requires IsHypot(hypot)
    requires i < |planets| && j < |planets|
    requires Distinct(planets) && Massive(States(planets))
    modifies planets[i], planets[j]
    ensures States(planets) == CollidePair(hypot, old(States(planets)), i, j)
  {
    ghost var bs := States(planets);
    var p1, p2 := planets[i], planets[j];
    if i < j && CheckCollision(hypot, p1.State(), p2.State()) {
      MassiveDefined(bs, i, j);
      ghost var keBefore, keAfter := ResolveCollision(hypot, p1, p2);
      assert forall k :: 0 <= k < |planets| && k != i && k != j ==> planets[k] != p1 && planets[k] != p2;
    }
  }

  /** The collision pass of the tick. */
  method CollisionPhase(hypot: Hypot, planets: seq<Planet>)
    requires IsHypot(hypot)
    requires Distinct(planets) && Massive(States(planets))
    modifies planets
    ensures States(planets) == CollisionPass(hypot, old(States(planets)))
  {
    ghost var bs := States(planets);
    for i := 0 to |planets|
      invariant States(planets) == CollisionRows(hypot, bs, i)
    {
      CollisionRowPhase(hypot, planets, i);
    }
  }

  /** One iteration of the outer collision loop: the inner loop over j. */
  method CollisionRowPhase(hypot: Hypot, planets: seq<Planet>, i: nat)
    requires IsHypot(hypot)
    requires i < |planets|
    requires Distinct(planets) && Massive(States(planets))
    modifies planets
    ensures States(planets) == CollisionRow(hypot, old(States(planets)), i, |planets|)
  {
    ghost var before := States(planets);
    for j := 0 to |planets|
      invariant States(planets) == CollisionRow(hypot, before, i, j)
    {
      CollidePlanets(hypot, planets, i, j);
    }
  }

  /** One iteration of the inner gravity loop. */
  method GravitatePlanets(hypot: Hypot, g: real, timeStep: real, planets: seq<Planet>, i: nat, j: nat)
    requires IsHypot(hypot)
    requires i < |planets| && j < |planets|
    requires Distinct(planets) && Massive(States(planets))
    modifies planets[i], planets[j]
    ensures States(planets) == GravitatePair(hypot, g, timeStep, old(States(planets)), i, j)
  {
    ghost var bs := States(planets);
    var p1, p2 := planets[i], planets[j];
    if i != j {
      MassiveDefined(bs, i, j);
      ApplyGravity(hypot, g, p1, p2, timeStep);
      assert forall k :: 0 <= k < |planets| && k != i && k != j ==> planets[k] != p1 && planets[k] != p2;
    }
  }

  /** The gravity pass of the tick. */
  method GravityPhase(hypot: Hypot, g: real, timeStep: real, planets: seq<Planet>)
    requires IsHypot(hypot)
    requires Distinct(planets) && Massive(States(planets))
    modifies planets
    ensures States(planets) == GravityPass(hypot, g, timeStep, old(States(planets)))
  {
    ghost var bs := States(planets);
    for i := 0 to |planets|
      invariant States(planets) == GravityRows(hypot, g, timeStep, bs, i)
    {
      GravityRowPhase(hypot, g, timeStep, planets, i);
    }
  }

  /** One iteration of the outer gravity loop: the inner loop over j. */
  method GravityRowPhase(hypot: Hypot, g: real, timeStep: real, planets: seq<Planet>, i: nat)
    requires IsHypot(hypot)
    requires i < |planets|
    requires Distinct(planets) && Massive(States(planets))
    modifies planets
    ensures States(planets) == GravityRow(hypot, g, timeStep, old(States(planets)), i, |planets|)
  {
    ghost var before := States(planets);
    for j := 0 to |planets|
      invariant States(planets) == GravityRow(hypot, g, timeStep, before, i, j)
    {
      GravitatePlanets(hypot, g, timeStep, planets, i, j);
    }
  }

  /** The update pass of the tick. */
  method UpdatePhase(planets: seq<Planet>)
    requires Distinct(planets)
    modifies planets
    ensures States(planets) == UpdatePass(old(States(planets)))
  {
    for k := 0 to |planets|
      invariant forall m :: 0 <= m < k ==> planets[m].State() == old(planets[m].State()).Moved()
      invariant forall m :: k <= m < |planets| ==> planets[m].State() == old(planets[m].State())
    {
      planets[k].Update();
    }
  }

  /** One tick of the simulation loop on the planet list. */
  method Tick(hypot: Hypot, g: real, timeStep: real, planets: seq<Planet>)
    requires IsHypot(hypot)
    requires Distinct(planets) && Massive(States(planets))
    modifies planets
    ensures States(planets) == Ticked(hypot, g, timeStep, old(States(planets)))
  {
    CollisionPhase(hypot, planets);
    GravityPhase(hypot, g, timeStep, planets);
    UpdatePhase(planets);
  }
}
