/** The planet record of planet.py: its fields, its constructor and its
    per-tick position update. The record is a class, because the simulation
    changes a planet's fields in place; `Body` is the value of those fields at
    one moment, the view in which the physics is specified. */
module Planets {

  /** An RGB triple. The physics carries it along and never looks inside. */
  type Color = (int, int, int)

  /** The fields of a planet at one moment. `blackHole` is the flag the
      collision test reads. */
  datatype Body = Body(
    x: real, y: real,
    vx: real, vy: real,
    mass: real, radius: real,
    color: Color,
    blackHole: bool)
  {
    /** The body after one call of `update`: displaced by its velocity, with
        every other field as it was. */
    function Moved(): (b: Body)
      ensures b.x - x == vx && b.y - y == vy
      ensures b.(x := x, y := y) == this
    {
      this.(x := x + vx, y := y + vy)
    }
  }

  class Planet {
    var x: real
    var y: real
    var radius: real
    var color: Color
    var mass: real
    var vx: real
    var vy: real
    var blackHole: bool

    /** The current value of all fields. */
    function State(): Body
      reads this
    {
      Body(x, y, vx, vy, mass, radius, color, blackHole)
    }

    /** A planet at rest: position, radius, color and mass are stored as
        given (the radius is not derived from the mass) and the velocity is
        zero. The black-hole flag defaults to "not a black hole". */
    constructor (x: real, y: real, radius: real, color: Color, mass: real, blackHole: bool := false)
      ensures State() == Body(x, y, 0.0, 0.0, mass, radius, color, blackHole)
    {
      this.x := x;
      this.y := y;
      this.radius := radius;
      this.color := color;
      this.mass := mass;
      this.vx := 0.0;
      this.vy := 0.0;
      this.blackHole := blackHole;
    }

    /** Moves the planet by its velocity; nothing else changes, and in
        particular the position is not kept inside the screen. */
    method Update()
      modifies this
      ensures x == old(x) + old(vx) && y == old(y) + old(vy)
      ensures State() == old(State()).Moved()
    {
      x := x + vx;
      y := y + vy;
    }
  }
}
