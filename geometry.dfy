/** Points of the plane, the numeric constants of the tiling and the one
    geometric primitive the substitution rule is built on. */
module Geometry {

  /** A point of the plane, `[f64; 2]` in the program. Coordinates are exact
      reals: floating-point rounding is not modelled. */
  datatype Point = Point(x: real, y: real)

  /** The library cosine and sine the program calls. Their values are not
      reasoned about, so every operation takes them as a parameter and holds
      for any pair of functions; a lemma that needs the identity
      cos^2 + sin^2 = 1 asks for it with `Pythagorean`. */
  datatype Trig = Trig(cos: real -> real, sin: real -> real)

  /** `std::f64::consts::PI`, written as the library writes it. */
  const Pi: real := 3.14159265358979323846264338327950288

  /** `SQRT_2`: the program's own decimal literal, not the exact square root. */
  const Sqrt2: real := 1.4142135623730950

  /** `RHOMBUS_ANGLE`, a turn of 45 degrees. */
  const RhombusAngle: real := Pi / 4.0

  /** `SQUARE_SIZE_RATIO`. */
  const SquareSizeRatio: real := 1.0 / Sqrt2

  /** cos^2 + sin^2 = 1 at one angle. */
  ghost predicate UnitAt(trig: Trig, a: real)
  {
    trig.cos(a) * trig.cos(a) + trig.sin(a) * trig.sin(a) == 1.0
  }

  /** The one fact about cosine and sine that the geometric lemmas use. */
  ghost predicate Pythagorean(trig: Trig)
  {
    forall a :: UnitAt(trig, a)
  }

  /** Squared Euclidean distance. */
  function SqDist(p: Point, q: Point): real
  {
    (p.x - q.x) * (p.x - q.x) + (p.y - q.y) * (p.y - q.y)
  }

  /** `p` lies exactly `d` away from `q`. */
  ghost predicate AtDistance(p: Point, q: Point, d: real)
  {
    SqDist(p, q) == d * d
  }

  /** The point reached from `origin` by walking `distance` in direction
      `angle`; a zero distance stays at the origin. */
  function PointAtAngleAndDistance(trig: Trig, origin: Point, angle: real, distance: real): (p: Point)
    ensures distance == 0.0 ==> p == origin
    ensures trig.cos(angle) == 0.0 ==> p.x == origin.x
    ensures trig.sin(angle) == 0.0 ==> p.y == origin.y
  {
    Point(origin.x + distance * trig.cos(angle), origin.y + distance * trig.sin(angle))
  }

  /** Under cos^2 + sin^2 = 1 the new point lies exactly `distance` away from
      the origin, whatever the direction. */
  lemma PointAtDistance(trig: Trig, origin: Point, angle: real, distance: real)
    requires Pythagorean(trig)
    ensures AtDistance(PointAtAngleAndDistance(trig, origin, angle, distance), origin, distance)
  {
    var c, s := trig.cos(angle), trig.sin(angle);
    var p := PointAtAngleAndDistance(trig, origin, angle, distance);
    assert p.x - origin.x == distance * c;
    assert p.y - origin.y == distance * s;
    calc {
      SqDist(p, origin);
      (distance * c) * (distance * c) + (distance * s) * (distance * s);
      distance * distance * (c * c + s * s);
      { assert UnitAt(trig, angle); }
      distance * distance;
    }
  }

  /** The literal `SQRT_2` is a close under-approximation of the square root
      of two: its square falls short of 2 by less than 10^-15. */
  lemma Sqrt2Approximates()
    ensures 0.0 < Sqrt2
    ensures 2.0 - 0.000000000000001 < Sqrt2 * Sqrt2 < 2.0
  {
  }
}
