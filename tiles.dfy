/** The two prototiles, their outlines and the substitution rule that
    replaces one tile by its children. */
module Tiles {
  import opened Geometry

  /** The colour string of a tile. A seed carries the empty string; every
      other tile carries `gradient_color(center, img_center, img_size)`, kept
      here as the three arguments it was computed from (the hue arithmetic and
      its formatting are not modelled). */
  datatype Color = Blank | Gradient(center: Point, imgCenter: Point, imgSize: real)

  /** `gradient_color`: a colour determined by the tile's centre and the image
      parameters, and by nothing else. */
  function GradientColor(center: Point, imgCenter: Point, imgSize: real): (c: Color)
    ensures c != Blank
  {
    Gradient(center, imgCenter, imgSize)
  }

  /** A tile. Both variants carry the same four attributes; `size` is the
      vertex radius of a Rhombus and the edge length of a Square. */
  datatype Tile =
    | Rhombus(center: Point, size: real, angle: real, color: Color)
    | Square(center: Point, size: real, angle: real, color: Color)

  /** `k` eighths of a full turn, i.e. k * pi/4. */
  function Turn(k: int): real
  {
    (k as real) * RhombusAngle
  }

  /** Angular spacing of the outline's vertices, in eighths of a turn. */
  function VertexStep(t: Tile): int
  {
    if t.Rhombus? then 1 else 2
  }

  /** Distance of the outline's vertices from the centre. */
  function Radius(t: Tile): real
  {
    if t.Rhombus? then t.size else t.size / Sqrt2
  }

  /** `Tile::vertices`: four points around the centre, the k-th at
      k * VertexStep eighths of a turn past the tile's angle. */
  function Vertices(trig: Trig, t: Tile): (vs: seq<Point>)
    ensures |vs| == 4
    ensures forall k | 0 <= k < 4 ::
      vs[k] == PointAtAngleAndDistance(trig, t.center, t.angle + Turn(k * VertexStep(t)), Radius(t))
  {
    match t
    case Rhombus(center, size, angle, _) =>
      var angle1 := angle;
      var angle2 := angle + RhombusAngle;
      var angle3 := angle2 + RhombusAngle;
      var angle4 := angle3 + RhombusAngle;
      [ PointAtAngleAndDistance(trig, center, angle1, size),
        PointAtAngleAndDistance(trig, center, angle2, size),
        PointAtAngleAndDistance(trig, center, angle3, size),
        PointAtAngleAndDistance(trig, center, angle4, size) ]
    case Square(center, size, angle, _) =>
      var angle1 := angle;
      var angle2 := angle + Pi / 2.0;
      var angle3 := angle2 + Pi / 2.0;
      var angle4 := angle3 + Pi / 2.0;
      [ PointAtAngleAndDistance(trig, center, angle1, size / Sqrt2),
        PointAtAngleAndDistance(trig, center, angle2, size / Sqrt2),
        PointAtAngleAndDistance(trig, center, angle3, size / Sqrt2),
        PointAtAngleAndDistance(trig, center, angle4, size / Sqrt2) ]
  }

  /** Under cos^2 + sin^2 = 1 every vertex lies on the circle of radius
      `Radius(t)` about the centre. */
  lemma VerticesOnCircle(trig: Trig, t: Tile)
    requires Pythagorean(trig)
    ensures forall k | 0 <= k < 4 :: AtDistance(Vertices(trig, t)[k], t.center, Radius(t))
  {
    forall k | 0 <= k < 4
      ensures AtDistance(Vertices(trig, t)[k], t.center, Radius(t))
    {
      PointAtDistance(trig, t.center, t.angle + Turn(k * VertexStep(t)), Radius(t));
    }
  }

  /** Number of children: 3 for a Rhombus, 4 for a Square. */
  function Arity(t: Tile): nat
  {
    if t.Rhombus? then 3 else 4
  }

  /** Orientation of child `i` relative to the parent, in eighths of a turn. */
  function ChildTurn(t: Tile, i: nat): int
    requires i < Arity(t)
  {
    if t.Rhombus? then [1, 5, 0][i] else 2 * i
  }

  /** Direction from the parent's centre to child `i`'s centre, relative to the
      parent's angle, in eighths of a turn. */
  function ChildHeading(t: Tile, i: nat): int
    requires i < Arity(t)
  {
    if t.Rhombus? then [0, 4, 1][i] else 2 * i
  }

  /** Distance from the parent's centre to every child's centre. */
  function ChildDistance(t: Tile): real
  {
    if t.Rhombus? then t.size / 2.0 else t.size / Sqrt2
  }

  /** `Tile::subdivide`, one inflation step. A Rhombus gives Rhombus, Rhombus,
      Square; a Square gives four Rhombi; each child is coloured from its own
      centre alone. How the children are placed, turned and scaled is stated
      by `ChildAngles`, `ChildCentres` and `ChildSizes`. */
  function Subdivide(trig: Trig, t: Tile, imgCenter: Point, imgSize: real): (r: seq<Tile>)
    ensures |r| == Arity(t)
    ensures t.Rhombus? ==> r[0].Rhombus? && r[1].Rhombus? && r[2].Square?
    ensures t.Square? ==> forall i | 0 <= i < |r| :: r[i].Rhombus?
    ensures forall i | 0 <= i < |r| :: r[i].color == GradientColor(r[i].center, imgCenter, imgSize)
  {
    match t
    case Rhombus(center, size, angle, _) =>
      var newSize := size / Sqrt2;
      var newCenter1 := PointAtAngleAndDistance(trig, center, angle, size / 2.0);
      var newCenter2 := PointAtAngleAndDistance(trig, center, angle + Pi, size / 2.0);
      var squareCenter := PointAtAngleAndDistance(trig, center, angle + RhombusAngle, size / 2.0);
      var newAngle1 := angle + RhombusAngle;
      var newAngle2 := angle + RhombusAngle + Pi;
      var squareAngle := angle;
      [ Rhombus(newCenter1, newSize, newAngle1, GradientColor(newCenter1, imgCenter, imgSize)),
        Rhombus(newCenter2, newSize, newAngle2, GradientColor(newCenter2, imgCenter, imgSize)),
        Square(squareCenter, newSize * SquareSizeRatio, squareAngle, GradientColor(squareCenter, imgCenter, imgSize)) ]
    case Square(center, size, angle, _) =>
      var newSize := size * Sqrt2;
      var rhombusCenter1 := PointAtAngleAndDistance(trig, center, angle, size / Sqrt2);
      var rhombusCenter2 := PointAtAngleAndDistance(trig, center, angle + Pi / 2.0, size / Sqrt2);
      var rhombusCenter3 := PointAtAngleAndDistance(trig, center, angle + Pi, size / Sqrt2);
      var rhombusCenter4 := PointAtAngleAndDistance(trig, center, angle + 3.0 * Pi / 2.0, size / Sqrt2);
      var rhombusAngle1 := angle;
      var rhombusAngle2 := angle + Pi / 2.0;
      var rhombusAngle3 := angle + Pi;
      var rhombusAngle4 := angle + 3.0 * Pi / 2.0;
      [ Rhombus(rhombusCenter1, newSize, rhombusAngle1, GradientColor(rhombusCenter1, imgCenter, imgSize)),
        Rhombus(rhombusCenter2, newSize, rhombusAngle2, GradientColor(rhombusCenter2, imgCenter, imgSize)),
        Rhombus(rhombusCenter3, newSize, rhombusAngle3, GradientColor(rhombusCenter3, imgCenter, imgSize)),
        Rhombus(rhombusCenter4, newSize, rhombusAngle4, GradientColor(rhombusCenter4, imgCenter, imgSize)) ]
  }

  /** Each child is turned from its parent by a fixed number of eighths of a
      turn: 1, 5 and 0 for the children of a Rhombus, 0, 2, 4 and 6 for those
      of a Square. */
  lemma ChildAngles(trig: Trig, t: Tile, imgCenter: Point, imgSize: real)
    ensures var r := Subdivide(trig, t, imgCenter, imgSize);
      forall i | 0 <= i < |r| :: r[i].angle == t.angle + Turn(ChildTurn(t, i))
  {
  }

  /** Each child's centre is `point_at_angle_and_distance` from the parent's
      centre: for a Rhombus at headings 0, 4 and 1 eighths and distance
      size/2; for a Square at headings 0, 2, 4 and 6 eighths and distance
      size/SQRT_2. */
  lemma ChildCentres(trig: Trig, t: Tile, imgCenter: Point, imgSize: real)
    ensures var r := Subdivide(trig, t, imgCenter, imgSize);
      forall i | 0 <= i < |r| ::
        r[i].center == PointAtAngleAndDistance(trig, t.center, t.angle + Turn(ChildHeading(t, i)), ChildDistance(t))
  {
  }

  /** The children of a Rhombus are `SQRT_2` times smaller, its Square child
      `SQRT_2` times smaller again; the children of a Square are `SQRT_2`
      times larger. A positive size gives positive children. */
  lemma ChildSizes(trig: Trig, t: Tile, imgCenter: Point, imgSize: real)
    ensures var r := Subdivide(trig, t, imgCenter, imgSize);
      && (t.Rhombus? ==> r[0].size * Sqrt2 == t.size && r[1].size * Sqrt2 == t.size)
      && (t.Rhombus? ==> r[2].size * (Sqrt2 * Sqrt2) == t.size)
      && (t.Square? ==> forall i | 0 <= i < |r| :: r[i].size == t.size * Sqrt2)
      && (0.0 < t.size ==> forall i | 0 <= i < |r| :: 0.0 < r[i].size)
  {
  }

  /** The parent's colour plays no part in its children. */
  lemma SubdivideIgnoresColor(trig: Trig, t: Tile, c: Color, imgCenter: Point, imgSize: real)
    ensures Subdivide(trig, t.(color := c), imgCenter, imgSize) == Subdivide(trig, t, imgCenter, imgSize)
  {
  }

  /** The Square child of a Rhombus is, up to the rounding in the `SQRT_2`
      literal, half the parent's size: slightly more than half, by less than
      10^-15 of the parent's size, because the square of the literal falls
      short of 2 by less than 10^-15 (`Sqrt2Approximates`). With the exact
      square root it is half. */
  lemma SquareChildIsHalf(trig: Trig, t: Tile, imgCenter: Point, imgSize: real)
    requires t.Rhombus? && 0.0 < t.size
    ensures var s := Subdivide(trig, t, imgCenter, imgSize)[2].size;
      t.size / 2.0 < s < t.size / 2.0 + t.size / 1000000000000000.0
  {
    Sqrt2Approximates();
  }

  /** Under cos^2 + sin^2 = 1 every child's centre lies `ChildDistance(t)`
      from the parent's: half the parent's size for a Rhombus, its size over
      `SQRT_2` for a Square. */
  lemma ChildCentresAtDistance(trig: Trig, t: Tile, imgCenter: Point, imgSize: real)
    requires Pythagorean(trig)
    ensures var r := Subdivide(trig, t, imgCenter, imgSize);
      forall i | 0 <= i < |r| :: AtDistance(r[i].center, t.center, ChildDistance(t))
  {
    var r := Subdivide(trig, t, imgCenter, imgSize);
    ChildCentres(trig, t, imgCenter, imgSize);
    forall i | 0 <= i < |r|
      ensures AtDistance(r[i].center, t.center, ChildDistance(t))
    {
      var a := t.angle + Turn(ChildHeading(t, i));
      var p := PointAtAngleAndDistance(trig, t.center, a, ChildDistance(t));
      PointAtDistance(trig, t.center, a, ChildDistance(t));
      assert r[i].center == p;
    }
  }

  // ----- Facts about the children used by the expander -----

  /** `a` differs from `base` by a whole number of eighths of a turn. */
  ghost predicate OnAngleGrid(a: real, base: real)
  {
    exists k: int :: a == base + Turn(k)
  }

  /** Children stay on their parent's grid of angles. */
  lemma ChildrenOnAngleGrid(trig: Trig, t: Tile, base: real, imgCenter: Point, imgSize: real)
    requires OnAngleGrid(t.angle, base)
    ensures var r := Subdivide(trig, t, imgCenter, imgSize);
      forall i | 0 <= i < |r| :: OnAngleGrid(r[i].angle, base)
  {
    var r := Subdivide(trig, t, imgCenter, imgSize);
    var k :| t.angle == base + Turn(k);
    ChildAngles(trig, t, imgCenter, imgSize);
    forall i | 0 <= i < |r|
      ensures OnAngleGrid(r[i].angle, base)
    {
      assert r[i].angle == base + Turn(k + ChildTurn(t, i));
    }
  }

  function CountRhombi(ts: seq<Tile>): nat
  {
    if ts == [] then 0 else (if ts[0].Rhombus? then 1 else 0) + CountRhombi(ts[1..])
  }

  function CountSquares(ts: seq<Tile>): nat
  {
    if ts == [] then 0 else (if ts[0].Square? then 1 else 0) + CountSquares(ts[1..])
  }

  /** A Rhombus yields 2 Rhombi and 1 Square, a Square 4 Rhombi. */
  lemma ChildrenCensus(trig: Trig, t: Tile, imgCenter: Point, imgSize: real)
    ensures var r := Subdivide(trig, t, imgCenter, imgSize);
      CountRhombi(r) == (if t.Rhombus? then 2 else 4) && CountSquares(r) == (if t.Rhombus? then 1 else 0)
  {
    var r := Subdivide(trig, t, imgCenter, imgSize);
    var r1 := r[1..];
    var r2 := r1[1..];
    var r3 := r2[1..];
    if t.Rhombus? {
      assert r3 == [];
      assert CountRhombi(r2) == 0 && CountSquares(r2) == 1;
    } else {
      assert r3[1..] == [];
      assert CountRhombi(r3) == 1 && CountSquares(r3) == 0;
      assert CountRhombi(r2) == 2 && CountSquares(r2) == 0;
    }
  }

  /** A tile with its colour forgotten: shape, centre, size and angle. */
  function Outline(t: Tile): Tile
  {
    t.(color := Blank)
  }

  function Outlines(ts: seq<Tile>): (r: seq<Tile>)
    ensures |r| == |ts|
    ensures forall i | 0 <= i < |ts| :: r[i] == Outline(ts[i])
  {
    if ts == [] then [] else [Outline(ts[0])] + Outlines(ts[1..])
  }

  /** The children's outlines depend on the parent's outline alone: not on
      the parent's colour, nor on the image centre and size. */
  lemma SubdivideOutlines(trig: Trig, t: Tile, u: Tile, imgCenter: Point, imgSize: real, imgCenter': Point, imgSize': real)
    requires Outline(t) == Outline(u)
    ensures Outlines(Subdivide(trig, t, imgCenter, imgSize)) == Outlines(Subdivide(trig, u, imgCenter', imgSize'))
  {
  }
}
