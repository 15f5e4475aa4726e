/** The depth-bounded expander: substitution applied `depth` times, the
    tree of tiles flattened in pre-order into one sequence. */
module Expansion {
  import opened Geometry
  import opened Tiles

  /** The tiles `subdivide_recursively` produces from one tile: the tile itself
      at depth 0, otherwise the expansions of its children at one level less,
      in child order. */
  function Expand(trig: Trig, t: Tile, depth: nat, imgCenter: Point, imgSize: real): (r: seq<Tile>)
    ensures 1 <= |r|
    ensures depth == 0 ==> r == [t]
    decreases depth, 0
  {
    if depth == 0 then [t]
    else ExpandAll(trig, Subdivide(trig, t, imgCenter, imgSize), depth - 1, imgCenter, imgSize)
  }

  /** The expansions of a sequence of tiles, concatenated in order. */
  function ExpandAll(trig: Trig, ts: seq<Tile>, depth: nat, imgCenter: Point, imgSize: real): (r: seq<Tile>)
    ensures |ts| <= |r|
    ensures ts == [] ==> r == []
    decreases depth, 1, |ts|
  {
    if ts == [] then []
    else Expand(trig, ts[0], depth, imgCenter, imgSize) + ExpandAll(trig, ts[1..], depth, imgCenter, imgSize)
  }

  /** `subdivide_recursively`: the accumulator loop over the children appends
      each child's expansion to `result`. */
  method SubdivideRecursively(trig: Trig, tile: Tile, depth: nat, imgCenter: Point, imgSize: real)
    returns (result: seq<Tile>)
    ensures result == Expand(trig, tile, depth, imgCenter, imgSize)
    decreases depth
  {
    if depth == 0 {
      result := [tile];
    } else {
      result := [];
      var children := Subdivide(trig, tile, imgCenter, imgSize);
      for i := 0 to |children|
        invariant result == ExpandAll(trig, children[..i], depth - 1, imgCenter, imgSize)
      {
        var expanded := SubdivideRecursively(trig, children[i], depth - 1, imgCenter, imgSize);
        ExpandAllSnoc(trig, children, i, depth - 1, imgCenter, imgSize);
        result := result + expanded;
      }
      ExpandAllWhole(trig, children, depth - 1, imgCenter, imgSize);
    }
  }

  /** The loop step: the first `i + 1` children expand to the first `i`
      children's expansion followed by child `i`'s. */
  lemma ExpandAllSnoc(trig: Trig, ts: seq<Tile>, i: nat, depth: nat, imgCenter: Point, imgSize: real)
    requires i < |ts|
    ensures ExpandAll(trig, ts[..i + 1], depth, imgCenter, imgSize)
         == ExpandAll(trig, ts[..i], depth, imgCenter, imgSize) + Expand(trig, ts[i], depth, imgCenter, imgSize)
  {
    assert ts[..i + 1] == ts[..i] + [ts[i]];
    ExpandAllAppend(trig, ts[..i], [ts[i]], depth, imgCenter, imgSize);
    ExpandAllSingleton(trig, ts[i], depth, imgCenter, imgSize);
  }

  lemma ExpandAllSingleton(trig: Trig, t: Tile, depth: nat, imgCenter: Point, imgSize: real)
    ensures ExpandAll(trig, [t], depth, imgCenter, imgSize) == Expand(trig, t, depth, imgCenter, imgSize)
  {
  }

  lemma ExpandAllWhole(trig: Trig, ts: seq<Tile>, depth: nat, imgCenter: Point, imgSize: real)
    ensures ExpandAll(trig, ts[..|ts|], depth, imgCenter, imgSize) == ExpandAll(trig, ts, depth, imgCenter, imgSize)
  {
    assert ts[..|ts|] == ts;
  }

  /** Expanding a concatenation expands each part. */
  lemma {:induction false} ExpandAllAppend(trig: Trig, ts: seq<Tile>, us: seq<Tile>, depth: nat, imgCenter: Point, imgSize: real)
    ensures ExpandAll(trig, ts + us, depth, imgCenter, imgSize)
         == ExpandAll(trig, ts, depth, imgCenter, imgSize) + ExpandAll(trig, us, depth, imgCenter, imgSize)
    decreases |ts|
  {
    if ts == [] {
      assert ts + us == us;
    } else {
      assert (ts + us)[0] == ts[0];
      assert (ts + us)[1..] == ts[1..] + us;
      ExpandAllAppend(trig, ts[1..], us, depth, imgCenter, imgSize);
    }
  }

  /** Expanding the leaves of a depth-`d` expansion by `e` more levels is the
      same as expanding the tile by `d + e` levels. */
  lemma {:induction false} ExpandCompose(trig: Trig, t: Tile, d: nat, e: nat, imgCenter: Point, imgSize: real)
    ensures ExpandAll(trig, Expand(trig, t, d, imgCenter, imgSize), e, imgCenter, imgSize)
         == Expand(trig, t, d + e, imgCenter, imgSize)
    decreases d, 0
  {
    if d == 0 {
      ExpandAllSingleton(trig, t, e, imgCenter, imgSize);
    } else {
      ExpandAllCompose(trig, Subdivide(trig, t, imgCenter, imgSize), d - 1, e, imgCenter, imgSize);
    }
  }

  /** `ExpandCompose` for a sequence of tiles. */
  lemma {:induction false} ExpandAllCompose(trig: Trig, ts: seq<Tile>, d: nat, e: nat, imgCenter: Point, imgSize: real)
    ensures ExpandAll(trig, ExpandAll(trig, ts, d, imgCenter, imgSize), e, imgCenter, imgSize)
         == ExpandAll(trig, ts, d + e, imgCenter, imgSize)
    decreases d, 1, |ts|
  {
    if ts != [] {
      ExpandAllAppend(trig, Expand(trig, ts[0], d, imgCenter, imgSize), ExpandAll(trig, ts[1..], d, imgCenter, imgSize), e, imgCenter, imgSize);
      ExpandCompose(trig, ts[0], d, e, imgCenter, imgSize);
      ExpandAllCompose(trig, ts[1..], d, e, imgCenter, imgSize);
    }
  }

  /** One more level of expansion substitutes every tile of the current
      expansion in place. */
  lemma ExpandNext(trig: Trig, t: Tile, d: nat, imgCenter: Point, imgSize: real)
    ensures Expand(trig, t, d + 1, imgCenter, imgSize)
         == ExpandAll(trig, Expand(trig, t, d, imgCenter, imgSize), 1, imgCenter, imgSize)
  {
    ExpandCompose(trig, t, d, 1, imgCenter, imgSize);
  }

  // ----- Tile counts -----

  /** Number of tiles a Rhombus expands to after `d` levels. */
  function RhombusYield(d: nat): nat
  {
    if d == 0 then 1 else 2 * RhombusYield(d - 1) + SquareYield(d - 1)
  }

  /** Number of tiles a Square expands to after `d` levels. */
  function SquareYield(d: nat): nat
  {
    if d == 0 then 1 else 4 * RhombusYield(d - 1)
  }

  function Yield(t: Tile, d: nat): nat
  {
    if t.Rhombus? then RhombusYield(d) else SquareYield(d)
  }

  /** Number of tiles a sequence of tiles expands to after `d` levels. */
  function YieldAll(ts: seq<Tile>, d: nat): nat
  {
    if ts == [] then 0 else Yield(ts[0], d) + YieldAll(ts[1..], d)
  }

  /** The output length obeys R(d+1) = 2 R(d) + S(d) and S(d+1) = 4 R(d). */
  lemma {:induction false} ExpandLength(trig: Trig, t: Tile, d: nat, imgCenter: Point, imgSize: real)
    ensures |Expand(trig, t, d, imgCenter, imgSize)| == Yield(t, d)
    decreases d, 0
  {
    if d > 0 {
      var r := Subdivide(trig, t, imgCenter, imgSize);
      ExpandAllLength(trig, r, d - 1, imgCenter, imgSize);
      var r1 := r[1..];
      var r2 := r1[1..];
      var r3 := r2[1..];
      if t.Rhombus? {
        assert r3 == [];
        assert YieldAll(r2, d - 1) == SquareYield(d - 1);
      } else {
        assert r3[1..] == [];
        assert YieldAll(r3, d - 1) == RhombusYield(d - 1);
        assert YieldAll(r2, d - 1) == 2 * RhombusYield(d - 1);
      }
    }
  }

  lemma {:induction false} ExpandAllLength(trig: Trig, ts: seq<Tile>, d: nat, imgCenter: Point, imgSize: real)
    ensures |ExpandAll(trig, ts, d, imgCenter, imgSize)| == YieldAll(ts, d)
    decreases d, 1, |ts|
  {
    if ts != [] {
      ExpandLength(trig, ts[0], d, imgCenter, imgSize);
      ExpandAllLength(trig, ts[1..], d, imgCenter, imgSize);
    }
  }

  // ----- Shape census -----

  lemma {:induction false} CountAppend(ts: seq<Tile>, us: seq<Tile>)
    ensures CountRhombi(ts + us) == CountRhombi(ts) + CountRhombi(us)
    ensures CountSquares(ts + us) == CountSquares(ts) + CountSquares(us)
    decreases |ts|
  {
    if ts == [] {
      assert ts + us == us;
    } else {
      assert (ts + us)[0] == ts[0];
      assert (ts + us)[1..] == ts[1..] + us;
      CountAppend(ts[1..], us);
    }
  }

  /** Every tile is a Rhombus or a Square. */
  lemma {:induction false} CountTotal(ts: seq<Tile>)
    ensures CountRhombi(ts) + CountSquares(ts) == |ts|
  {
    if ts != [] {
      CountTotal(ts[1..]);
    }
  }

  /** One round of substitution maps a census of r Rhombi and s Squares to
      2r + 4s Rhombi and r Squares. */
  lemma {:induction false} SubstitutionCensus(trig: Trig, ts: seq<Tile>, imgCenter: Point, imgSize: real)
    ensures CountRhombi(ExpandAll(trig, ts, 1, imgCenter, imgSize)) == 2 * CountRhombi(ts) + 4 * CountSquares(ts)
    ensures CountSquares(ExpandAll(trig, ts, 1, imgCenter, imgSize)) == CountRhombi(ts)
    decreases |ts|
  {
    if ts != [] {
      var t := ts[0];
      var r := Subdivide(trig, t, imgCenter, imgSize);
      var head := Expand(trig, t, 1, imgCenter, imgSize);
      assert head == ExpandAll(trig, r, 0, imgCenter, imgSize);
      assert ExpandAll(trig, r, 0, imgCenter, imgSize) == r by {
        ExpandAllLeaves(trig, r, imgCenter, imgSize);
      }
      ChildrenCensus(trig, t, imgCenter, imgSize);
      CountAppend(head, ExpandAll(trig, ts[1..], 1, imgCenter, imgSize));
      SubstitutionCensus(trig, ts[1..], imgCenter, imgSize);
    }
  }

  /** Expanding by zero levels changes nothing. */
  lemma {:induction false} ExpandAllLeaves(trig: Trig, ts: seq<Tile>, imgCenter: Point, imgSize: real)
    ensures ExpandAll(trig, ts, 0, imgCenter, imgSize) == ts
    decreases |ts|
  {
    if ts != [] {
      ExpandAllLeaves(trig, ts[1..], imgCenter, imgSize);
    }
  }

  /** The census of an expansion, one level at a time. */
  lemma ExpandCensusNext(trig: Trig, t: Tile, d: nat, imgCenter: Point, imgSize: real)
    ensures var now := Expand(trig, t, d, imgCenter, imgSize);
      var next := Expand(trig, t, d + 1, imgCenter, imgSize);
      CountRhombi(next) == 2 * CountRhombi(now) + 4 * CountSquares(now) && CountSquares(next) == CountRhombi(now)
  {
    ExpandNext(trig, t, d, imgCenter, imgSize);
    SubstitutionCensus(trig, Expand(trig, t, d, imgCenter, imgSize), imgCenter, imgSize);
  }

  /** Rhombi after `d` levels, starting from `t` alone. */
  function RhombiAt(t: Tile, d: nat): nat
  {
    if d == 0 then (if t.Rhombus? then 1 else 0) else 2 * RhombiAt(t, d - 1) + 4 * SquaresAt(t, d - 1)
  }

  /** Squares after `d` levels, starting from `t` alone. */
  function SquaresAt(t: Tile, d: nat): nat
  {
    if d == 0 then (if t.Square? then 1 else 0) else RhombiAt(t, d - 1)
  }

  /** The census of an expansion follows the substitution matrix. */
  lemma {:induction false} ExpandCensus(trig: Trig, t: Tile, d: nat, imgCenter: Point, imgSize: real)
    ensures CountRhombi(Expand(trig, t, d, imgCenter, imgSize)) == RhombiAt(t, d)
    ensures CountSquares(Expand(trig, t, d, imgCenter, imgSize)) == SquaresAt(t, d)
  {
    if d > 0 {
      ExpandCensus(trig, t, d - 1, imgCenter, imgSize);
      ExpandCensusNext(trig, t, d - 1, imgCenter, imgSize);
    }
  }

  /** The two counts agree: the Rhombi and Squares of the substitution
      matrix add up to the length recurrence R(d) or S(d). */
  lemma ExpandCensusTotal(trig: Trig, t: Tile, d: nat, imgCenter: Point, imgSize: real)
    ensures RhombiAt(t, d) + SquaresAt(t, d) == Yield(t, d)
  {
    var e := Expand(trig, t, d, imgCenter, imgSize);
    ExpandCensus(trig, t, d, imgCenter, imgSize);
    ExpandLength(trig, t, d, imgCenter, imgSize);
    CountTotal(e);
  }

  // ----- Invariants kept by the expansion -----

  ghost predicate AllPositive(ts: seq<Tile>)
  {
    forall i | 0 <= i < |ts| :: 0.0 < ts[i].size
  }

  /** A positive size stays positive at every depth. */
  lemma {:induction false} ExpandAllPositive(trig: Trig, ts: seq<Tile>, d: nat, imgCenter: Point, imgSize: real)
    requires AllPositive(ts)
    ensures AllPositive(ExpandAll(trig, ts, d, imgCenter, imgSize))
    decreases d, |ts|
  {
    if ts != [] {
      if d > 0 {
        ChildSizes(trig, ts[0], imgCenter, imgSize);
        ExpandAllPositive(trig, Subdivide(trig, ts[0], imgCenter, imgSize), d - 1, imgCenter, imgSize);
      }
      ExpandAllPositive(trig, ts[1..], d, imgCenter, imgSize);
    }
  }

  ghost predicate AllOnAngleGrid(ts: seq<Tile>, base: real)
  {
    forall i | 0 <= i < |ts| :: OnAngleGrid(ts[i].angle, base)
  }

  /** Every angle ever produced is the seed's angle plus a multiple of pi/4. */
  lemma {:induction false} ExpandAllAngles(trig: Trig, ts: seq<Tile>, base: real, d: nat, imgCenter: Point, imgSize: real)
    requires AllOnAngleGrid(ts, base)
    ensures AllOnAngleGrid(ExpandAll(trig, ts, d, imgCenter, imgSize), base)
    decreases d, |ts|
  {
    if ts != [] {
      if d > 0 {
        ChildrenOnAngleGrid(trig, ts[0], base, imgCenter, imgSize);
        ExpandAllAngles(trig, Subdivide(trig, ts[0], imgCenter, imgSize), base, d - 1, imgCenter, imgSize);
      } else {
        assert OnAngleGrid(ts[0].angle, base);
      }
      ExpandAllAngles(trig, ts[1..], base, d, imgCenter, imgSize);
    }
  }

  /** Every angle in the expansion of one tile is on its angle grid. */
  lemma ExpandAngles(trig: Trig, t: Tile, d: nat, imgCenter: Point, imgSize: real)
    ensures AllOnAngleGrid(Expand(trig, t, d, imgCenter, imgSize), t.angle)
  {
    assert OnAngleGrid(t.angle, t.angle) by {
      assert t.angle == t.angle + Turn(0);
    }
    assert AllOnAngleGrid([t], t.angle);
    ExpandAllAngles(trig, [t], t.angle, d, imgCenter, imgSize);
    ExpandAllSingleton(trig, t, d, imgCenter, imgSize);
  }

  ghost predicate AllGradient(ts: seq<Tile>, imgCenter: Point, imgSize: real)
  {
    forall i | 0 <= i < |ts| :: ts[i].color == GradientColor(ts[i].center, imgCenter, imgSize)
  }

  /** After at least one level every tile is coloured from its own centre, so
      two output tiles with the same centre have the same colour. */
  lemma {:induction false} ExpandColors(trig: Trig, t: Tile, d: nat, imgCenter: Point, imgSize: real)
    requires 0 < d
    ensures AllGradient(Expand(trig, t, d, imgCenter, imgSize), imgCenter, imgSize)
    decreases d, 0
  {
    ExpandAllColors(trig, Subdivide(trig, t, imgCenter, imgSize), d - 1, imgCenter, imgSize);
  }

  lemma {:induction false} ExpandAllColors(trig: Trig, ts: seq<Tile>, d: nat, imgCenter: Point, imgSize: real)
    requires AllGradient(ts, imgCenter, imgSize)
    ensures AllGradient(ExpandAll(trig, ts, d, imgCenter, imgSize), imgCenter, imgSize)
    decreases d, 1, |ts|
  {
    if ts != [] {
      if d > 0 {
        ExpandColors(trig, ts[0], d, imgCenter, imgSize);
      }
      ExpandAllColors(trig, ts[1..], d, imgCenter, imgSize);
    }
  }

  // ----- What the image parameters and the seed's colour do not affect -----

  /** Colours are not inherited: from depth 1 on, the seed's colour does not
      show in its expansion. */
  lemma ExpandIgnoresSeedColor(trig: Trig, t: Tile, c: Color, d: nat, imgCenter: Point, imgSize: real)
    requires 0 < d
    ensures Expand(trig, t.(color := c), d, imgCenter, imgSize) == Expand(trig, t, d, imgCenter, imgSize)
  {
  }

  /** The image centre and size, and the colours of the tiles expanded, decide
      colours only: the outlines of an expansion depend on the outlines of its
      input alone. */
  lemma {:induction false} ExpandAllGeometry(trig: Trig, ts: seq<Tile>, us: seq<Tile>, d: nat,
                                             imgCenter: Point, imgSize: real, imgCenter': Point, imgSize': real)
    requires Outlines(ts) == Outlines(us)
    ensures Outlines(ExpandAll(trig, ts, d, imgCenter, imgSize)) == Outlines(ExpandAll(trig, us, d, imgCenter', imgSize'))
    decreases d, |ts|
  {
    if ts != [] {
      assert |us| == |ts|;
      assert Outline(ts[0]) == Outline(us[0]);
      var a := Expand(trig, ts[0], d, imgCenter, imgSize);
      var b := Expand(trig, us[0], d, imgCenter', imgSize');
      if d == 0 {
        assert Outlines(a) == Outlines(b);
      } else {
        SubdivideOutlines(trig, ts[0], us[0], imgCenter, imgSize, imgCenter', imgSize');
        ExpandAllGeometry(trig, Subdivide(trig, ts[0], imgCenter, imgSize), Subdivide(trig, us[0], imgCenter', imgSize'),
                          d - 1, imgCenter, imgSize, imgCenter', imgSize');
      }
      assert Outlines(ts[1..]) == Outlines(us[1..]);
      ExpandAllGeometry(trig, ts[1..], us[1..], d, imgCenter, imgSize, imgCenter', imgSize');
      OutlinesAppend(a, ExpandAll(trig, ts[1..], d, imgCenter, imgSize));
      OutlinesAppend(b, ExpandAll(trig, us[1..], d, imgCenter', imgSize'));
    }
  }

  lemma OutlinesAppend(ts: seq<Tile>, us: seq<Tile>)
    ensures Outlines(ts + us) == Outlines(ts) + Outlines(us)
  {
  }
}
